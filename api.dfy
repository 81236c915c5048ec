/**
 * The web entry point: a fresh controller distributes the request, parses
 * the sources and serves the document; any exception (or reported PHP
 * error) on the way goes to the exception handler, which serves the error
 * document instead. The line after `serve` in the entry script is never
 * reached: every run ends with a document sent, or with an exception the
 * handler itself could not get past.
 */
module Api {
  import opened Wrappers
  import opened Exceptions
  import opened Externals
  import opened Responses
  import opened Requests
  import opened Controllers
  import opened Handlers

  /** How a request ends: the document was sent, or the handler's own `serve` threw. */
  datatype Ending = Sent | Uncaught(fault: Fault)

  /** `Controller::create()->distribute()->parse()->serve()`, with the handlers installed. */
  method Run(input: RequestInput, env: Env) returns (c: Controller, ending: Ending)
    ensures fresh(c) && c.Valid()
    ensures ending.Sent? <==> c.response.sent
    ensures ending.Sent? ==> c.response.HasStatus()
    ensures ending.Uncaught? ==> c.response.status == Some(STATUS_ERROR) && |c.errors| > 0
  {
    c := new Controller(input.verb);
    var flow := Answer(c, input, env);
    if flow.Raised? {
      flow := ExceptionHandler(c, flow.fault, env);
    }
    if flow.Raised? {
      ending := Uncaught(flow.fault);
    } else {
      ending := Sent;
    }
  }

  /** The three calls of the entry script; the first exception stops them. */
  method Answer(c: Controller, input: RequestInput, env: Env) returns (flow: Flow)
    requires c.Valid() && !c.response.sent
    modifies c, c.request, c.response
    ensures c.Valid()
    ensures flow != Continue
    ensures flow == Served <==> c.response.sent
  {
    flow := c.Distribute(input, env);
    if flow != Continue {
      return;
    }
    flow := c.Parse(env);
    if flow != Continue {
      return;
    }
    flow := c.Serve(env);
  }
}
