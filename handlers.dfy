/**
 * The process-wide handlers installed by `Helper::initEnvironment`: the
 * exception handler turns an uncaught exception into a collected error with
 * the 500 status and serves the document at once; the error handler does
 * the same for every PHP error the reporting level lets through, as an
 * `MdeService\Error` carrying the error's message, file and line.
 *
 * The container lookups of the source (`Container::get('controller')`,
 * `Container::get('response')`) become the controller passed in, whose
 * `response` is the registered response.
 */
module Handlers {
  import opened Wrappers
  import opened PhpValues
  import opened Exceptions
  import opened Externals
  import opened Responses
  import opened Errors
  import opened Helper
  import opened Controllers

  /** What the exception handler adds to the errors for an uncaught exception. */
  function HandledError(f: Fault): (e: Error)
    ensures e.status == STATUS_ERROR && e.code == 3 && e.message == f.message
  {
    CreateFromException(f, STATUS_ERROR)
  }

  /**
   * `exceptionHandler`: collects the exception as a 500 error, sets the 500
   * status and serves. The document served lists the new error last. Only a
   * failure to encode the document comes back (PHP then stops with an
   * uncaught exception).
   */
  method ExceptionHandler(c: Controller, f: Fault, env: Env) returns (flow: Flow)
    requires c.Valid() && !c.response.sent
    modifies c, c.response
    ensures c.Valid()
    ensures flow != Continue
    ensures flow == Served <==> c.response.sent
    ensures c.errors == old(c.errors) + [HandledError(f)]
    ensures c.sources == old(c.sources) && c.contents == old(c.contents)
    ensures c.sourceType == old(c.sourceType) && c.debug == old(c.debug)
    ensures c.response.status == Some(STATUS_ERROR)
    ensures var body := Arr(ServeBody(c.sourceType, c.sources, c.contents, Messages(c.errors), c.debug, env.dump));
      && (env.jsonEncode(body).Encoded? ==> flow == Served && c.response.content == Some(env.jsonEncode(body).json))
      && (env.jsonEncode(body).EncodeError? ==> flow == Raised(EncodeFault(env.jsonEncode(body).code)))
  {
    c.AddError(HandledError(f));
    var thrown := c.response.SetStatus(STATUS_ERROR);
    assert thrown.None?;
    flow := c.Serve(env);
  }

  /** The last message of the errors `exceptionHandler` serves is the handled exception's full message. */
  lemma HandledErrorServedLast(errs: seq<Error>, f: Fault)
    ensures var ms := Messages(errs + [HandledError(f)]);
      && |ms| == |errs| + 1
      && ms[|errs|] == Str(CreateFromException(f, STATUS_ERROR).fullMessage)
      && ms[..|errs|] == Messages(errs)
  {
    var ms := Messages(errs + [HandledError(f)]);
    assert ms[|errs|] == Str((errs + [HandledError(f)])[|errs|].fullMessage);
    forall j | 0 <= j < |errs| ensures ms[..|errs|][j] == Messages(errs)[j] {
      assert (errs + [HandledError(f)])[j] == errs[j];
    }
  }

  /**
   * `errorHandler`: an error whose level the reporting level masks out is
   * ignored and execution goes on; any other goes to the exception handler
   * as an `MdeService\Error` with the error's message, file and line.
   */
  method ErrorHandler(c: Controller, errno: bv32, reporting: bv32, errstr: string, errfile: string, errline: int, env: Env)
    returns (flow: Flow)
    requires c.Valid() && !c.response.sent
    modifies c, c.response
    ensures c.Valid()
    ensures !Reported(errno, reporting) <==> flow == Continue
    ensures !Reported(errno, reporting) ==> c.errors == old(c.errors) && !c.response.sent
    ensures Reported(errno, reporting) ==>
      && c.errors == old(c.errors) + [HandledError(PhpError(errstr, errfile, errline))]
      && c.response.status == Some(STATUS_ERROR)
      && (flow == Served <==> c.response.sent)
  {
    if !Reported(errno, reporting) {
      return Continue;
    }
    flow := ExceptionHandler(c, PhpError(errstr, errfile, errline), env);
  }
}
