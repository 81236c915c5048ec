/**
 * The service's error record: a message, an HTTP status, a numeric code
 * derived from the status, and a full message that appends whatever context
 * is known (the caught exception's class, the file, the line).
 */
module Errors {
  import opened Wrappers
  import opened PhpValues
  import opened PhpStrings
  import opened Exceptions
  import opened Responses

  datatype Error = Error(message: string, status: string, code: int, fullMessage: string)

  /** The error code a status maps to: 1, 2, 3 for 400, 405, 500 and 0 otherwise. */
  function StatusCode(status: string): (code: int)
    ensures 0 <= code <= 3
    ensures code == 1 <==> status == STATUS_BAD_REQUEST
    ensures code == 2 <==> status == STATUS_METHOD_NOT_ALLOWED
    ensures code == 3 <==> status == STATUS_ERROR
  {
    if status == STATUS_BAD_REQUEST then 1
    else if status == STATUS_METHOD_NOT_ALLOWED then 2
    else if status == STATUS_ERROR then 3
    else 0
  }

  /**
   * The context parts, in order: the class of the previous exception, the
   * file unless PHP-empty, the line unless 0.
   */
  function InfoParts(previous: Option<string>, filename: string, lineno: int): seq<string> {
    (if previous.Some? then ["caught " + previous.value] else [])
    + (if !EmptyString(filename) then ["in " + filename] else [])
    + (if lineno != 0 then ["at line " + IntToString(lineno)] else [])
  }

  function FullMessage(message: string, previous: Option<string>, filename: string, lineno: int): string {
    var info := InfoParts(previous, filename, lineno);
    if |info| > 0 then message + " [" + Join(" ", info) + "]" else message
  }

  /** `new Error($message, $status, $filename, $lineno, $previous)`, the previous exception given by its class. */
  function NewError(message: string, status: string, filename: string, lineno: int, previous: Option<string>): (e: Error)
    ensures e.message == message && e.status == status
    ensures e.code == StatusCode(status)
    ensures message <= e.fullMessage
    ensures previous.None? && EmptyString(filename) && lineno == 0 ==> e.fullMessage == message
  {
    Error(message, status, StatusCode(status), FullMessage(message, previous, filename, lineno))
  }

  /** An error with no context: its full message is its message. */
  function Plain(message: string, status: string): (e: Error)
    ensures e.message == message && e.fullMessage == message && e.status == status
  {
    NewError(message, status, "", 0, None)
  }

  /** `Error::createFromException($e, $status)`: the exception's message, file and line, with the exception as previous. */
  function CreateFromException(f: Fault, status: string): (e: Error)
    ensures e.message == f.message && e.status == status && e.code == StatusCode(status)
  {
    NewError(f.message, status, f.file, f.line, Some(f.cls))
  }

  function ToString(e: Error): string {
    e.fullMessage
  }

  /** The full message of an error made from an exception always names the exception's class right after the message. */
  lemma CreateFromExceptionNamesClass(f: Fault, status: string)
    ensures var full := CreateFromException(f, status).fullMessage;
      |full| >= |f.message| + 9 + |f.cls| &&
      full[..|f.message| + 9 + |f.cls|] == f.message + " [caught " + f.cls
  {
    var parts := InfoParts(Some(f.cls), f.file, f.line);
    var rest := parts[1..];
    assert parts == ["caught " + f.cls] + rest;
    var full := f.message + " [" + Join(" ", parts) + "]";
    if |rest| == 0 {
      assert Join(" ", parts) == "caught " + f.cls;
    } else {
      assert Join(" ", parts) == "caught " + f.cls + " " + Join(" ", rest);
    }
    assert full == f.message + " [caught " + f.cls + full[|f.message| + 9 + |f.cls|..];
  }

  /** With all three pieces of context the full message reads `message [caught C in F at line N]`. */
  lemma FullMessageWithAllContext(message: string, cls: string, filename: string, lineno: int)
    requires !EmptyString(filename) && lineno != 0
    ensures var a, b, c := "caught " + cls, "in " + filename, "at line " + IntToString(lineno);
      FullMessage(message, Some(cls), filename, lineno) == message + " [" + (a + " " + b + " " + c) + "]"
  {
    AllInfoParts(cls, filename, lineno);
    JoinThree("caught " + cls, "in " + filename, "at line " + IntToString(lineno));
  }

  lemma AllInfoParts(cls: string, filename: string, lineno: int)
    requires !EmptyString(filename) && lineno != 0
    ensures InfoParts(Some(cls), filename, lineno) == ["caught " + cls, "in " + filename, "at line " + IntToString(lineno)]
  {
  }

  lemma JoinThree(a: string, b: string, c: string)
    ensures Join(" ", [a, b, c]) == a + " " + b + " " + c
  {
    assert [a, b, c][1..] == [b, c];
    assert [b, c][1..] == [c];
    assert Join(" ", [c]) == c;
    assert Join(" ", [b, c]) == b + " " + c;
    assert Join(" ", [a, b, c]) == a + " " + (b + " " + c);
  }
}
