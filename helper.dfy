/**
 * The static helpers: reading a request value that may be JSON-encoded,
 * un-escaping a Markdown source before it reaches the engine, and deciding
 * which PHP errors the error handler turns into an error response.
 */
module Helper {
  import opened Wrappers
  import opened PhpArrays
  import opened PhpValues
  import opened PhpStrings
  import opened Exceptions
  import opened Externals

  const HELPER_FILE := "src/MdeService/Helper.php"

  function DecodeFault(code: int): Fault {
    Fault("Exception", "An error occurred while trying to decode JSON data [code \"" + IntToString(code) + "\"]!",
          HELPER_FILE, 147)
  }

  /** `Helper::json_decode($s)`: the decoded value, or an exception carrying the JSON error code. */
  function JsonDecode(s: string, decode: string -> Decoded): (r: Outcome<Value>)
    ensures decode(s).Decoded? <==> r.Ok?
    ensures r.Ok? ==> r.value == decode(s).value
    ensures r.Threw? ==> r.fault == DecodeFault(decode(s).code)
  {
    match decode(s)
    case Decoded(v) => Ok(v)
    case DecodeError(code) => Threw(DecodeFault(code))
  }

  /** A string that `getRawData` hands to the JSON decoder: not PHP-empty and opening with `{` or `[`. */
  predicate LooksLikeJson(s: string) {
    !EmptyString(s) && (s[0] == '{' || s[0] == '[')
  }

  /**
   * `Helper::getRawData($v)`: the two quoted empty strings `''` and `""`
   * become the empty string, a string that looks like JSON is decoded, and
   * anything else comes back unchanged.
   */
  function GetRawData(v: Value, decode: string -> Decoded): (r: Outcome<Value>)
    ensures v == Str("''") || v == Str("\"\"") ==> r == Ok(Str(""))
    ensures v.Str? && LooksLikeJson(v.s) ==> r == JsonDecode(v.s, decode)
    ensures !(v.Str? && LooksLikeJson(v.s)) && v != Str("''") && v != Str("\"\"") ==> r == Ok(v)
    ensures r.Threw? ==> v.Str? && LooksLikeJson(v.s) && decode(v.s).DecodeError?
  {
    var data := if v == Str("''") || v == Str("\"\"") then Str("") else v;
    if data.Str? && LooksLikeJson(data.s) then JsonDecode(data.s, decode) else Ok(data)
  }

  /** Replaces every `&gt;` by `>`, then every `&lt;` by `<`, left to right. */
  function Unescape(s: string): string {
    ReplaceAll(ReplaceAll(s, "&gt;", ">"), "&lt;", "<")
  }

  /** After un-escaping, the source holds neither entity any more. */
  lemma UnescapeRemovesEntities(s: string)
    ensures !Contains(Unescape(s), "&gt;")
    ensures !Contains(Unescape(s), "&lt;")
  {
    var once := ReplaceAll(s, "&gt;", ">");
    ReplaceRemovesPattern(s, "&gt;", ">");
    ReplaceRemovesPattern(once, "&lt;", "<");
    ReplaceKeepsAbsence(once, "&lt;", "<", "&gt;");
  }

  /**
   * `Helper::parseMdeSource($source, $options)`: a PHP-empty source yields
   * an empty content object without calling the engine; any other source is
   * un-escaped and transformed, and an engine exception propagates.
   */
  function ParseMdeSource(source: Value, options: PArray<Value>, env: Env): (r: EngineOutcome)
    requires !source.Arr?
    ensures IsEmpty(source) ==> r == Transformed(env.emptyContent)
    ensures !IsEmpty(source) ==> r == env.transform(Unescape(ToPhpString(source).value), options)
  {
    if IsEmpty(source) then Transformed(env.emptyContent)
    else env.transform(Unescape(ToPhpString(source).value), options)
  }

  // PHP error levels, as bit flags.
  const E_WARNING: bv32 := 2
  const E_NOTICE: bv32 := 8
  const E_STRICT: bv32 := 2048
  const E_RECOVERABLE_ERROR: bv32 := 4096
  const E_ALL: bv32 := 32767

  /** The reporting level the entry point sets: everything but notices and strict-standards messages. */
  const REPORTING: bv32 := E_ALL & !E_NOTICE & !E_STRICT

  /** `error_reporting() & $errno`: whether the error handler acts on an error of this level. */
  predicate Reported(errno: bv32, reporting: bv32) {
    errno & reporting != 0
  }

  /** Under the entry point's level, warnings and recoverable errors are handled, notices and strict messages ignored. */
  lemma ReportingLevels()
    ensures Reported(E_WARNING, REPORTING)
    ensures Reported(E_RECOVERABLE_ERROR, REPORTING)
    ensures !Reported(E_NOTICE, REPORTING)
    ensures !Reported(E_STRICT, REPORTING)
  {
  }
}
