/**
 * The collaborators the service calls but does not implement: the Markdown
 * engine, `md5`, PHP's JSON codec, `urldecode`, the file system, the list of
 * time-zone identifiers, the clock, and the superglobals a request arrives
 * in. Each is a parameter of the model, so every property proved holds for
 * any behaviour of theirs.
 */
module Externals {
  import opened Wrappers
  import opened PhpArrays
  import opened PhpValues
  import opened Exceptions

  /** What the engine's content object yields: `getMetadataToString()`, `getBody()`, `getNotesToString()`. */
  datatype Sections = Sections(metadata: string, body: string, notes: string)

  /** `transformString($source, $options)`: a content object, or the exception the engine threw. */
  datatype EngineOutcome = Transformed(sections: Sections) | EngineFailed(fault: Fault)

  /** `json_decode($s, true)` and `json_last_error()`. */
  datatype Decoded = Decoded(value: Value) | DecodeError(code: int)

  /** `json_encode($data)` and `json_last_error()`. */
  datatype Encoded = Encoded(json: string) | EncodeError(code: int)

  /** One entry of `$_FILES`: the client file name, the temporary path, the upload error code and the size. */
  datatype Upload = Upload(name: string, tmpName: string, error: int, size: int)

  /**
   * The raw request: `$_SERVER['REQUEST_METHOD']` (the verb), the request headers,
   * `$_POST`, `$_GET`, the first line of `php://input` (None when `fgets`
   * fails), and `$_FILES`.
   */
  datatype RequestInput = RequestInput(
    verb: string,
    headers: PArray<string>,
    post: PArray<Value>,
    get: PArray<Value>,
    rawBody: Option<string>,
    uploads: seq<Upload>)

  datatype Env = Env(
    /** `$parser->transformString($source, $options)` */
    transform: (string, PArray<Value>) -> EngineOutcome,
    /** `new \MarkdownExtended\Content()`: what an empty source yields without calling the engine */
    emptyContent: Sections,
    /** `\MarkdownExtended\MarkdownExtended::MDE_VERSION` */
    engineVersion: string,
    /** `class_exists('\MarkdownExtended\MarkdownExtended')` */
    engineAvailable: bool,
    md5: string -> string,
    jsonDecode: string -> Decoded,
    jsonEncode: Value -> Encoded,
    urlDecode: string -> string,
    fileExists: string -> bool,
    isUploadedFile: string -> bool,
    isReadable: string -> bool,
    /** `file_get_contents($path)`, None when it returns false */
    readFile: string -> Option<string>,
    /** `in_array($value, timezone_identifiers_list())` */
    isTimeZone: string -> bool,
    /** `gmdate('D, d M Y H:i:s')` at the time of the request */
    now: string,
    /** `serialize($this)` of the controller when it serves */
    dump: string)
}
