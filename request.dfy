/**
 * The incoming request: the verb, the headers, the data fields (taken from
 * a JSON body, the form post or the query string, each field URL-decoded and
 * JSON-decoded when it looks like JSON), and the uploaded files.
 */
module Requests {
  import opened Wrappers
  import opened PhpArrays
  import opened PhpValues
  import opened PhpStrings
  import opened Exceptions
  import opened Externals
  import opened Helper

  const REQUEST_FILE := "src/MdeService/Request.php"

  /** `isMethod($t)`: the verb equals `$t`, its upper-case or its lower-case form, and nothing else. */
  predicate MethodMatches(verb: string, t: string) {
    verb == t || verb == Upper(t) || verb == Lower(t)
  }

  /** The usual verbs match, a mixed-case one matches neither spelling of a lower-case name. */
  lemma MethodCaseExamples()
    ensures MethodMatches("GET", "get") && MethodMatches("get", "get") && MethodMatches("POST", "post")
    ensures !MethodMatches("Get", "get") && !MethodMatches("Post", "post")
  {
    assert Upper("get") == "GET";
    assert Lower("get") == "get";
    assert Upper("post") == "POST";
    assert Lower("post") == "post";
  }

  /**
   * For a name spelt in lower-case ASCII letters, as every name the service
   * asks about is, a verb matches exactly when it is the name or its
   * upper-case spelling: a verb that mixes the two cases matches nothing.
   */
  lemma MethodMatchesLowerName(verb: string, t: string)
    requires forall i :: 0 <= i < |t| ==> 'a' <= t[i] <= 'z'
    ensures MethodMatches(verb, t) <==> verb == t || verb == Upper(t)
    ensures (exists i, j :: 0 <= i < |verb| && 0 <= j < |verb| && 'a' <= verb[i] <= 'z' && 'A' <= verb[j] <= 'Z') ==>
      !MethodMatches(verb, t)
  {
    assert Lower(t) == t;
    forall i | 0 <= i < |t| ensures 'A' <= Upper(t)[i] <= 'Z' {
    }
  }

  // ---------- the header source as written ----------

  /** The static methods `Helper` defines. */
  const HELPER_METHODS: set<string> :=
    {"initEnvironment", "errorHandler", "exceptionHandler", "shutdownHandler",
     "parseMdeSource", "getRawData", "json_decode", "json_encode"}

  /** How a static call ends before its body runs: it goes ahead, or PHP stops with a fatal error. */
  datatype CallStart = Proceeds | FatalError(message: string)

  function UndefinedMethodMessage(name: string): string {
    "Call to undefined method MdeService\\Helper::" + name + "()"
  }

  /** `Helper::$name()`: method names are matched without regard to case; an unknown one is fatal. */
  function HelperCall(name: string): (r: CallStart)
    ensures r.Proceeds? <==> exists m :: m in HELPER_METHODS && Lower(m) == Lower(name)
    ensures r.FatalError? ==> r.message == UndefinedMethodMessage(name)
  {
    if exists m :: m in HELPER_METHODS && Lower(m) == Lower(name) then Proceeds
    else FatalError(UndefinedMethodMessage(name))
  }

  /**
   * `parse` as written starts with `Helper::getAllHeaders()`, which `Helper`
   * does not define under any spelling: the call is fatal, no `catch` for
   * exceptions sees it, and no header, field or upload is ever taken.
   * `Request.Parse` models the evidently intended reading of the request
   * headers, taken from the request input.
   */
  lemma GetAllHeadersUndefined()
    ensures HelperCall("getAllHeaders") == FatalError(UndefinedMethodMessage("getAllHeaders"))
    ensures HelperCall("getRawData") == Proceeds
  {
    var name := "getAllHeaders";
    assert |Lower(name)| == 13;
    forall m | m in HELPER_METHODS ensures Lower(m) != Lower(name) {
      assert |m| != 13;
    }
    assert "getRawData" in HELPER_METHODS && Lower("getRawData") == Lower("getRawData");
  }

  // ---------- data fields ----------

  /** The first line of the raw body as PHP sees it: a string, or `false` when there is none. */
  function RawBody(raw: Option<string>): Value {
    match raw
    case Some(s) => Str(s)
    case None => Bool(false)
  }

  /**
   * The field array before decoding: a POST request (or any request with
   * form fields) takes the raw body when it decodes to a non-empty array and
   * the form fields otherwise; else a GET request (or any request with a
   * query string) takes the query fields; else nothing.
   */
  function SelectData(verb: string, input: RequestInput, decode: string -> Decoded): (r: Outcome<PArray<Value>>)
    ensures r.Threw? ==> MethodMatches(verb, "post") || |input.post.entries| > 0
    ensures !(MethodMatches(verb, "post") || |input.post.entries| > 0) ==>
      r == Ok(if MethodMatches(verb, "get") || |input.get.entries| > 0 then input.get else Empty())
  {
    if MethodMatches(verb, "post") || |input.post.entries| > 0 then
      match GetRawData(RawBody(input.rawBody), decode)
      case Threw(f) => Threw(f)
      case Ok(raw) => Ok(if !IsEmpty(raw) && raw.Arr? then raw.a else input.post)
    else if MethodMatches(verb, "get") || |input.get.entries| > 0 then Ok(input.get)
    else Ok(Empty())
  }

  /** A field value is URL-decoded when it is a string, then read by `getRawData`. */
  function DecodeField(v: Value, env: Env): Outcome<Value> {
    GetRawData(if v.Str? then Str(env.urlDecode(v.s)) else v, env.jsonDecode)
  }

  /**
   * The fields `es` written back into `acc` one after the other with their
   * decoded values, as `$data[$name] = ...` does; the first failure is thrown.
   */
  function DecodeFrom(acc: PArray<Value>, es: seq<(Key, Value)>, env: Env): Outcome<PArray<Value>>
    decreases |es|
  {
    if es == [] then Ok(acc)
    else match DecodeField(es[0].1, env)
      case Threw(f) => Threw(f)
      case Ok(v) => DecodeFrom(Put(acc, es[0].0, v), es[1..], env)
  }

  /** What `_processData` stores as the request data, or the exception it throws. */
  function ReadData(verb: string, input: RequestInput, env: Env): Outcome<PArray<Value>> {
    match SelectData(verb, input, env.jsonDecode)
    case Threw(f) => Threw(f)
    case Ok(d) => DecodeFrom(d, d.entries, env)
  }

  /** Every key of `es` is already a key of `a`, and no key occurs twice in `es`. */
  ghost predicate UpdatesExisting(a: PArray<Value>, es: seq<(Key, Value)>) {
    && (forall j :: 0 <= j < |es| ==> HasKey(a, es[j].0))
    && (forall i, j :: 0 <= i < j < |es| ==> es[i].0 != es[j].0)
  }

  /** `r` is `acc` with the fields `es` written back decoded: same keys, decoded values under `es`'s keys, the rest kept. */
  ghost predicate Rewrites(acc: PArray<Value>, es: seq<(Key, Value)>, r: PArray<Value>, env: Env) {
    && WellFormed(r) && Keys(r) == Keys(acc)
    && (forall j :: 0 <= j < |es| ==>
          (DecodeField(es[j].1, env).Ok? && Get(r, es[j].0) == Some(DecodeField(es[j].1, env).value)))
    && (forall k :: (forall j :: 0 <= j < |es| ==> es[j].0 != k) ==> Get(r, k) == Get(acc, k))
  }

  lemma UpdatesExistingStep(acc: PArray<Value>, es: seq<(Key, Value)>, v: Value)
    requires es != [] && UpdatesExisting(acc, es)
    ensures UpdatesExisting(Put(acc, es[0].0, v), es[1..])
  {
    var next := Put(acc, es[0].0, v);
    var rest := es[1..];
    forall j | 0 <= j < |rest| ensures HasKey(next, rest[j].0) {
      assert rest[j] == es[j + 1];
      assert Get(next, rest[j].0) == Get(acc, rest[j].0);
    }
  }

  lemma RewritesStep(acc: PArray<Value>, es: seq<(Key, Value)>, v: Value, r: PArray<Value>, env: Env)
    requires WellFormed(acc) && es != [] && UpdatesExisting(acc, es)
    requires DecodeField(es[0].1, env) == Ok(v)
    requires Rewrites(Put(acc, es[0].0, v), es[1..], r, env)
    ensures Rewrites(acc, es, r, env)
  {
    var rest := es[1..];
    assert HasKey(acc, es[0].0);
    forall j | 0 <= j < |rest| ensures rest[j].0 != es[0].0 {
      assert rest[j] == es[j + 1];
    }
    forall j | 0 <= j < |es|
      ensures DecodeField(es[j].1, env).Ok? && Get(r, es[j].0) == Some(DecodeField(es[j].1, env).value)
    {
      if j > 0 {
        assert rest[j - 1] == es[j];
      }
    }
    forall k | forall j :: 0 <= j < |es| ==> es[j].0 != k
      ensures Get(r, k) == Get(acc, k)
    {
      forall j | 0 <= j < |rest| ensures rest[j].0 != k {
        assert rest[j] == es[j + 1];
      }
    }
  }

  /**
   * Writing decoded values back under existing keys changes values only:
   * the keys and their order stay, each written key holds its decoded value,
   * every other key keeps its value; a failure is the failure of one field.
   */
  lemma {:induction false} DecodeFromKeepsKeys(acc: PArray<Value>, es: seq<(Key, Value)>, env: Env)
    requires WellFormed(acc) && UpdatesExisting(acc, es)
    ensures DecodeFrom(acc, es, env).Ok? ==> Rewrites(acc, es, DecodeFrom(acc, es, env).value, env)
    ensures DecodeFrom(acc, es, env).Threw? ==>
      exists j :: 0 <= j < |es| && DecodeField(es[j].1, env) == Threw(DecodeFrom(acc, es, env).fault)
    decreases |es|
  {
    if es == [] {
      if DecodeFrom(acc, es, env).Ok? {
        assert Keys(acc) == Keys(acc);
      }
    } else {
      match DecodeField(es[0].1, env)
      case Threw(f) =>
      case Ok(v) =>
        var next := Put(acc, es[0].0, v);
        UpdatesExistingStep(acc, es, v);
        DecodeFromKeepsKeys(next, es[1..], env);
        match DecodeFrom(next, es[1..], env)
        case Ok(r) =>
          RewritesStep(acc, es, v, r, env);
        case Threw(f) =>
          var j :| 0 <= j < |es[1..]| && DecodeField(es[1..][j].1, env) == Threw(f);
          assert es[1..][j] == es[j + 1];
    }
  }

  /** Decoding the fields of a request rewrites their values and keeps their keys and order. */
  lemma DecodeRewritesValues(d: PArray<Value>, env: Env)
    requires WellFormed(d)
    ensures DecodeFrom(d, d.entries, env).Ok? ==> Rewrites(d, d.entries, DecodeFrom(d, d.entries, env).value, env)
  {
    forall j | 0 <= j < |d.entries| ensures HasKey(d, d.entries[j].0) {
      GetAt(d, j);
    }
    DecodeFromKeepsKeys(d, d.entries, env);
  }

  // ---------- uploads ----------

  const UPLOAD_ERR_OK := 0
  const UPLOAD_ERR_INI_SIZE := 1
  const UPLOAD_ERR_FORM_SIZE := 2
  const UPLOAD_ERR_PARTIAL := 3
  const UPLOAD_ERR_NO_FILE := 4
  const UPLOAD_ERR_NO_TMP_DIR := 6
  const UPLOAD_ERR_CANT_WRITE := 7
  const UPLOAD_ERR_EXTENSION := 8

  /** Why an upload is refused, or None when it is accepted. */
  function UploadProblem(u: Upload, env: Env): Option<string> {
    if u.error == UPLOAD_ERR_INI_SIZE || u.error == UPLOAD_ERR_FORM_SIZE then
      Some("File size limit exceeded (got \"" + IntToString(u.size) + "\")!")
    else if u.error == UPLOAD_ERR_PARTIAL then Some("File is not fully uploaded!")
    else if u.error == UPLOAD_ERR_NO_FILE then Some("File seems empty!")
    else if u.error == UPLOAD_ERR_NO_TMP_DIR || u.error == UPLOAD_ERR_CANT_WRITE || u.error == UPLOAD_ERR_EXTENSION then
      Some("Internal error while trying to upload a file! [code " + IntToString(u.error) + "]")
    else if env.fileExists(u.tmpName) && env.isUploadedFile(u.tmpName) && env.isReadable(u.tmpName) then None
    else Some("File \"" + u.name + "\" not found or not readable!")
  }

  predicate Accepted(u: Upload, env: Env) {
    UploadProblem(u, env).None?
  }

  /** An upload is accepted exactly when its error code is OK or one PHP does not define and its temporary file is there, uploaded and readable. */
  lemma AcceptedExactly(u: Upload, env: Env)
    ensures Accepted(u, env) <==>
      !(1 <= u.error <= 4 || 6 <= u.error <= 8)
      && env.fileExists(u.tmpName) && env.isUploadedFile(u.tmpName) && env.isReadable(u.tmpName)
  {
  }

  function UploadFault(u: Upload, problem: string): Fault {
    Fault("Exception", "Failure on upload of \"" + u.name + "\" : " + Join(" ", [problem]), REQUEST_FILE, 167)
  }

  /** The file map entries the uploads add: the temporary path under the client file name. */
  function FileEntries(us: seq<Upload>): (es: seq<(Key, string)>)
    ensures |es| == |us|
    ensures forall j :: 0 <= j < |us| ==> es[j] == (StrKey(us[j].name), us[j].tmpName)
  {
    seq(|us|, j requires 0 <= j < |us| => (StrKey(us[j].name), us[j].tmpName))
  }

  /** Upload `n` is the first one refused. */
  predicate FirstRefused(us: seq<Upload>, env: Env, n: nat) {
    n < |us| && (forall j :: 0 <= j < n ==> Accepted(us[j], env)) && !Accepted(us[n], env)
  }

  /** The file map after registering uploads in order, and the exception of the first one refused, if any. */
  datatype Registration = Registration(files: PArray<string>, failure: Option<Fault>)

  function Register(files: PArray<string>, us: seq<Upload>, env: Env): Registration
    decreases |us|
  {
    if us == [] then Registration(files, None)
    else match UploadProblem(us[0], env)
      case Some(problem) => Registration(files, Some(UploadFault(us[0], problem)))
      case None => Register(Put(files, StrKey(us[0].name), us[0].tmpName), us[1..], env)
  }

  /** One upload of the registration loop: a refused one ends it, an accepted one is written under its name. */
  lemma RegisterStep(files: PArray<string>, us: seq<Upload>, env: Env)
    requires us != []
    ensures UploadProblem(us[0], env).Some? ==>
      Register(files, us, env) == Registration(files, Some(UploadFault(us[0], UploadProblem(us[0], env).value)))
    ensures UploadProblem(us[0], env).None? ==>
      && env.fileExists(us[0].tmpName)
      && Register(files, us, env) == Register(Put(files, StrKey(us[0].name), us[0].tmpName), us[1..], env)
  {
  }

  lemma FirstRefusedShift(us: seq<Upload>, env: Env, n: nat)
    requires us != [] && Accepted(us[0], env) && FirstRefused(us[1..], env, n)
    ensures FirstRefused(us, env, n + 1)
  {
    forall j | 0 <= j < n + 1 ensures Accepted(us[j], env) {
      if j > 0 {
        assert us[1..][j - 1] == us[j];
      }
    }
  }

  lemma FileEntriesCons(us: seq<Upload>, n: nat)
    requires n < |us|
    ensures FileEntries(us[..n + 1]) == [(StrKey(us[0].name), us[0].tmpName)] + FileEntries(us[1..][..n])
  {
  }

  /** With no upload refused, every upload is accepted and registered, in order, under its client file name. */
  lemma {:induction false} RegisterAccepted(files: PArray<string>, us: seq<Upload>, env: Env)
    requires Register(files, us, env).failure.None?
    ensures forall j :: 0 <= j < |us| ==> Accepted(us[j], env)
    ensures Register(files, us, env).files == PutAll(files, FileEntries(us))
    decreases |us|
  {
    if us != [] {
      var rest := us[1..];
      RegisterAccepted(Put(files, StrKey(us[0].name), us[0].tmpName), rest, env);
      assert FileEntries(us)[1..] == FileEntries(rest);
      forall j | 0 <= j < |us| ensures Accepted(us[j], env) {
        if j > 0 {
          assert rest[j - 1] == us[j];
        }
      }
    }
  }

  /**
   * Registration stops at the first refused upload and throws for it; the
   * uploads before it stay registered.
   */
  lemma {:induction false} RegisterRefused(files: PArray<string>, us: seq<Upload>, env: Env)
    requires Register(files, us, env).failure.Some?
    ensures exists n: nat ::
      (FirstRefused(us, env, n)
       && Register(files, us, env).failure == Some(UploadFault(us[n], UploadProblem(us[n], env).value))
       && Register(files, us, env).files == PutAll(files, FileEntries(us[..n])))
    decreases |us|
  {
    match UploadProblem(us[0], env)
    case Some(problem) =>
      assert FirstRefused(us, env, 0);
      assert FileEntries(us[..0]) == [];
    case None =>
      var next := Put(files, StrKey(us[0].name), us[0].tmpName);
      var rest := us[1..];
      RegisterRefused(next, rest, env);
      var n: nat :| FirstRefused(rest, env, n)
        && Register(next, rest, env).failure == Some(UploadFault(rest[n], UploadProblem(rest[n], env).value))
        && Register(next, rest, env).files == PutAll(next, FileEntries(rest[..n]));
      FirstRefusedShift(us, env, n);
      FileEntriesCons(us, n);
      assert rest[n] == us[n + 1];
      assert FileEntries(us[..n + 1])[1..] == FileEntries(rest[..n]);
  }

  function AddFileFault(path: string): Fault {
    Fault("Exception", "File \"" + path + "\" not found!", REQUEST_FILE, 288)
  }

  class Request {
    var data: PArray<Value>
    var files: PArray<string>
    var headers: PArray<string>
    var verb: string

    ghost predicate Valid()
      reads this
    {
      WellFormed(files)
    }

    /** Takes the verb of the request; data, files and headers start empty. */
    constructor(verb: string)
      ensures Valid()
      ensures this.verb == verb && data == Empty() && files == Empty() && headers == Empty()
    {
      this.verb := verb;
      data := Empty();
      files := Empty();
      headers := Empty();
    }

    method SetData(d: PArray<Value>)
      modifies this
      ensures data == d
      ensures files == old(files) && headers == old(headers) && verb == old(verb)
    {
      data := d;
    }

    /** Writes one field and leaves the others as they were. */
    method SetDataField(name: string, v: Value)
      modifies this
      ensures data == Put(old(data), StrKey(name), v)
      ensures Get(data, StrKey(name)) == Some(v)
      ensures forall k :: k != StrKey(name) ==> Get(data, k) == Get(old(data), k)
      ensures files == old(files) && headers == old(headers) && verb == old(verb)
    {
      data := Put(data, StrKey(name), v);
    }

    function AllData(): PArray<Value>
      reads this
    {
      data
    }

    /** A field that is missing or null yields the default. */
    function GetData(name: string, default: Value): (r: Value)
      reads this
      ensures Get(data, StrKey(name)).Some? && !Get(data, StrKey(name)).value.Null? ==> r == Get(data, StrKey(name)).value
      ensures Get(data, StrKey(name)).None? || Get(data, StrKey(name)) == Some(Null) ==> r == default
    {
      match Get(data, StrKey(name))
      case Some(v) => if v.Null? then default else v
      case None => default
    }

    method SetMethod(m: string)
      modifies this
      ensures verb == m
      ensures data == old(data) && files == old(files) && headers == old(headers)
    {
      verb := m;
    }

    function GetMethod(): string
      reads this
    {
      verb
    }

    predicate IsMethod(t: string)
      reads this
    {
      MethodMatches(verb, t)
    }

    method SetHeaders(h: PArray<string>)
      modifies this
      ensures headers == h
      ensures data == old(data) && files == old(files) && verb == old(verb)
    {
      headers := h;
    }

    method SetHeader(name: string, value: string)
      modifies this
      ensures headers == Put(old(headers), StrKey(name), value)
      ensures Get(headers, StrKey(name)) == Some(value)
      ensures forall k :: k != StrKey(name) ==> Get(headers, k) == Get(old(headers), k)
      ensures data == old(data) && files == old(files) && verb == old(verb)
    {
      headers := Put(headers, StrKey(name), value);
    }

    function GetHeader(name: string): Option<string>
      reads this
    {
      Get(headers, StrKey(name))
    }

    function GetHeaders(): PArray<string>
      reads this
    {
      headers
    }

    /** Registers an existing file under a name; a missing file throws and registers nothing. */
    method AddFile(path: string, name: string, fileExists: string -> bool) returns (thrown: Option<Fault>)
      requires Valid()
      modifies this
      ensures Valid()
      ensures fileExists(path) ==> thrown.None? && files == Put(old(files), StrKey(name), path)
      ensures !fileExists(path) ==> thrown == Some(AddFileFault(path)) && files == old(files)
      ensures data == old(data) && headers == old(headers) && verb == old(verb)
    {
      if fileExists(path) {
        files := Put(files, StrKey(name), path);
        thrown := None;
      } else {
        thrown := Some(AddFileFault(path));
      }
    }

    function GetFile(name: string): Option<string>
      reads this
    {
      Get(files, StrKey(name))
    }

    function GetFiles(): PArray<string>
      reads this
    {
      files
    }

    /** The field array `_processData` starts from: the JSON body, the form post, the query string or nothing. */
    method SelectFields(input: RequestInput, env: Env) returns (sel: Outcome<PArray<Value>>)
      ensures sel == SelectData(verb, input, env.jsonDecode)
    {
      var d: PArray<Value> := Empty();
      if IsMethod("post") || |input.post.entries| > 0 {
        var raw := GetRawData(RawBody(input.rawBody), env.jsonDecode);
        if raw.Threw? {
          return Threw(raw.fault);
        }
        if !IsEmpty(raw.value) && raw.value.Arr? {
          d := raw.value.a;
        } else {
          d := input.post;
        }
      } else if IsMethod("get") || |input.get.entries| > 0 {
        d := input.get;
      }
      sel := Ok(d);
    }

    /** The loop over the fields: each one is URL-decoded and read by `getRawData`, and written back under its key. */
    method DecodeAll(d: PArray<Value>, env: Env) returns (r: Outcome<PArray<Value>>)
      ensures r == DecodeFrom(d, d.entries, env)
    {
      var out := d;
      var rest := d.entries;
      while rest != []
        invariant DecodeFrom(out, rest, env) == DecodeFrom(d, d.entries, env)
      {
        var name := rest[0].0;
        var value := rest[0].1;
        var field := GetRawData(if value.Str? then Str(env.urlDecode(value.s)) else value, env.jsonDecode);
        if field.Threw? {
          return Threw(field.fault);
        }
        out := Put(out, name, field.value);
        rest := rest[1..];
      }
      r := Ok(out);
    }

    /** `_processData`: stores `ReadData` or throws its exception, leaving the data untouched. */
    method ProcessData(input: RequestInput, env: Env) returns (thrown: Option<Fault>)
      modifies this
      ensures ReadData(old(verb), input, env).Ok? ==> thrown.None? && data == ReadData(old(verb), input, env).value
      ensures ReadData(old(verb), input, env).Threw? ==>
        thrown == Some(ReadData(old(verb), input, env).fault) && data == old(data)
      ensures files == old(files) && headers == old(headers) && verb == old(verb)
    {
      var sel := SelectFields(input, env);
      if sel.Threw? {
        return Some(sel.fault);
      }
      var decoded := DecodeAll(sel.value, env);
      if decoded.Threw? {
        return Some(decoded.fault);
      }
      data := decoded.value;
      thrown := None;
    }

    /** `_processFiles`: registers the uploads in order and throws on the first one refused. */
    method ProcessFiles(uploads: seq<Upload>, env: Env) returns (thrown: Option<Fault>)
      requires Valid()
      modifies this
      ensures Valid()
      ensures files == Register(old(files), uploads, env).files
      ensures thrown == Register(old(files), uploads, env).failure
      ensures data == old(data) && headers == old(headers) && verb == old(verb)
    {
      var rest := uploads;
      while rest != []
        invariant Valid()
        invariant Register(files, rest, env) == Register(old(files), uploads, env)
        invariant data == old(data) && headers == old(headers) && verb == old(verb)
      {
        var u := rest[0];
        var problem := UploadProblem(u, env);
        RegisterStep(files, rest, env);
        if problem.Some? {
          return Some(UploadFault(u, problem.value));
        }
        var _ := AddFile(u.tmpName, u.name, env.fileExists);
        rest := rest[1..];
      }
      thrown := None;
    }

    /** `parse`: takes the headers, then the data fields, then the uploads; the first exception stops it. */
    method Parse(input: RequestInput, env: Env) returns (thrown: Option<Fault>)
      requires Valid()
      modifies this
      ensures Valid()
      ensures headers == input.headers && verb == old(verb)
      ensures ReadData(old(verb), input, env).Threw? ==>
        thrown == Some(ReadData(old(verb), input, env).fault) && data == old(data) && files == old(files)
      ensures ReadData(old(verb), input, env).Ok? ==> data == ReadData(old(verb), input, env).value
      ensures ReadData(old(verb), input, env).Ok? ==>
        files == Register(old(files), input.uploads, env).files
        && thrown == Register(old(files), input.uploads, env).failure
    {
      SetHeaders(input.headers);
      thrown := ProcessData(input, env);
      if thrown.Some? {
        return;
      }
      thrown := ProcessFiles(input.uploads, env);
    }
  }
}
