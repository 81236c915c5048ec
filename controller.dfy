/**
 * The web-service controller: it reads the request into its source map
 * (`distribute`), renders every source into its content map (`parse`), and
 * serves the JSON document built from both and from the collected errors
 * (`serve`). Errors along the way are either warnings, which are collected
 * and do not stop the request, or errors, which set the response status and
 * serve at once.
 */
module Controllers {
  import opened Wrappers
  import opened PhpArrays
  import opened PhpValues
  import opened Exceptions
  import opened Externals
  import opened Responses
  import opened Errors
  import opened Helper
  import opened Requests
  import opened SourceBooks

  /**
   * How a stage ended: it returned normally; the response was served and the
   * process exited; or an exception (or a PHP error turned into one) left it.
   */
  datatype Flow = Continue | Served | Raised(fault: Fault)

  /** `(bool) $v` */
  predicate Truthy(v: Value) {
    !IsEmpty(v)
  }

  /**
   * The flag `setDebug` stores: a string is compared with 'true' and '1'
   * (exactly, for the non-numeric strings the model admits), anything else
   * is cast to bool.
   */
  function DebugFlag(v: Value): bool {
    if v.Str? then v.s == "true" || v.s == "1" else Truthy(v)
  }

  /**
   * A string switches debugging on as 'true' or '1' and no non-numeric
   * string but 'true' does; the default `false` leaves it off; a non-zero
   * number turns it on.
   */
  lemma DebugFlagCases(s: string, n: int)
    ensures DebugFlag(Str(s)) <==> s == "true" || s == "1"
    ensures !DebugFlag(Str("yes")) && !DebugFlag(Str("0")) && !DebugFlag(Str(""))
    ensures !DebugFlag(Bool(false)) && !DebugFlag(Null)
    ensures n != 0 ==> DebugFlag(Int(n))
  {
  }

  /** The request methods the service answers. */
  predicate MethodAllowed(verb: string) {
    MethodMatches(verb, "get") || MethodMatches(verb, "post") || MethodMatches(verb, "head")
  }

  function NotAllowedMessage(verb: string): string {
    "Request method \"" + verb + "\" is not allowed!"
  }

  const NO_SOURCE_MESSAGE := "No source to parse!"
  const NO_ENGINE_MESSAGE := "Class \"\\MarkdownExtended\\MarkdownExtended\" not found!"

  // ------------------------------------------------------------------
  // Request headers

  /** `switch ($name) { case 'Time-Zone': ... }`: loose, so the integer key 0 matches too. */
  predicate IsTimeZoneKey(k: Key) {
    k == StrKey("Time-Zone") || k == IntKey(0)
  }

  function TimeZoneWarning(value: string): Error {
    Plain("The \"" + value + "\" timezone defined is not valid!", STATUS_OK)
  }

  datatype HeaderScan = HeaderScan(timeZone: string, errors: seq<Error>)

  /**
   * The loop over the request headers: a valid time zone becomes the default
   * one; an invalid one adds a warning. Errors are only ever appended, each
   * one a warning, and the zone only ever changes to a valid one.
   */
  function ScanFrom(tz: string, errs: seq<Error>, es: seq<(Key, string)>, isTimeZone: string -> bool): (r: HeaderScan)
    ensures errs <= r.errors
    ensures forall j :: |errs| <= j < |r.errors| ==> r.errors[j].status == STATUS_OK && r.errors[j].code == 0
    ensures r.timeZone == tz || isTimeZone(r.timeZone)
    ensures |r.errors| - |errs| <= |es|
    decreases |es|
  {
    if es == [] then HeaderScan(tz, errs)
    else if !IsTimeZoneKey(es[0].0) then ScanFrom(tz, errs, es[1..], isTimeZone)
    else if isTimeZone(es[0].1) then ScanFrom(es[0].1, errs, es[1..], isTimeZone)
    else ScanFrom(tz, errs + [TimeZoneWarning(es[0].1)], es[1..], isTimeZone)
  }

  /** A single `Time-Zone` header: a valid zone is adopted silently, an invalid one is reported once and ignored. */
  lemma OneTimeZoneHeader(tz: string, errs: seq<Error>, z: string, isTimeZone: string -> bool)
    ensures isTimeZone(z) ==> ScanFrom(tz, errs, [(StrKey("Time-Zone"), z)], isTimeZone) == HeaderScan(z, errs)
    ensures !isTimeZone(z) ==> ScanFrom(tz, errs, [(StrKey("Time-Zone"), z)], isTimeZone) == HeaderScan(tz, errs + [TimeZoneWarning(z)])
  {
    assert [(StrKey("Time-Zone"), z)][1..] == [];
  }

  // ------------------------------------------------------------------
  // Uploaded files as sources

  function ReadFault(path: string): Fault {
    PhpError("file_get_contents(" + path + "): failed to open stream", CONTROLLER_FILE, 140)
  }

  datatype Collected = Collected(sources: PArray<Value>, failure: Option<Fault>)

  /** The loop over the request's files: each file's text becomes the source under the file's name. */
  function CollectFrom(srcs: PArray<Value>, es: seq<(Key, string)>, readFile: string -> Option<string>): (r: Collected)
    ensures WellFormed(srcs) ==> WellFormed(r.sources)
    decreases |es|
  {
    if es == [] then Collected(srcs, None)
    else match readFile(es[0].1)
      case None => Collected(srcs, Some(ReadFault(es[0].1)))
      case Some(text) => CollectFrom(Put(srcs, es[0].0, Str(text)), es[1..], readFile)
  }

  /** The writes the loop performs when every file can be read. */
  function FileSources(es: seq<(Key, string)>, readFile: string -> Option<string>): (ws: seq<(Key, Value)>)
    ensures |ws| == |es|
    ensures forall j :: 0 <= j < |es| ==> ws[j] == (es[j].0, Str(readFile(es[j].1).GetOr("")))
  {
    seq(|es|, j requires 0 <= j < |es| => (es[j].0, Str(readFile(es[j].1).GetOr(""))))
  }

  /**
   * Collecting succeeds exactly when every file can be read, and then
   * writes each file's text under its name, in order; otherwise the first
   * unreadable file is reported.
   */
  lemma {:induction false} CollectReadsEveryFile(srcs: PArray<Value>, es: seq<(Key, string)>, readFile: string -> Option<string>)
    ensures CollectFrom(srcs, es, readFile).failure.None? <==> forall j :: 0 <= j < |es| ==> readFile(es[j].1).Some?
    ensures CollectFrom(srcs, es, readFile).failure.None? ==>
      CollectFrom(srcs, es, readFile).sources == PutAll(srcs, FileSources(es, readFile))
    ensures CollectFrom(srcs, es, readFile).failure.Some? ==>
      exists j :: 0 <= j < |es| && readFile(es[j].1).None? && CollectFrom(srcs, es, readFile).failure == Some(ReadFault(es[j].1))
    decreases |es|
  {
    if es != [] {
      match readFile(es[0].1)
      case None =>
      case Some(text) =>
        var next := Put(srcs, es[0].0, Str(text));
        CollectReadsEveryFile(next, es[1..], readFile);
        forall j | 0 <= j < |es[1..]| ensures es[1..][j] == es[j + 1] {
        }
        assert FileSources(es, readFile)[1..] == FileSources(es[1..], readFile);
    }
  }

  // ------------------------------------------------------------------
  // Gathering the inline sources

  function ArrayMergeFault(): Fault {
    PhpError("array_merge(): Argument #2 is not an array", CONTROLLER_FILE, 156)
  }

  /**
   * The sources after the inline fields are taken in: a non-empty `sources`
   * array is merged after the current ones (`array_merge`), then a non-empty
   * `source` is appended.
   */
  function Gathered(current: PArray<Value>, source: Value, srcs: Value): (r: PArray<Value>)
    requires IsEmpty(srcs) || srcs.Arr?
    requires WellFormed(current)
    ensures WellFormed(r)
    ensures Count(r) > 0 <==> Count(current) > 0 || !IsEmpty(srcs) || !IsEmpty(source)
  {
    var merged := if !IsEmpty(srcs) then Merge(current, srcs.a) else current;
    assert !IsEmpty(srcs) ==> Count(merged) > 0 by {
      if !IsEmpty(srcs) {
        MergeKeepsEntries(current, srcs.a);
      }
    }
    assert Count(current) > 0 ==> Count(merged) > 0 by {
      if !IsEmpty(srcs) && Count(current) > 0 {
        MergeKeepsEntries(current, srcs.a);
      }
    }
    if !IsEmpty(source) then Append(merged, source) else merged
  }

  /**
   * The sources `distribute` leaves when it goes on: in file mode the
   * uploaded files' texts under their names first, then the inline fields
   * as `Gathered` adds them.
   */
  function Taken(current: PArray<Value>, fileMode: bool, files: PArray<string>, readFile: string -> Option<string>,
                 source: Value, srcs: Value): (r: PArray<Value>)
    requires WellFormed(current) && (IsEmpty(srcs) || srcs.Arr?)
    ensures WellFormed(r)
  {
    Gathered(if fileMode then CollectFrom(current, files.entries, readFile).sources else current, source, srcs)
  }

  /**
   * A file-mode request without inline fields, whose files can all be read,
   * leaves exactly the files' texts, each under its file name, in upload order.
   */
  lemma TakenFiles(files: PArray<string>, readFile: string -> Option<string>)
    requires forall j :: 0 <= j < |files.entries| ==> readFile(files.entries[j].1).Some?
    ensures Taken(Empty(), true, files, readFile, Null, Null) == PutAll(Empty(), FileSources(files.entries, readFile))
  {
    CollectReadsEveryFile(Empty(), files.entries, readFile);
  }

  /** `array_merge` of two arrays has an entry as soon as either has one. */
  lemma MergeKeepsEntries<V>(a: PArray<V>, b: PArray<V>)
    ensures Count(a) > 0 || Count(b) > 0 ==> Count(Merge(a, b)) > 0
  {
    var e: PArray<V> := Empty();
    MergeAllGrows(e, a.entries);
    MergeAllGrows(MergeAll(e, a.entries), b.entries);
  }

  lemma {:induction false} MergeAllGrows<V>(acc: PArray<V>, es: seq<(Key, V)>)
    requires WellFormed(acc)
    ensures Count(MergeAll(acc, es)) >= Count(acc)
    ensures es != [] ==> Count(MergeAll(acc, es)) > 0
    decreases |es|
  {
    if es != [] {
      var next := MergeEntry(acc, es[0]);
      assert Count(next) >= Count(acc) && Count(next) > 0 by {
        if es[0].0.StrKey? {
          assert HasKey(next, es[0].0);
        }
      }
      MergeAllGrows(next, es[1..]);
    }
  }

  // ------------------------------------------------------------------
  // The served document

  /** `$contents` as a PHP array of string values. */
  function StrValues(c: PArray<string>): (r: PArray<Value>)
    ensures |r.entries| == |c.entries| && r.nextFree == c.nextFree
    ensures forall j :: 0 <= j < |c.entries| ==> r.entries[j] == (c.entries[j].0, Str(c.entries[j].1))
  {
    PArray(seq(|c.entries|, j requires 0 <= j < |c.entries| => (c.entries[j].0, Str(c.entries[j].1))), c.nextFree)
  }

  /** The errors' full messages, in the order they were collected. */
  function Messages(errs: seq<Error>): (ms: seq<Value>)
    ensures |ms| == |errs|
    ensures forall j :: 0 <= j < |errs| ==> ms[j] == Str(errs[j].fullMessage)
  {
    seq(|errs|, j requires 0 <= j < |errs| => Str(errs[j].fullMessage))
  }

  /** Whether `serve` uses the single-source shape: not file mode, and exactly one source. */
  predicate SingleShape(sourceType: Value, sources: PArray<Value>) {
    !FileMode(sourceType) && Count(sources) == 1
  }

  /**
   * The source part of the document: `source` and `content` in the single
   * shape, `sources` and `contents` otherwise.
   */
  function ShapedBody(sourceType: Value, sources: PArray<Value>, contents: PArray<string>): PArray<Value> {
    if SingleShape(sourceType, sources) then
      PArray([(StrKey("source"), Get(sources, IntKey(0)).GetOr(Null)),
              (StrKey("content"), if HasKey(contents, IntKey(0)) then Str(Get(contents, IntKey(0)).value) else Null)], 0)
    else
      PArray([(StrKey("sources"), Arr(sources)), (StrKey("contents"), Arr(StrValues(contents)))], 0)
  }

  /**
   * The document `serve` encodes: the source part, then `errors`, then
   * `dump` when debugging. Both keys are new, so each write appends.
   */
  function ServeBody(sourceType: Value, sources: PArray<Value>, contents: PArray<string>,
                     msgs: seq<Value>, debug: bool, dump: string): PArray<Value>
  {
    PArray(ShapedBody(sourceType, sources, contents).entries
           + [(StrKey("errors"), Arr(ListArray(msgs)))]
           + (if debug then [(StrKey("dump"), Str(dump))] else []), 0)
  }

  /**
   * Outside file mode, a single source is served as `source` and `content`,
   * read at key 0; a missing key 0 reads as null (a masked notice).
   */
  lemma ServeBodySingle(sourceType: Value, sources: PArray<Value>, contents: PArray<string>, msgs: seq<Value>, debug: bool, dump: string)
    requires SingleShape(sourceType, sources)
    ensures var r := ServeBody(sourceType, sources, contents, msgs, debug, dump);
      && Get(r, StrKey("source")) == Some(Get(sources, IntKey(0)).GetOr(Null))
      && Get(r, StrKey("content")) == Some(if HasKey(contents, IntKey(0)) then Str(Get(contents, IntKey(0)).value) else Null)
      && Get(r, StrKey("sources")).None? && Get(r, StrKey("contents")).None?
  {
    var r := ServeBody(sourceType, sources, contents, msgs, debug, dump);
    IndexOfIs(r.entries, StrKey("source"), 0);
    IndexOfIs(r.entries, StrKey("content"), 1);
  }

  /** Otherwise the whole `sources` and `contents` maps are served. */
  lemma ServeBodyList(sourceType: Value, sources: PArray<Value>, contents: PArray<string>, msgs: seq<Value>, debug: bool, dump: string)
    requires !SingleShape(sourceType, sources)
    ensures var r := ServeBody(sourceType, sources, contents, msgs, debug, dump);
      && Get(r, StrKey("sources")) == Some(Arr(sources))
      && Get(r, StrKey("contents")) == Some(Arr(StrValues(contents)))
      && Get(r, StrKey("source")).None? && Get(r, StrKey("content")).None?
  {
    var r := ServeBody(sourceType, sources, contents, msgs, debug, dump);
    IndexOfIs(r.entries, StrKey("sources"), 0);
    IndexOfIs(r.entries, StrKey("contents"), 1);
  }

  /** The document always lists the error messages in order, and carries `dump` exactly when debugging. */
  lemma ServeBodyErrors(sourceType: Value, sources: PArray<Value>, contents: PArray<string>, msgs: seq<Value>, debug: bool, dump: string)
    ensures var r := ServeBody(sourceType, sources, contents, msgs, debug, dump);
      && Get(r, StrKey("errors")) == Some(Arr(ListArray(msgs)))
      && (Get(r, StrKey("dump")).Some? <==> debug)
      && (debug ==> Get(r, StrKey("dump")) == Some(Str(dump)))
  {
    var r := ServeBody(sourceType, sources, contents, msgs, debug, dump);
    IndexOfIs(r.entries, StrKey("errors"), 2);
    if debug {
      IndexOfIs(r.entries, StrKey("dump"), 3);
    }
  }

  /** The response headers after `parse`'s time stamps: Last-Modified always, Date only when not set already. */
  function DateStamped(h: PArray<string>, now: string): (r: PArray<string>)
    ensures Get(r, StrKey("Last-Modified")) == Some(now + " GMT")
    ensures HeaderSet(h, "Date") ==> Get(r, StrKey("Date")) == Get(h, StrKey("Date"))
    ensures !HeaderSet(h, "Date") ==> Get(r, StrKey("Date")) == Some(now + " GMT")
    ensures forall k :: k != StrKey("Last-Modified") && k != StrKey("Date") ==> Get(r, k) == Get(h, k)
    ensures WellFormed(h) ==> WellFormed(r)
  {
    var stamped := Put(h, StrKey("Last-Modified"), now + " GMT");
    if HeaderSet(stamped, "Date") then stamped else Put(stamped, StrKey("Date"), now + " GMT")
  }

  /** The response headers after `parse` succeeds: the ETag and the engine version on top. */
  function ResultStamped(h: PArray<string>, etag: string, version: string): (r: PArray<string>)
    ensures Get(r, StrKey("ETag")) == Some(etag)
    ensures Get(r, StrKey("X-MDE-Version")) == Some(version)
    ensures forall k :: k != StrKey("ETag") && k != StrKey("X-MDE-Version") ==> Get(r, k) == Get(h, k)
    ensures WellFormed(h) ==> WellFormed(r)
  {
    Put(Put(h, StrKey("ETag"), etag), StrKey("X-MDE-Version"), version)
  }

  /** The rendering of one source, given the options, the extract mode and the collaborators. */
  function RenderWith(options: Value, extract: Value, env: Env): Value -> Outcome<string> {
    v => Render(v, options, extract, env)
  }

  function DigestWith(env: Env): Value -> string {
    v => Digest(v, env)
  }

  /** The walk `parse` performs on the current books. */
  function ParseWalk(b: Books, options: Value, extract: Value, fileMode: bool, env: Env): ParseRun
    requires WellFormed(b.contents)
  {
    RunFrom(b, "", b.sources.entries, RenderWith(options, extract, env), DigestWith(env), fileMode)
  }

  /** What `parse` leaves behind: the books, the response headers and the flow. */
  datatype Parsed = Parsed(books: Books, headers: PArray<string>, flow: Flow)

  /**
   * The effect of `parse` given the books, the response headers, the
   * options (or the fault building them threw), the extract mode, the
   * source type's file mode and the collaborators.
   */
  function ParseResult(b: Books, headers: PArray<string>, options: Outcome<Value>, extract: Value, fileMode: bool, env: Env): Parsed
    requires WellFormed(b.contents)
  {
    match options
    case Threw(f) => Parsed(b, DateStamped(headers, env.now), Raised(f))
    case Ok(o) => RenderResult(b, DateStamped(headers, env.now), o, extract, fileMode, env)
  }

  /** The rendering half of `parse`, on time-stamped headers and valid options. */
  function RenderResult(b: Books, stamped: PArray<string>, options: Value, extract: Value, fileMode: bool, env: Env): Parsed
    requires WellFormed(b.contents)
  {
    var run := ParseWalk(b, options, extract, fileMode, env);
    if run.failure.Some? then Parsed(run.books, stamped, Raised(run.failure.value))
    else Parsed(run.books, ResultStamped(stamped, run.etag, env.engineVersion), Continue)
  }

  /**
   * `parse` with valid options on books with no content yet (as after
   * `distribute`): the run succeeds exactly when every source renders; the
   * contents are then the rendered texts in source order, and the headers
   * carry the concatenation of the source digests as ETag and the engine
   * version; otherwise the first fault is raised and the headers only carry
   * the time stamps.
   */
  lemma ParseFromNoContent(sources: PArray<Value>, headers: PArray<string>, options: Value,
                           extract: Value, fileMode: bool, env: Env)
    ensures var p := ParseResult(Books(sources, Empty()), headers, Ok(options), extract, fileMode, env);
      var all := RenderAll(sources.entries, RenderWith(options, extract, env));
      && (all.Threw? ==> p.flow == Raised(all.fault) && p.headers == DateStamped(headers, env.now))
      && (all.Ok? ==>
            && p.flow == Continue
            && p.books.contents == ListArray(all.value)
            && p.headers == ResultStamped(DateStamped(headers, env.now), Digests(sources.entries, DigestWith(env)), env.engineVersion))
  {
    var b := Books(sources, Empty());
    WalkFromNoContent(sources, options, extract, fileMode, env);
    assert ParseResult(b, headers, Ok(options), extract, fileMode, env)
        == RenderResult(b, DateStamped(headers, env.now), options, extract, fileMode, env);
  }

  /** The walk of `parse` from no contents, in terms of the texts and the digests of all sources. */
  lemma WalkFromNoContent(sources: PArray<Value>, options: Value, extract: Value, fileMode: bool, env: Env)
    ensures var run := ParseWalk(Books(sources, Empty()), options, extract, fileMode, env);
      var all := RenderAll(sources.entries, RenderWith(options, extract, env));
      && (all.Threw? ==> run.failure == Some(all.fault))
      && (all.Ok? ==>
            && run.failure.None? && run.books.contents == ListArray(all.value)
            && run.etag == Digests(sources.entries, DigestWith(env)))
  {
    var render := RenderWith(options, extract, env);
    var digest := DigestWith(env);
    assert Empty<string>() == ListArray([]);
    RunAppendsOneTextPerSource([], sources, "", sources.entries, render, digest, fileMode);
    var all := RenderAll(sources.entries, render);
    if all.Ok? {
      assert [] + all.value == all.value;
      assert "" + Digests(sources.entries, digest) == Digests(sources.entries, digest);
    }
  }

  class Controller {
    const request: Request
    const response: Response
    var sourceType: Value
    var sources: PArray<Value>
    var contents: PArray<string>
    var errors: seq<Error>
    var debug: bool
    /** The process's default time zone, set by `date_default_timezone_set`. */
    var timeZone: string

    ghost predicate Valid()
      reads this, request, response
    {
      && WellFormed(sources) && WellFormed(contents)
      && request.Valid() && response.Valid() && response.StatusMirrored()
    }

    /** A fresh controller over a fresh request and response; the environment's default zone is UTC. */
    constructor(verb: string)
      ensures Valid()
      ensures fresh(request) && fresh(response)
      ensures request.verb == verb && request.data == Empty() && request.files == Empty() && request.headers == Empty()
      ensures response.status.None? && response.headers == Empty() && !response.sent
      ensures sourceType == Null && sources == Empty() && contents == ListArray([]) && errors == []
      ensures !debug && timeZone == "UTC"
    {
      request := new Request(verb);
      response := new Response();
      sourceType := Null;
      sources := Empty();
      contents := ListArray([]);
      errors := [];
      debug := false;
      timeZone := "UTC";
    }

    method AddError(e: Error)
      modifies this
      ensures errors == old(errors) + [e]
      ensures sourceType == old(sourceType) && sources == old(sources) && contents == old(contents)
      ensures debug == old(debug) && timeZone == old(timeZone)
    {
      errors := errors + [e];
    }

    /** A non-fatal error: collected with its status, and the request goes on. */
    method Warning(message: string, status: string)
      modifies this
      ensures errors == old(errors) + [Plain(message, status)]
      ensures sourceType == old(sourceType) && sources == old(sources) && contents == old(contents)
      ensures debug == old(debug) && timeZone == old(timeZone)
    {
      AddError(Plain(message, status));
    }

    /** `$this->contents[] = $text` (or `[$index] = $text`), returning the key written. */
    method AddContent(text: string, index: Option<Key>) returns (k: Key)
      requires WellFormed(contents)
      modifies this
      ensures WellFormed(contents)
      ensures index.None? ==> k == NextKey(old(contents)) && contents == Append(old(contents), text)
      ensures index.Some? ==> k == index.value && contents == Put(old(contents), k, text)
      ensures sourceType == old(sourceType) && sources == old(sources) && errors == old(errors)
      ensures debug == old(debug) && timeZone == old(timeZone)
    {
      if index.Some? {
        k := index.value;
        contents := Put(contents, k, text);
      } else {
        k := NextKey(contents);
        NextKeyIsFree(contents);
        contents := Append(contents, text);
      }
    }

    /** Writes one content and touches no other key. */
    method SetContent(k: Key, text: string)
      requires WellFormed(contents)
      modifies this
      ensures WellFormed(contents)
      ensures contents == Put(old(contents), k, text)
      ensures sourceType == old(sourceType) && sources == old(sources) && errors == old(errors)
      ensures debug == old(debug) && timeZone == old(timeZone)
    {
      contents := Put(contents, k, text);
    }

    /** `$this->sources[] = $v` (or `[$index] = $v`), returning the key written. */
    method AddSource(v: Value, index: Option<Key>) returns (k: Key)
      requires WellFormed(sources)
      modifies this
      ensures WellFormed(sources)
      ensures index.None? ==> k == NextKey(old(sources)) && sources == Append(old(sources), v)
      ensures index.Some? ==> k == index.value && sources == Put(old(sources), k, v)
      ensures sourceType == old(sourceType) && contents == old(contents) && errors == old(errors)
      ensures debug == old(debug) && timeZone == old(timeZone)
    {
      if index.Some? {
        k := index.value;
        sources := Put(sources, k, v);
      } else {
        k := NextKey(sources);
        NextKeyIsFree(sources);
        sources := Append(sources, v);
      }
    }

    /** Writes one source and touches no other key. */
    method SetSource(k: Key, v: Value)
      requires WellFormed(sources)
      modifies this
      ensures WellFormed(sources)
      ensures sources == Put(old(sources), k, v)
      ensures sourceType == old(sourceType) && contents == old(contents) && errors == old(errors)
      ensures debug == old(debug) && timeZone == old(timeZone)
    {
      sources := Put(sources, k, v);
    }

    /** Removes one source and touches no other key. */
    method UnsetSource(k: Key)
      requires WellFormed(sources)
      modifies this
      ensures WellFormed(sources)
      ensures sources == Remove(old(sources), k)
      ensures sourceType == old(sourceType) && contents == old(contents) && errors == old(errors)
      ensures debug == old(debug) && timeZone == old(timeZone)
    {
      sources := Remove(sources, k);
    }

    /** Replaces the whole source map. */
    method SetSources(a: PArray<Value>)
      requires WellFormed(a)
      modifies this
      ensures sources == a
      ensures sourceType == old(sourceType) && contents == old(contents) && errors == old(errors)
      ensures debug == old(debug) && timeZone == old(timeZone)
    {
      sources := a;
    }

    method SetSourceType(v: Value)
      modifies this
      ensures sourceType == v
      ensures sources == old(sources) && contents == old(contents) && errors == old(errors)
      ensures debug == old(debug) && timeZone == old(timeZone)
    {
      sourceType := v;
    }

    method SetDebug(v: Value)
      modifies this
      ensures debug == DebugFlag(v)
      ensures sourceType == old(sourceType) && sources == old(sources) && contents == old(contents)
      ensures errors == old(errors) && timeZone == old(timeZone)
    {
      if v.Str? {
        debug := v.s == "true" || v.s == "1";
      } else {
        debug := Truthy(v);
      }
    }

    predicate IsDebug()
      reads this
    {
      debug
    }

    /** The loop collecting the errors' full messages, in order. */
    method ErrorMessages() returns (msgs: seq<Value>)
      ensures msgs == Messages(errors)
    {
      msgs := [];
      for i := 0 to |errors|
        invariant msgs == Messages(errors[..i])
      {
        assert errors[..i + 1] == errors[..i] + [errors[i]];
        msgs := msgs + [Str(errors[i].fullMessage)];
      }
      assert errors[..|errors|] == errors;
    }

    /**
     * Encodes and sends the document; the process then exits. Only an
     * encoding failure comes back, as the exception it throws.
     */
    method Serve(env: Env) returns (flow: Flow)
      requires Valid() && !response.sent
      modifies response
      ensures Valid()
      ensures flow != Continue
      ensures flow == Served <==> response.sent
      ensures var out := env.jsonEncode(Arr(ServeBody(sourceType, sources, contents, Messages(errors), debug, env.dump)));
        && (out.Encoded? ==>
              && flow == Served && response.content == Some(out.json)
              && response.status == (if old(response.status).Some? then old(response.status) else Some(STATUS_OK)))
        && (out.EncodeError? ==>
              && flow == Raised(EncodeFault(out.code)) && response.content == old(response.content)
              && response.status == old(response.status) && response.headers == old(response.headers))
    {
      var msgs := ErrorMessages();
      var body := ServeBody(sourceType, sources, contents, msgs, debug, env.dump);
      ghost var books := Books(sources, contents);
      assert WellFormed(books.sources) && WellFormed(books.contents) && request.Valid();
      var thrown := response.Send(Arr(body), env.jsonEncode);
      assert books == Books(sources, contents);
      if thrown.Some? {
        flow := Raised(thrown.value);
      } else {
        flow := Served;
      }
    }

    /**
     * A fatal error: collected, the status set, and served at once unless
     * the status is 200 OK. An unknown status throws from `setStatus`.
     */
    method Error(message: string, status: string, env: Env) returns (flow: Flow)
      requires Valid() && !response.sent
      modifies this, response
      ensures Valid()
      ensures errors == old(errors) + [Plain(message, status)]
      ensures sourceType == old(sourceType) && sources == old(sources) && contents == old(contents)
      ensures debug == old(debug) && timeZone == old(timeZone)
      ensures flow == Served <==> response.sent
      ensures !IsKnownStatus(status) ==>
        flow == Raised(UnknownStatusFault(status)) && response.status == old(response.status)
      ensures status == STATUS_OK ==> flow == Continue && response.status == Some(STATUS_OK)
      ensures IsKnownStatus(status) && status != STATUS_OK ==> response.status == Some(status) && flow != Continue
    {
      AddError(Plain(message, status));
      var thrown := response.SetStatus(status);
      if thrown.Some? {
        return Raised(thrown.value);
      }
      if !response.IsStatus(STATUS_OK) {
        flow := Serve(env);
      } else {
        flow := Continue;
      }
    }

    /** The method check of `distribute`: anything but get, post and head is refused with a 405. */
    method CheckMethod(env: Env) returns (flow: Flow)
      requires Valid() && !response.sent
      modifies this, response
      ensures Valid()
      ensures flow == Served <==> response.sent
      ensures sourceType == old(sourceType) && sources == old(sources) && contents == old(contents)
      ensures debug == old(debug) && timeZone == old(timeZone)
      ensures MethodAllowed(request.verb) ==> flow == Continue && errors == old(errors) && response.status == old(response.status)
      ensures !MethodAllowed(request.verb) ==>
        && errors == old(errors) + [Plain(NotAllowedMessage(request.verb), STATUS_METHOD_NOT_ALLOWED)]
        && response.status == Some(STATUS_METHOD_NOT_ALLOWED)
        && flow != Continue
    {
      if !request.IsMethod("get") && !request.IsMethod("post") && !request.IsMethod("head") {
        flow := Error(NotAllowedMessage(request.GetMethod()), STATUS_METHOD_NOT_ALLOWED, env);
      } else {
        flow := Continue;
      }
    }

    /** The loop over the request headers. */
    method ScanHeaders(env: Env)
      requires Valid()
      modifies this
      ensures Valid()
      ensures HeaderScan(timeZone, errors) == ScanFrom(old(timeZone), old(errors), request.headers.entries, env.isTimeZone)
      ensures sourceType == old(sourceType) && sources == old(sources) && contents == old(contents) && debug == old(debug)
    {
      var rest := request.headers.entries;
      while rest != []
        invariant Valid()
        invariant ScanFrom(timeZone, errors, rest, env.isTimeZone)
               == ScanFrom(old(timeZone), old(errors), request.headers.entries, env.isTimeZone)
        invariant sourceType == old(sourceType) && sources == old(sources) && contents == old(contents) && debug == old(debug)
      {
        var name := rest[0].0;
        var value := rest[0].1;
        if IsTimeZoneKey(name) {
          if env.isTimeZone(value) {
            timeZone := value;
          } else {
            Warning("The \"" + value + "\" timezone defined is not valid!", STATUS_OK);
          }
        }
        rest := rest[1..];
      }
    }

    /** The loop adding each uploaded file's text as a source under the file's name. */
    method CollectFiles(env: Env) returns (flow: Flow)
      requires Valid()
      modifies this
      ensures Valid()
      ensures var c := CollectFrom(old(sources), request.files.entries, env.readFile);
        && sources == c.sources
        && (c.failure.None? ==> flow == Continue)
        && (c.failure.Some? ==> flow == Raised(c.failure.value))
      ensures sourceType == old(sourceType) && contents == old(contents) && errors == old(errors)
      ensures debug == old(debug) && timeZone == old(timeZone)
    {
      var rest := request.files.entries;
      while rest != []
        invariant Valid()
        invariant CollectFrom(sources, rest, env.readFile) == CollectFrom(old(sources), request.files.entries, env.readFile)
        invariant sourceType == old(sourceType) && contents == old(contents) && errors == old(errors)
        invariant debug == old(debug) && timeZone == old(timeZone)
      {
        var name := rest[0].0;
        var path := rest[0].1;
        var text := env.readFile(path);
        if text.None? {
          return Raised(ReadFault(path));
        }
        var _ := AddSource(Str(text.value), Some(name));
        rest := rest[1..];
      }
      flow := Continue;
    }

    /**
     * The end of `distribute`'s reading: with no `source`, no `sources` and
     * no source yet, the request is answered with a warning; otherwise the
     * inline fields are added to the sources.
     */
    method GatherSources(env: Env) returns (flow: Flow)
      requires Valid() && !response.sent
      modifies this, response
      ensures Valid()
      ensures flow == Served <==> response.sent
      ensures sourceType == old(sourceType) && contents == old(contents)
      ensures debug == old(debug) && timeZone == old(timeZone)
      ensures var source := request.GetData("source", Null);
        var srcs := request.GetData("sources", Null);
        && (IsEmpty(source) && IsEmpty(srcs) && Count(old(sources)) == 0 ==>
              && errors == old(errors) + [Plain(NO_SOURCE_MESSAGE, STATUS_OK)]
              && sources == old(sources) && flow != Continue)
        && (!(IsEmpty(source) && IsEmpty(srcs) && Count(old(sources)) == 0) && !IsEmpty(srcs) && !srcs.Arr? ==>
              flow == Raised(ArrayMergeFault()) && sources == old(sources) && errors == old(errors))
        && (!(IsEmpty(source) && IsEmpty(srcs) && Count(old(sources)) == 0) && (IsEmpty(srcs) || srcs.Arr?) ==>
              flow == Continue && sources == Gathered(old(sources), source, srcs) && errors == old(errors))
      ensures flow == Continue ==> Count(sources) > 0
    {
      var source := request.GetData("source", Null);
      var srcs := request.GetData("sources", Null);
      if IsEmpty(source) && IsEmpty(srcs) && Count(sources) == 0 {
        Warning(NO_SOURCE_MESSAGE, STATUS_OK);
        flow := Serve(env);
        return;
      }
      if !IsEmpty(srcs) {
        if !srcs.Arr? {
          return Raised(ArrayMergeFault());
        }
        SetSources(Merge(sources, srcs.a));
      }
      if !IsEmpty(source) {
        var _ := AddSource(source, None);
      }
      flow := Continue;
    }

    /**
     * `distribute`: reads the request, refuses other methods, applies the
     * headers, takes in the uploaded files and the inline sources, sets the
     * debug flag and checks that the engine is there. Each step that ends
     * the request (served or thrown) ends it here.
     */
    method Distribute(input: RequestInput, env: Env) returns (flow: Flow)
      requires Valid() && !response.sent
      modifies this, request, response
      ensures Valid()
      ensures flow == Served <==> response.sent
      ensures request.headers == input.headers && request.verb == old(request.verb) && contents == old(contents)
      ensures ReadData(old(request.verb), input, env).Threw? ==>
        flow == Raised(ReadData(old(request.verb), input, env).fault)
        && sources == old(sources) && errors == old(errors) && !response.sent
      ensures ReadData(old(request.verb), input, env).Ok? && Register(old(request.files), input.uploads, env).failure.None?
              && !MethodAllowed(request.verb) ==>
        && errors == old(errors) + [Plain(NotAllowedMessage(request.verb), STATUS_METHOD_NOT_ALLOWED)]
        && response.status == Some(STATUS_METHOD_NOT_ALLOWED)
        && flow != Continue
      ensures ReadData(old(request.verb), input, env).Ok? && Register(old(request.files), input.uploads, env).failure.Some? ==>
        flow == Raised(Register(old(request.files), input.uploads, env).failure.value)
        && sources == old(sources) && errors == old(errors) && !response.sent
      ensures flow == Continue ==>
        && MethodAllowed(request.verb) && env.engineAvailable && Count(sources) > 0
        && sourceType == request.GetData("source_type", Str("data_input"))
        && debug == DebugFlag(request.GetData("debug", Bool(false)))
        && HeaderScan(timeZone, errors) == ScanFrom(old(timeZone), old(errors), input.headers.entries, env.isTimeZone)
      ensures flow == Continue ==>
        && ReadData(old(request.verb), input, env).Ok?
        && request.data == ReadData(old(request.verb), input, env).value
        && request.files == Register(old(request.files), input.uploads, env).files
      ensures var srcs := request.GetData("sources", Null);
        flow == Continue ==>
          && (IsEmpty(srcs) || srcs.Arr?)
          && sources == Taken(old(sources), FileMode(sourceType), request.files, env.readFile, request.GetData("source", Null), srcs)
    {
      flow := Admit(input, env);
      if flow != Continue {
        return;
      }
      flow := TakeSources(env);
    }

    /**
     * The first half of `distribute`: read the request, refuse the methods
     * other than GET, POST and HEAD, and apply the request headers.
     */
    method Admit(input: RequestInput, env: Env) returns (flow: Flow)
      requires Valid() && !response.sent
      modifies this, request, response
      ensures Valid()
      ensures flow == Served <==> response.sent
      ensures request.headers == input.headers && request.verb == old(request.verb)
      ensures sourceType == old(sourceType) && sources == old(sources) && contents == old(contents) && debug == old(debug)
      ensures ReadData(old(request.verb), input, env).Threw? ==>
        flow == Raised(ReadData(old(request.verb), input, env).fault) && errors == old(errors)
      ensures ReadData(old(request.verb), input, env).Ok? && Register(old(request.files), input.uploads, env).failure.None?
              && !MethodAllowed(request.verb) ==>
        && errors == old(errors) + [Plain(NotAllowedMessage(request.verb), STATUS_METHOD_NOT_ALLOWED)]
        && response.status == Some(STATUS_METHOD_NOT_ALLOWED)
        && flow != Continue
      ensures ReadData(old(request.verb), input, env).Ok? ==>
        && request.data == ReadData(old(request.verb), input, env).value
        && request.files == Register(old(request.files), input.uploads, env).files
      ensures ReadData(old(request.verb), input, env).Ok? && Register(old(request.files), input.uploads, env).failure.Some? ==>
        flow == Raised(Register(old(request.files), input.uploads, env).failure.value) && errors == old(errors)
      ensures flow == Continue ==>
        && MethodAllowed(request.verb)
        && HeaderScan(timeZone, errors) == ScanFrom(old(timeZone), old(errors), input.headers.entries, env.isTimeZone)
    {
      var thrown := request.Parse(input, env);
      if thrown.Some? {
        return Raised(thrown.value);
      }
      flow := CheckMethod(env);
      if flow != Continue {
        return;
      }
      ScanHeaders(env);
    }

    /**
     * The second half of `distribute`: the source type, the uploaded files
     * in file mode, the inline sources, the debug flag and the engine check.
     */
    method TakeSources(env: Env) returns (flow: Flow)
      requires Valid() && !response.sent
      modifies this, response
      ensures Valid()
      ensures flow == Served <==> response.sent
      ensures sourceType == request.GetData("source_type", Str("data_input")) && contents == old(contents)
      ensures FileMode(sourceType) && CollectFrom(old(sources), request.files.entries, env.readFile).failure.Some? ==>
        flow == Raised(CollectFrom(old(sources), request.files.entries, env.readFile).failure.value) && errors == old(errors)
      ensures flow == Continue ==>
        && env.engineAvailable && Count(sources) > 0
        && debug == DebugFlag(request.GetData("debug", Bool(false)))
        && errors == old(errors) && timeZone == old(timeZone)
      ensures var srcs := request.GetData("sources", Null);
        flow == Continue ==>
          && (IsEmpty(srcs) || srcs.Arr?)
          && sources == Taken(old(sources), FileMode(sourceType), request.files, env.readFile, request.GetData("source", Null), srcs)
    {
      SetSourceType(request.GetData("source_type", Str("data_input")));
      if FileMode(sourceType) {
        flow := CollectFiles(env);
        if flow != Continue {
          return;
        }
      }
      flow := GatherSources(env);
      if flow != Continue {
        return;
      }
      SetDebug(request.GetData("debug", Bool(false)));
      if !env.engineAvailable {
        flow := Error(NO_ENGINE_MESSAGE, STATUS_ERROR, env);
        return;
      }
    }

    /**
     * `parse`: stamps the response with Last-Modified (and Date when unset),
     * renders every source in order into `contents` while reconciling the
     * source keys, then sets the ETag and the engine version headers.
     */
    method Parse(env: Env) returns (flow: Flow)
      requires Valid()
      modifies this, response
      ensures Valid()
      ensures flow != Served
      ensures response.status == old(response.status) && response.sent == old(response.sent)
      ensures response.content == old(response.content)
      ensures errors == old(errors) && sourceType == old(sourceType) && debug == old(debug) && timeZone == old(timeZone)
      ensures Parsed(Books(sources, contents), response.headers, flow)
           == ParseResult(Books(old(sources), old(contents)), old(response.headers),
                          WithFormat(request.GetData("options", Arr(Empty())), request.GetData("format", Null)),
                          request.GetData("extract", Str("full")), FileMode(sourceType), env)
    {
      ghost var books := Books(sources, contents);
      assert WellFormed(books.contents);
      StampDates(env.now);
      var options := WithFormat(request.GetData("options", Arr(Empty())), request.GetData("format", Null));
      var extract := request.GetData("extract", Str("full"));
      if options.Threw? {
        assert Books(sources, contents) == books;
        return Raised(options.fault);
      }
      flow := RenderSources(options.value, extract, env);
    }

    /** The rendering half of `parse`: the walk over the sources, then the result headers. */
    method RenderSources(options: Value, extract: Value, env: Env) returns (flow: Flow)
      requires Valid()
      modifies this, response
      ensures Valid()
      ensures response.status == old(response.status) && response.sent == old(response.sent)
      ensures response.content == old(response.content)
      ensures errors == old(errors) && sourceType == old(sourceType) && debug == old(debug) && timeZone == old(timeZone)
      ensures var run := ParseWalk(Books(old(sources), old(contents)), options, extract, FileMode(sourceType), env);
        && Books(sources, contents) == run.books
        && (run.failure.Some? ==> flow == Raised(run.failure.value) && response.headers == old(response.headers))
        && (run.failure.None? ==> flow == Continue && response.headers == ResultStamped(old(response.headers), run.etag, env.engineVersion))
    {
      var etag;
      flow, etag := Walk(RenderWith(options, extract, env), DigestWith(env));
      if flow.Raised? {
        return;
      }
      StampResult(etag, env.engineVersion);
    }

    /** The time stamps of `parse`: Last-Modified, and Date unless already set. */
    method StampDates(now: string)
      requires Valid()
      modifies response
      ensures Valid()
      ensures response.headers == DateStamped(old(response.headers), now)
      ensures response.status == old(response.status) && response.content == old(response.content)
      ensures response.sent == old(response.sent)
    {
      response.SetHeader("Last-Modified", now + " GMT");
      if !response.HasHeader("Date") {
        response.SetHeader("Date", now + " GMT");
      }
    }

    /** The result headers of a successful `parse`: the ETag and the engine version. */
    method StampResult(etag: string, version: string)
      requires Valid()
      modifies response
      ensures Valid()
      ensures response.headers == ResultStamped(old(response.headers), etag, version)
      ensures response.status == old(response.status) && response.content == old(response.content)
      ensures response.sent == old(response.sent)
    {
      response.SetHeader("ETag", etag);
      response.SetHeader("X-MDE-Version", version);
    }

    /**
     * The loop of `parse` over a snapshot of the sources: render, extend the
     * ETag, and settle the content and the source key. The rendering and the
     * digest are those `parse` uses (`RenderWith`, `DigestWith`).
     */
    method Walk(render: Value -> Outcome<string>, digest: Value -> string) returns (flow: Flow, etag: string)
      requires WellFormed(sources) && WellFormed(contents)
      modifies this
      ensures WellFormed(sources) && WellFormed(contents)
      ensures var run := RunFrom(Books(old(sources), old(contents)), "", old(sources).entries, render, digest, FileMode(sourceType));
        && sources == run.books.sources && contents == run.books.contents
        && (run.failure.Some? ==> flow == Raised(run.failure.value))
        && (run.failure.None? ==> flow == Continue && etag == run.etag)
      ensures errors == old(errors) && sourceType == old(sourceType) && debug == old(debug) && timeZone == old(timeZone)
    {
      var snapshot := sources.entries;
      var fileMode := FileMode(sourceType);
      etag := "";
      var rest := snapshot;
      while rest != []
        invariant WellFormed(sources) && WellFormed(contents)
        invariant RunFrom(Books(sources, contents), etag, rest, render, digest, fileMode)
               == RunFrom(Books(old(sources), old(contents)), "", snapshot, render, digest, fileMode)
        invariant errors == old(errors) && sourceType == old(sourceType) && debug == old(debug) && timeZone == old(timeZone)
      {
        var text := render(rest[0].1);
        if text.Threw? {
          return Raised(text.fault), etag;
        }
        etag := etag + digest(rest[0].1);
        Settle(rest[0].0, rest[0].1, text.value, fileMode);
        rest := rest[1..];
      }
      flow := Continue;
    }

    /**
     * One source's bookkeeping in `parse`: append its content, and when the
     * content's key differs from the source's, unset the source and set it
     * again (its file name in file mode) under the content's key.
     */
    method Settle(index: Key, source: Value, text: string, fileMode: bool)
      requires WellFormed(sources) && WellFormed(contents)
      modifies this
      ensures WellFormed(sources) && WellFormed(contents)
      ensures Books(sources, contents) == Reconcile(Books(old(sources), old(contents)), index, source, text, fileMode)
      ensures errors == old(errors) && sourceType == old(sourceType) && debug == old(debug) && timeZone == old(timeZone)
    {
      var contentIndex := AddContent(text, None);
      var value := source;
      if fileMode && index.StrKey? {
        value := Str(index.s);
      }
      if contentIndex != index {
        UnsetSource(index);
        SetSource(contentIndex, value);
      }
    }
  }
}
