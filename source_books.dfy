/**
 * The controller's two ordered maps and what the parse stage does to them.
 *
 * `sources` holds the Markdown sources of the request (inline `source` /
 * `sources` fields or uploaded files, keyed by position or file name);
 * `contents` holds one rendered text per source. The parse stage walks a
 * snapshot of the sources in order, appends each rendered text to
 * `contents`, and when the key the text landed under differs from the
 * source's key, moves the source to that key (in file mode replacing it by
 * its file name). This module states that walk as functions on values; the
 * controller's loop is proved equal to it.
 */
module SourceBooks {
  import opened Wrappers
  import opened PhpArrays
  import opened PhpValues
  import opened Exceptions
  import opened Externals
  import opened Helper

  const CONTROLLER_FILE := "src/MdeService/Controller.php"
  const PHP_EOL := "\n"

  /** The controller's `sources` and `contents` at one moment. */
  datatype Books = Books(sources: PArray<Value>, contents: PArray<string>)

  /** The keys of an ordered array are 0, 1, ... in order. */
  ghost predicate ListKeyed<V>(a: PArray<V>) {
    forall j :: 0 <= j < |a.entries| ==> a.entries[j].0 == IntKey(j)
  }

  /**
   * The `options` handed to the engine once a non-empty `format` has been
   * written into `options['output_format']`. An array gets the entry; null,
   * false and "" silently become a fresh array; any other scalar raises a
   * PHP warning.
   */
  function WithFormat(options: Value, format: Value): (r: Outcome<Value>)
    ensures IsEmpty(format) ==> r == Ok(options)
    ensures !IsEmpty(format) && options.Arr? ==> r == Ok(Arr(Put(options.a, StrKey("output_format"), format)))
    ensures r.Ok? && !IsEmpty(format) ==>
      r.value.Arr? && Get(r.value.a, StrKey("output_format")) == Some(format)
    ensures r.Threw? <==> !IsEmpty(format) && !options.Arr? && options != Null && options != Bool(false) && options != Str("")
  {
    if IsEmpty(format) then Ok(options)
    else match options
      case Arr(a) => Ok(Arr(Put(a, StrKey("output_format"), format)))
      case Null => Ok(Arr(Put(Empty(), StrKey("output_format"), format)))
      case Bool(false) => Ok(Arr(Put(Empty(), StrKey("output_format"), format)))
      case Str("") => Ok(Arr(Put(Empty(), StrKey("output_format"), format)))
      case _ => Threw(PhpError("Cannot use a scalar value as an array", CONTROLLER_FILE, 196))
  }

  /**
   * The text kept from a rendered source. `switch ($extract)` compares
   * loosely, case by case in the order metadata, body, notes; anything else
   * (including 'full') yields the three sections separated by end-of-lines.
   */
  function ExtractText(s: Sections, extract: Value): string {
    if LooseEqualsWord(extract, "metadata") then s.metadata
    else if LooseEqualsWord(extract, "body") then s.body
    else if LooseEqualsWord(extract, "notes") then s.notes
    else s.metadata + PHP_EOL + s.body + PHP_EOL + s.notes
  }

  /** On a string `extract`, each section name selects exactly that section and every other string the full text. */
  lemma ExtractOnStrings(s: Sections, x: string)
    ensures x == "metadata" ==> ExtractText(s, Str(x)) == s.metadata
    ensures x == "body" ==> ExtractText(s, Str(x)) == s.body
    ensures x == "notes" ==> ExtractText(s, Str(x)) == s.notes
    ensures x != "metadata" && x != "body" && x != "notes" ==>
      ExtractText(s, Str(x)) == s.metadata + PHP_EOL + s.body + PHP_EOL + s.notes
  {
  }

  /** PHP 5's loose switch: `true` and `0` match the first case, so they extract the metadata. */
  lemma ExtractLooseMatches(s: Sections)
    ensures ExtractText(s, Bool(true)) == s.metadata
    ensures ExtractText(s, Int(0)) == s.metadata
    ensures ExtractText(s, Null) == s.metadata + PHP_EOL + s.body + PHP_EOL + s.notes
  {
  }

  function Md5Fault(): Fault {
    PhpError("md5() expects parameter 1 to be string, array given", CONTROLLER_FILE, 201)
  }

  function OptionsTypeFault(): Fault {
    PhpError("Argument 2 passed to MdeService\\Helper::parseMdeSource() must be of the type array", HELPER_FILE, 95)
  }

  /**
   * One source through the loop body up to the extracted text: `md5` must
   * accept it, `parseMdeSource` must accept the options (an `array` type
   * hint), then the engine renders it.
   */
  function Render(v: Value, options: Value, extract: Value, env: Env): (r: Outcome<string>)
    ensures v.Arr? ==> r == Threw(Md5Fault())
    ensures !v.Arr? && !options.Arr? ==> r == Threw(OptionsTypeFault())
    ensures !v.Arr? && options.Arr? ==>
      var e := ParseMdeSource(v, options.a, env);
      && (r.Ok? <==> e.Transformed?)
      && (r.Ok? ==> r.value == ExtractText(e.sections, extract))
      && (r.Threw? ==> r.fault == e.fault)
  {
    if v.Arr? then Threw(Md5Fault())
    else if !options.Arr? then Threw(OptionsTypeFault())
    else match ParseMdeSource(v, options.a, env)
      case EngineFailed(f) => Threw(f)
      case Transformed(s) => Ok(ExtractText(s, extract))
  }

  /** An empty scalar source never reaches the engine: it renders the empty content's sections. */
  lemma RenderEmptySource(v: Value, options: PArray<Value>, extract: Value, env: Env)
    requires !v.Arr? && IsEmpty(v)
    ensures Render(v, Arr(options), extract, env) == Ok(ExtractText(env.emptyContent, extract))
  {
  }

  /** `md5($source)` of a scalar source. */
  function Digest(v: Value, env: Env): string {
    env.md5(ToPhpString(v).GetOr(""))
  }

  /** The digests of the sources, concatenated in iteration order. */
  function Digests(es: seq<(Key, Value)>, digest: Value -> string): string
    decreases |es|
  {
    if es == [] then "" else digest(es[0].1) + Digests(es[1..], digest)
  }

  /**
   * The ETag of consecutive runs of sources is the concatenation of their
   * ETags: every source contributes its digest once per occurrence, in order.
   */
  lemma {:induction false} DigestsConcat(es: seq<(Key, Value)>, fs: seq<(Key, Value)>, digest: Value -> string)
    ensures Digests(es + fs, digest) == Digests(es, digest) + Digests(fs, digest)
    decreases |es|
  {
    if es == [] {
      assert es + fs == fs;
    } else {
      assert (es + fs)[1..] == es[1..] + fs;
      DigestsConcat(es[1..], fs, digest);
    }
  }

  /** `$this->getSourceType() == 'file'`, under PHP 5's loose comparison. */
  predicate FileMode(sourceType: Value) {
    LooseEqualsWord(sourceType, "file")
  }

  /** The source value stored when it moves: in file mode a file-name key replaces the file's text. */
  function Relabel(k: Key, v: Value, fileMode: bool): Value {
    if fileMode && k.StrKey? then Str(k.s) else v
  }

  /**
   * One loop step after rendering: the text is appended to `contents`; when
   * the key it got differs from the source's key, the source is unset and
   * written again under the content's key, overwriting whatever was there.
   */
  function Reconcile(b: Books, k: Key, v: Value, text: string, fileMode: bool): (r: Books)
    requires WellFormed(b.contents)
    ensures r.contents == Append(b.contents, text)
    ensures WellFormed(b.sources) ==> WellFormed(r.sources)
  {
    var ck := NextKey(b.contents);
    var moved := if ck == k then b.sources else Put(Remove(b.sources, k), ck, Relabel(k, v, fileMode));
    Books(moved, Append(b.contents, text))
  }

  /**
   * What one step does to `sources`: nothing when the keys agree; otherwise
   * the source's key is gone, the content's key holds the (relabelled)
   * source, and every other key is as it was.
   */
  lemma ReconcileMoves(b: Books, k: Key, v: Value, text: string, fileMode: bool)
    requires WellFormed(b.contents)
    ensures var r := Reconcile(b, k, v, text, fileMode);
      && (NextKey(b.contents) == k ==> r.sources == b.sources)
      && (NextKey(b.contents) != k ==>
        && !HasKey(r.sources, k)
        && Get(r.sources, NextKey(b.contents)) == Some(Relabel(k, v, fileMode))
        && (forall k' :: k' != k && k' != NextKey(b.contents) ==> Get(r.sources, k') == Get(b.sources, k')))
  {
  }

  /** Where a parse walk ended: the books, the ETag built so far, and the fault that stopped it, if any. */
  datatype ParseRun = ParseRun(books: Books, etag: string, failure: Option<Fault>)

  /**
   * The parse loop over the remaining snapshot entries `es`: render each
   * source, extend the ETag, reconcile the books; the first failure stops
   * the walk with the books as they were before that source.
   */
  function RunFrom(b: Books, etag: string, es: seq<(Key, Value)>, render: Value -> Outcome<string>, digest: Value -> string, fileMode: bool): (r: ParseRun)
    requires WellFormed(b.contents)
    ensures WellFormed(r.books.contents)
    ensures WellFormed(b.sources) ==> WellFormed(r.books.sources)
    decreases |es|
  {
    if es == [] then ParseRun(b, etag, None)
    else match render(es[0].1)
      case Threw(f) => ParseRun(b, etag, Some(f))
      case Ok(text) =>
        RunFrom(Reconcile(b, es[0].0, es[0].1, text, fileMode), etag + digest(es[0].1), es[1..], render, digest, fileMode)
  }

  /** The texts of all sources, or the first fault. */
  function RenderAll(es: seq<(Key, Value)>, render: Value -> Outcome<string>): (r: Outcome<seq<string>>)
    ensures r.Ok? ==> |r.value| == |es|
    ensures r.Ok? ==> forall j :: 0 <= j < |es| ==> render(es[j].1) == Ok(r.value[j])
    ensures r.Threw? ==> exists j :: 0 <= j < |es| && render(es[j].1) == Threw(r.fault)
    decreases |es|
  {
    if es == [] then Ok([])
    else match render(es[0].1)
      case Threw(f) => Threw(f)
      case Ok(t) =>
        match RenderAll(es[1..], render)
        case Threw(f) => Threw(f)
        case Ok(ts) => Ok([t] + ts)
  }

  /**
   * Starting from list-keyed contents, the walk appends exactly one text per
   * source, in source order, and the ETag gains every source's digest in
   * order; it fails exactly when some source fails, with the first fault.
   */
  lemma {:induction false} RunAppendsOneTextPerSource(cs: seq<string>, sources: PArray<Value>, etag: string,
                                                      es: seq<(Key, Value)>, render: Value -> Outcome<string>, digest: Value -> string, fileMode: bool)
    ensures WellFormed(ListArray(cs))
    ensures var run := RunFrom(Books(sources, ListArray(cs)), etag, es, render, digest, fileMode);
      var all := RenderAll(es, render);
      && (run.failure.None? <==> all.Ok?)
      && (all.Threw? ==> run.failure == Some(all.fault))
      && (all.Ok? ==> run.books.contents == ListArray(cs + all.value) && run.etag == etag + Digests(es, digest))
    decreases |es|
  {
    ListArrayWellFormed(cs);
    if es != [] {
      match render(es[0].1)
      case Threw(f) =>
      case Ok(t) =>
        var b' := Reconcile(Books(sources, ListArray(cs)), es[0].0, es[0].1, t, fileMode);
        AppendToList(cs, t);
        assert b'.contents == ListArray(cs + [t]);
        RunAppendsOneTextPerSource(cs + [t], b'.sources, etag + digest(es[0].1), es[1..], render, digest, fileMode);
        match RenderAll(es[1..], render)
        case Threw(f) =>
        case Ok(ts) =>
          ConcatAssoc(cs, [t], ts);
          ConcatAssoc(etag, digest(es[0].1), Digests(es[1..], digest));
    }
  }

  lemma ConcatAssoc<T>(a: seq<T>, b: seq<T>, c: seq<T>)
    ensures a + b + c == a + (b + c)
  {
  }

  /**
   * When every source key is already the key its text will get (0, 1, ...
   * continuing the contents), no source moves: the walk leaves `sources`
   * exactly as it found it.
   */
  lemma {:induction false} RunKeepsAlignedSources(cs: seq<string>, sources: PArray<Value>, etag: string,
                                                 es: seq<(Key, Value)>, render: Value -> Outcome<string>, digest: Value -> string, fileMode: bool)
    requires forall j :: 0 <= j < |es| ==> es[j].0 == IntKey(|cs| + j)
    ensures WellFormed(ListArray(cs))
    ensures RunFrom(Books(sources, ListArray(cs)), etag, es, render, digest, fileMode).books.sources == sources
    decreases |es|
  {
    ListArrayWellFormed(cs);
    if es != [] {
      match render(es[0].1)
      case Threw(f) =>
      case Ok(t) =>
        AppendToList(cs, t);
        assert forall j :: 0 <= j < |es[1..]| ==> es[1..][j].0 == IntKey(|cs + [t]| + j) by {
          forall j | 0 <= j < |es[1..]| ensures es[1..][j].0 == IntKey(|cs + [t]| + j) {
            assert es[1..][j] == es[j + 1];
          }
        }
        RunKeepsAlignedSources(cs + [t], sources, etag + digest(es[0].1), es[1..], render, digest, fileMode);
    }
  }

  /**
   * The aligned case in full: sources keyed 0..n-1 in order and no contents
   * yet. A successful walk ends with `sources` untouched and `contents`
   * carrying the same keys.
   */
  lemma AlignedSourcesShareKeys(sources: PArray<Value>, render: Value -> Outcome<string>, digest: Value -> string, fileMode: bool)
    requires ListKeyed(sources)
    ensures WellFormed(ListArray<string>([]))
    ensures var run := RunFrom(Books(sources, ListArray([])), "", sources.entries, render, digest, fileMode);
      run.failure.None? ==> run.books.sources == sources && Keys(run.books.contents) == Keys(sources)
  {
    ListArrayWellFormed<string>([]);
    RunKeepsAlignedSources([], sources, "", sources.entries, render, digest, fileMode);
    RunAppendsOneTextPerSource([], sources, "", sources.entries, render, digest, fileMode);
  }

  /** Sources already moved to integer keys 0..|ms|-1, in order. */
  ghost predicate MovedPrefix(ms: seq<(Key, Value)>) {
    forall i :: 0 <= i < |ms| ==> ms[i].0 == IntKey(i)
  }

  /** Every key a string. */
  ghost predicate StringKeyed(es: seq<(Key, Value)>) {
    forall j :: 0 <= j < |es| ==> es[j].0.StrKey?
  }

  /** What a walk over string-keyed sources leaves behind them: each source, relabelled, under the next integer key. */
  function MovedEntries(es: seq<(Key, Value)>, from: nat, fileMode: bool): (ms: seq<(Key, Value)>)
    ensures |ms| == |es|
    ensures forall j :: 0 <= j < |es| ==> ms[j] == (IntKey(from + j), Relabel(es[j].0, es[j].1, fileMode))
  {
    seq(|es|, j requires 0 <= j < |es| => (IntKey(from + j), Relabel(es[j].0, es[j].1, fileMode)))
  }

  /** One step of the string-keyed walk: the first source leaves the front and reappears at the back under the next integer key. */
  lemma StringKeyedStep(es: seq<(Key, Value)>, ms: seq<(Key, Value)>, nf: int, cs: seq<string>, t: string, fileMode: bool)
    requires es != [] && StringKeyed(es) && MovedPrefix(ms) && |ms| == |cs|
    requires WellFormed(PArray(es + ms, nf))
    ensures WellFormed(ListArray(cs))
    ensures var r := Reconcile(Books(PArray(es + ms, nf), ListArray(cs)), es[0].0, es[0].1, t, fileMode);
      var ms' := ms + [(IntKey(|cs|), Relabel(es[0].0, es[0].1, fileMode))];
      && r == Books(PArray(es[1..] + ms', r.sources.nextFree), ListArray(cs + [t]))
      && StringKeyed(es[1..]) && MovedPrefix(ms') && WellFormed(r.sources)
  {
    ListArrayWellFormed(cs);
    AppendToList(cs, t);
    StringKeyedFrontRemoved(es, ms, nf);
    var removed := Remove(PArray(es + ms, nf), es[0].0);
    PutKeys(removed, IntKey(|cs|), Relabel(es[0].0, es[0].1, fileMode));
    StringKeyedTail(es);
  }

  /** Removing the first string-keyed source leaves the rest in order, with no integer key at or past the moved ones. */
  lemma StringKeyedFrontRemoved(es: seq<(Key, Value)>, ms: seq<(Key, Value)>, nf: int)
    requires es != [] && StringKeyed(es) && MovedPrefix(ms)
    requires WellFormed(PArray(es + ms, nf))
    ensures Remove(PArray(es + ms, nf), es[0].0).entries == es[1..] + ms
    ensures !HasKey(Remove(PArray(es + ms, nf), es[0].0), IntKey(|ms|))
  {
    var a := PArray(es + ms, nf);
    assert a.entries[0] == es[0];
    RemoveFirst(a);
    var removed := Remove(a, es[0].0);
    assert removed.entries == es[1..] + ms;
    forall j | 0 <= j < |removed.entries| ensures removed.entries[j].0 != IntKey(|ms|) {
      if j < |es| - 1 {
        assert removed.entries[j] == es[j + 1];
      } else {
        assert removed.entries[j] == ms[j - (|es| - 1)];
      }
    }
  }

  /**
   * A walk over string-keyed sources (all files, say) ends with every source
   * moved, in order, to the integer key its text got, so `sources` and
   * `contents` share their keys.
   */
  lemma {:induction false} RunMovesStringKeyed(es: seq<(Key, Value)>, ms: seq<(Key, Value)>, nf: int, cs: seq<string>,
                                              etag: string, render: Value -> Outcome<string>, digest: Value -> string, fileMode: bool)
    requires StringKeyed(es) && MovedPrefix(ms) && |ms| == |cs|
    requires WellFormed(PArray(es + ms, nf))
    ensures WellFormed(ListArray(cs))
    ensures var run := RunFrom(Books(PArray(es + ms, nf), ListArray(cs)), etag, es, render, digest, fileMode);
      run.failure.None? ==> run.books.sources.entries == ms + MovedEntries(es, |cs|, fileMode)
    decreases |es|
  {
    ListArrayWellFormed(cs);
    if es == [] {
      assert es + ms == ms + MovedEntries(es, |cs|, fileMode);
    } else {
      match render(es[0].1)
      case Threw(f) =>
      case Ok(t) =>
        StringKeyedStep(es, ms, nf, cs, t, fileMode);
        var ms' := ms + [(IntKey(|cs|), Relabel(es[0].0, es[0].1, fileMode))];
        var r := Reconcile(Books(PArray(es + ms, nf), ListArray(cs)), es[0].0, es[0].1, t, fileMode);
        RunMovesStringKeyed(es[1..], ms', r.sources.nextFree, cs + [t], etag + digest(es[0].1), render, digest, fileMode);
        MovedEntriesCons(es, ms, |cs|, fileMode);
    }
  }

  lemma StringKeyedTail(es: seq<(Key, Value)>)
    requires es != [] && StringKeyed(es)
    ensures StringKeyed(es[1..])
  {
    forall j | 0 <= j < |es[1..]| ensures es[1..][j].0.StrKey? {
      assert es[1..][j] == es[j + 1];
    }
  }

  lemma MovedEntriesCons(es: seq<(Key, Value)>, ms: seq<(Key, Value)>, n: nat, fileMode: bool)
    requires es != []
    ensures ms + [(IntKey(n), Relabel(es[0].0, es[0].1, fileMode))] + MovedEntries(es[1..], n + 1, fileMode)
         == ms + MovedEntries(es, n, fileMode)
  {
    var tail := [(IntKey(n), Relabel(es[0].0, es[0].1, fileMode))] + MovedEntries(es[1..], n + 1, fileMode);
    assert tail == MovedEntries(es, n, fileMode) by {
      forall j | 0 <= j < |es| ensures tail[j] == MovedEntries(es, n, fileMode)[j] {
        if j > 0 {
          assert es[1..][j - 1] == es[j];
        }
      }
    }
  }

  /**
   * The string-keyed case in full: sources all keyed by name and no contents
   * yet. A successful walk ends with the sources keyed 0..n-1 in order, each
   * relabelled by its file name in file mode, and `contents` with the same keys.
   */
  lemma StringKeyedSourcesShareKeys(sources: PArray<Value>, render: Value -> Outcome<string>, digest: Value -> string, fileMode: bool)
    requires WellFormed(sources) && StringKeyed(sources.entries)
    ensures WellFormed(ListArray<string>([]))
    ensures var run := RunFrom(Books(sources, ListArray([])), "", sources.entries, render, digest, fileMode);
      run.failure.None? ==>
        && run.books.sources.entries == MovedEntries(sources.entries, 0, fileMode)
        && Keys(run.books.sources) == Keys(run.books.contents)
  {
    ListArrayWellFormed<string>([]);
    assert sources.entries + [] == sources.entries;
    RunMovesStringKeyed(sources.entries, [], sources.nextFree, [], "", render, digest, fileMode);
    RunAppendsOneTextPerSource([], sources, "", sources.entries, render, digest, fileMode);
  }

  /**
   * Mixed key kinds lose a source: with a file "a.md" followed by the inline
   * source at key 0, the file's text moves to key 0 and overwrites the inline
   * source there; the inline source then moves on to key 1, unsetting key 0.
   * Two texts are rendered, but only the inline source is left.
   */
  lemma MixedKeysLoseSource(x: Value, y: Value, render: Value -> Outcome<string>, digest: Value -> string, fileMode: bool)
    requires render(x).Ok? && render(y).Ok?
    ensures WellFormed(ListArray<string>([]))
    ensures var sources := PArray([(StrKey("a.md"), x), (IntKey(0), y)], 1);
      var run := RunFrom(Books(sources, ListArray([])), "", sources.entries, render, digest, fileMode);
      && run.failure.None?
      && run.books.sources.entries == [(IntKey(1), y)]
      && run.books.contents == ListArray([render(x).value, render(y).value])
  {
    ListArrayWellFormed<string>([]);
    var tx := render(x).value;
    var ty := render(y).value;
    var es := [(StrKey("a.md"), x), (IntKey(0), y)];
    var sources := PArray(es, 1);
    MixedFirstStep(x, y, tx, fileMode);
    var b1 := Reconcile(Books(sources, ListArray([])), StrKey("a.md"), x, tx, fileMode);
    MixedSecondStep(b1, Relabel(StrKey("a.md"), x, fileMode), y, tx, ty, fileMode);
    var b2 := Reconcile(b1, IntKey(0), y, ty, fileMode);
    assert es[1..] == [(IntKey(0), y)];
    assert es[1..][1..] == [];
    assert RunFrom(b2, digest(x) + digest(y), [], render, digest, fileMode) == ParseRun(b2, digest(x) + digest(y), None);
    assert RunFrom(b1, digest(x), es[1..], render, digest, fileMode) == ParseRun(b2, digest(x) + digest(y), None);
    assert "" + digest(x) == digest(x);
    assert RunFrom(Books(sources, ListArray([])), "", es, render, digest, fileMode) == ParseRun(b2, digest(x) + digest(y), None);
  }

  /** The file's text moves from "a.md" to key 0, overwriting the inline source in place. */
  lemma MixedFirstStep(x: Value, y: Value, tx: string, fileMode: bool)
    ensures WellFormed(ListArray<string>([]))
    ensures var b1 := Reconcile(Books(PArray([(StrKey("a.md"), x), (IntKey(0), y)], 1), ListArray([])), StrKey("a.md"), x, tx, fileMode);
      && b1.sources.entries == [(IntKey(0), Relabel(StrKey("a.md"), x, fileMode))]
      && WellFormed(b1.sources)
      && b1.contents == ListArray([tx])
  {
    ListArrayWellFormed<string>([]);
    var sources := PArray([(StrKey("a.md"), x), (IntKey(0), y)], 1);
    var removed := Remove(sources, StrKey("a.md"));
    RemoveFirst(sources);
    assert removed.entries == [(IntKey(0), y)];
    IndexOfIs(removed.entries, IntKey(0), 0);
    AppendToList([], tx);
  }

  /** The inline source then moves from key 0 to key 1, and key 0 is unset. */
  lemma MixedSecondStep(b1: Books, v: Value, y: Value, tx: string, ty: string, fileMode: bool)
    requires b1.sources.entries == [(IntKey(0), v)] && WellFormed(b1.sources) && b1.contents == ListArray([tx])
    ensures WellFormed(b1.contents)
    ensures var b2 := Reconcile(b1, IntKey(0), y, ty, fileMode);
      b2.sources.entries == [(IntKey(1), y)] && b2.contents == ListArray([tx, ty])
  {
    ListArrayWellFormed([tx]);
    var removed := Remove(b1.sources, IntKey(0));
    RemoveFirst(b1.sources);
    assert removed.entries == [];
    AppendToList([tx], ty);
    assert [tx] + [ty] == [tx, ty];
  }
}
