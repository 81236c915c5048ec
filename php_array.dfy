/**
 * PHP's ordered arrays, as the request pipeline uses them for its source,
 * content, header, data and file maps.
 *
 * A PHP array is an ordered association list whose keys are integers or
 * strings, together with the "next free" integer key that `$a[] = v` uses.
 * Writing to an existing key keeps that key's position; writing to a new key
 * appends it; writing an integer key `k` raises the next free key to `k + 1`
 * when it is not already larger; `unset` never lowers it.
 */
module PhpArrays {
  import opened Wrappers

  /** An array key: an integer, or a (non-numeric) string. */
  datatype Key = IntKey(i: int) | StrKey(s: string)

  /** An ordered array: its entries in insertion order and the next free integer key. */
  datatype PArray<V> = PArray(entries: seq<(Key, V)>, nextFree: int)

  /** What every PHP array satisfies: unique keys, and every integer key below the next free one. */
  ghost predicate WellFormed<V>(a: PArray<V>) {
    && a.nextFree >= 0
    && (forall i, j :: 0 <= i < j < |a.entries| ==> a.entries[i].0 != a.entries[j].0)
    && (forall i :: 0 <= i < |a.entries| && a.entries[i].0.IntKey? ==> a.entries[i].0.i < a.nextFree)
  }

  /** `array()` */
  function Empty<V>(): (a: PArray<V>)
    ensures WellFormed(a) && a.entries == []
  {
    PArray([], 0)
  }

  function Count<V>(a: PArray<V>): nat {
    |a.entries|
  }

  /** The keys, in iteration order. */
  function Keys<V>(a: PArray<V>): (ks: seq<Key>)
    ensures |ks| == |a.entries|
    ensures forall i :: 0 <= i < |ks| ==> ks[i] == a.entries[i].0
  {
    seq(|a.entries|, i requires 0 <= i < |a.entries| => a.entries[i].0)
  }

  /** The position of the first entry with key `k`. */
  function IndexOf<V>(es: seq<(Key, V)>, k: Key): (r: Option<nat>)
    ensures r.Some? ==> r.value < |es| && es[r.value].0 == k
    ensures r.Some? ==> forall j :: 0 <= j < r.value ==> es[j].0 != k
    ensures r.None? ==> forall j :: 0 <= j < |es| ==> es[j].0 != k
  {
    if |es| == 0 then None
    else if es[0].0 == k then Some(0)
    else match IndexOf(es[1..], k)
      case None => None
      case Some(j) => Some(j + 1)
  }

  /** `array_key_exists($k, $a)` */
  predicate HasKey<V>(a: PArray<V>, k: Key) {
    IndexOf(a.entries, k).Some?
  }

  /** `$a[$k]`, or None when the key is absent. */
  function Get<V>(a: PArray<V>, k: Key): Option<V> {
    match IndexOf(a.entries, k)
    case Some(i) => Some(a.entries[i].1)
    case None => None
  }

  lemma GetAt<V>(a: PArray<V>, i: nat)
    requires WellFormed(a) && i < |a.entries|
    ensures Get(a, a.entries[i].0) == Some(a.entries[i].1)
  {
    IndexOfIs(a.entries, a.entries[i].0, i);
  }

  /** The first position holding `k` is the one IndexOf finds. */
  lemma {:induction false} IndexOfIs<V>(es: seq<(Key, V)>, k: Key, i: nat)
    requires i < |es| && es[i].0 == k
    requires forall j :: 0 <= j < i ==> es[j].0 != k
    ensures IndexOf(es, k) == Some(i)
  {
    if i > 0 {
      IndexOfIs(es[1..], k, i - 1);
    }
  }

  function Bump(nextFree: int, k: Key): int {
    if k.IntKey? && k.i >= nextFree then k.i + 1 else nextFree
  }

  /** `$a[$k] = $v`: overwrite in place when the key exists, append otherwise. */
  function Put<V>(a: PArray<V>, k: Key, v: V): (r: PArray<V>)
    ensures Get(r, k) == Some(v)
    ensures forall k' :: k' != k ==> Get(r, k') == Get(a, k')
    ensures r.nextFree == Bump(a.nextFree, k)
    ensures WellFormed(a) ==> WellFormed(r)
  {
    match IndexOf(a.entries, k)
    case Some(i) =>
      var r := PArray(a.entries[i := (k, v)], Bump(a.nextFree, k));
      assert forall k' :: k' != k ==> IndexOf(r.entries, k') == IndexOf(a.entries, k') by {
        forall k' | k' != k ensures IndexOf(r.entries, k') == IndexOf(a.entries, k') {
          IndexOfUpdate(a.entries, i, k, v, k');
        }
      }
      IndexOfIs(r.entries, k, i);
      r
    case None =>
      var r := PArray(a.entries + [(k, v)], Bump(a.nextFree, k));
      assert forall k' :: k' != k ==> IndexOf(r.entries, k') == IndexOf(a.entries, k') by {
        forall k' | k' != k ensures IndexOf(r.entries, k') == IndexOf(a.entries, k') {
          IndexOfSnoc(a.entries, (k, v), k');
        }
      }
      IndexOfSnoc(a.entries, (k, v), k);
      r
  }

  /** Where `$a[$k] = $v` puts the key: in its old place, or appended at the end. */
  lemma PutKeys<V>(a: PArray<V>, k: Key, v: V)
    ensures HasKey(a, k) ==> Keys(Put(a, k, v)) == Keys(a)
    ensures !HasKey(a, k) ==> Keys(Put(a, k, v)) == Keys(a) + [k]
    ensures !HasKey(a, k) ==> Put(a, k, v).entries == a.entries + [(k, v)]
  {
    var r := Put(a, k, v);
    match IndexOf(a.entries, k)
    case Some(i) =>
      assert r.entries == a.entries[i := (k, v)];
      assert Keys(r) == Keys(a) by {
        forall j | 0 <= j < |Keys(a)| ensures Keys(r)[j] == Keys(a)[j] {
        }
      }
    case None =>
      assert r.entries == a.entries + [(k, v)];
      assert Keys(r) == Keys(a) + [k] by {
        forall j | 0 <= j < |Keys(r)| ensures Keys(r)[j] == (Keys(a) + [k])[j] {
        }
      }
  }

  lemma IndexOfUpdate<V>(es: seq<(Key, V)>, i: nat, k: Key, v: V, k': Key)
    requires i < |es| && es[i].0 == k && k' != k
    ensures IndexOf(es[i := (k, v)], k') == IndexOf(es, k')
  {
    var es' := es[i := (k, v)];
    match IndexOf(es, k')
    case Some(m) =>
      IndexOfIs(es', k', m);
    case None =>
      assert forall j :: 0 <= j < |es'| ==> es'[j].0 != k';
  }

  lemma IndexOfSnoc<V>(es: seq<(Key, V)>, e: (Key, V), k: Key)
    ensures IndexOf(es + [e], k) == (if IndexOf(es, k).Some? then IndexOf(es, k)
                                     else if e.0 == k then Some(|es|) else None)
  {
    match IndexOf(es, k)
    case Some(m) =>
      IndexOfIs(es + [e], k, m);
    case None =>
      if e.0 == k {
        IndexOfIs(es + [e], k, |es|);
      } else {
        assert forall j :: 0 <= j < |es + [e]| ==> (es + [e])[j].0 != k;
      }
  }

  /** The integer key that `$a[] = $v` writes to. */
  function NextKey<V>(a: PArray<V>): Key {
    IntKey(a.nextFree)
  }

  lemma NextKeyIsFree<V>(a: PArray<V>)
    requires WellFormed(a)
    ensures !HasKey(a, NextKey(a))
  {
    forall i | 0 <= i < |a.entries| ensures a.entries[i].0 != NextKey(a) {
    }
  }

  /** `$a[] = $v`: the value lands at the end, under the next free integer key, which moves up by one. */
  function Append<V>(a: PArray<V>, v: V): (r: PArray<V>)
    requires WellFormed(a)
    ensures r.entries == a.entries + [(NextKey(a), v)]
    ensures r.nextFree == a.nextFree + 1
    ensures WellFormed(r)
  {
    NextKeyIsFree(a);
    PutKeys(a, NextKey(a), v);
    Put(a, NextKey(a), v)
  }

  /** Entries whose key is not `k`, in order. */
  function Without<V>(es: seq<(Key, V)>, k: Key): (r: seq<(Key, V)>)
    ensures |r| <= |es|
    ensures forall i :: 0 <= i < |r| ==> r[i] in es && r[i].0 != k
  {
    if |es| == 0 then []
    else if es[0].0 == k then Without(es[1..], k)
    else [es[0]] + Without(es[1..], k)
  }

  lemma {:induction false} IndexOfWithout<V>(es: seq<(Key, V)>, k: Key, k': Key)
    requires k' != k
    ensures (IndexOf(Without(es, k), k').Some? <==> IndexOf(es, k').Some?)
    ensures IndexOf(es, k').Some? ==>
      Without(es, k)[IndexOf(Without(es, k), k').value] == es[IndexOf(es, k').value]
  {
    if |es| > 0 {
      IndexOfWithout(es[1..], k, k');
      var w := Without(es[1..], k);
      if es[0].0 == k {
        assert Without(es, k) == w;
      } else if es[0].0 == k' {
        assert Without(es, k) == [es[0]] + w;
      } else {
        var kept := [es[0]] + w;
        assert Without(es, k) == kept;
        assert kept[1..] == w;
        assert IndexOf(es, k').Some? ==> IndexOf(es, k').value == IndexOf(es[1..], k').value + 1;
        assert IndexOf(w, k').Some? ==> IndexOf(kept, k').value == IndexOf(w, k').value + 1;
      }
    }
  }

  lemma WithoutUnique<V>(es: seq<(Key, V)>, k: Key)
    requires forall i, j :: 0 <= i < j < |es| ==> es[i].0 != es[j].0
    ensures forall i, j :: 0 <= i < j < |Without(es, k)| ==> Without(es, k)[i].0 != Without(es, k)[j].0
  {
    if |es| > 0 {
      WithoutUnique(es[1..], k);
      var w := Without(es[1..], k);
      forall i | 0 <= i < |w| ensures w[i].0 != es[0].0 {
        var j :| 0 <= j < |es[1..]| && es[1..][j] == w[i];
      }
    }
  }

  /** `unset($a[$k])`: the entry goes, the others keep their order; the next free key stays. */
  function Remove<V>(a: PArray<V>, k: Key): (r: PArray<V>)
    ensures Get(r, k).None? && !HasKey(r, k)
    ensures forall k' :: k' != k ==> Get(r, k') == Get(a, k')
    ensures r.nextFree == a.nextFree
    ensures WellFormed(a) ==> WellFormed(r)
  {
    var r := PArray(Without(a.entries, k), a.nextFree);
    RemoveFacts(a, k);
    r
  }

  lemma RemoveFacts<V>(a: PArray<V>, k: Key)
    ensures forall k' :: k' != k ==> Get(PArray(Without(a.entries, k), a.nextFree), k') == Get(a, k')
    ensures WellFormed(a) ==> WellFormed(PArray(Without(a.entries, k), a.nextFree))
  {
    var r := PArray(Without(a.entries, k), a.nextFree);
    forall k' | k' != k ensures Get(r, k') == Get(a, k') {
      IndexOfWithout(a.entries, k, k');
    }
    if WellFormed(a) {
      WithoutUnique(a.entries, k);
      forall i | 0 <= i < |r.entries| && r.entries[i].0.IntKey?
        ensures r.entries[i].0.i < r.nextFree
      {
        var j :| 0 <= j < |a.entries| && a.entries[j] == r.entries[i];
      }
    }
  }

  lemma RemoveFirst<V>(a: PArray<V>)
    requires WellFormed(a) && |a.entries| > 0
    ensures Remove(a, a.entries[0].0).entries == a.entries[1..]
  {
    WithoutAbsent(a.entries[1..], a.entries[0].0);
  }

  lemma WithoutAbsent<V>(es: seq<(Key, V)>, k: Key)
    requires forall i :: 0 <= i < |es| ==> es[i].0 != k
    ensures Without(es, k) == es
  {
    if |es| > 0 {
      WithoutAbsent(es[1..], k);
    }
  }

  /** The array that `[v0, v1, ...]` denotes: keys 0, 1, ... in order. */
  function ListArray<V>(vs: seq<V>): (a: PArray<V>)
    ensures |a.entries| == |vs| && a.nextFree == |vs|
    ensures forall j :: 0 <= j < |vs| ==> a.entries[j] == (IntKey(j), vs[j])
  {
    PArray(seq(|vs|, j requires 0 <= j < |vs| => (IntKey(j), vs[j])), |vs|)
  }

  lemma ListArrayWellFormed<V>(vs: seq<V>)
    ensures WellFormed(ListArray(vs))
  {
  }

  /** Appending to a list array gives the longer list array. */
  lemma {:induction false} AppendToList<V>(vs: seq<V>, v: V)
    ensures WellFormed(ListArray(vs))
    ensures Append(ListArray(vs), v) == ListArray(vs + [v])
  {
    ListArrayWellFormed(vs);
    var a := Append(ListArray(vs), v);
    assert a.entries == ListArray(vs + [v]).entries;
  }

  /** Successive writes `$a[$k] = $v` for the given entries, in order. */
  function PutAll<V>(a: PArray<V>, es: seq<(Key, V)>): (r: PArray<V>)
    ensures WellFormed(a) ==> WellFormed(r)
    decreases |es|
  {
    if es == [] then a
    else PutAll(Put(a, es[0].0, es[0].1), es[1..])
  }

  /** The value of the last entry with key `k`, if any. */
  function LastWrite<V>(es: seq<(Key, V)>, k: Key): (r: Option<V>)
    ensures r.Some? <==> exists i :: 0 <= i < |es| && es[i].0 == k
    decreases |es|
  {
    if es == [] then None
    else
      var later := LastWrite(es[1..], k);
      assert forall i :: 0 <= i < |es| - 1 ==> es[1..][i] == es[i + 1];
      if later.Some? then later
      else if es[0].0 == k then Some(es[0].1)
      else None
  }

  /** After successive writes, a key holds the value of its last write, or its old value when never written. */
  lemma {:induction false} PutAllGet<V>(a: PArray<V>, es: seq<(Key, V)>, k: Key)
    ensures Get(PutAll(a, es), k) == if LastWrite(es, k).Some? then LastWrite(es, k) else Get(a, k)
    decreases |es|
  {
    if es != [] {
      PutAllGet(Put(a, es[0].0, es[0].1), es[1..], k);
    }
  }

  /**
   * One step of `array_merge`: a string key is written in place (the later
   * value wins, the earlier position stays), an integer key is dropped and
   * its value appended under the next free integer key.
   */
  function MergeEntry<V>(acc: PArray<V>, e: (Key, V)): (r: PArray<V>)
    requires WellFormed(acc)
    ensures WellFormed(r)
  {
    if e.0.StrKey? then Put(acc, e.0, e.1) else Append(acc, e.1)
  }

  function MergeAll<V>(acc: PArray<V>, es: seq<(Key, V)>): (r: PArray<V>)
    requires WellFormed(acc)
    ensures WellFormed(r)
    decreases |es|
  {
    if es == [] then acc
    else MergeAll(MergeEntry(acc, es[0]), es[1..])
  }

  /** `array_merge($a, $b)` */
  function Merge<V>(a: PArray<V>, b: PArray<V>): (r: PArray<V>)
    ensures WellFormed(r)
  {
    MergeAll(MergeAll(Empty(), a.entries), b.entries)
  }

  /** The values stored under integer keys, in order. */
  function IntValues<V>(es: seq<(Key, V)>): seq<V>
    decreases |es|
  {
    if es == [] then []
    else (if es[0].0.IntKey? then [es[0].1] else []) + IntValues(es[1..])
  }

  /** The integer keys of `r` are exactly 0..|vs|-1, holding `vs` in order. */
  ghost predicate IntPartIsList<V>(r: PArray<V>, vs: seq<V>) {
    && r.nextFree == |vs|
    && (forall j :: 0 <= j < |vs| ==> Get(r, IntKey(j)) == Some(vs[j]))
    && (forall i :: 0 <= i < |r.entries| && r.entries[i].0.IntKey? ==> 0 <= r.entries[i].0.i)
  }

  lemma MergeEntryIntPart<V>(acc: PArray<V>, vs: seq<V>, e: (Key, V))
    requires WellFormed(acc) && IntPartIsList(acc, vs)
    ensures IntPartIsList(MergeEntry(acc, e), vs + (if e.0.IntKey? then [e.1] else []))
  {
    var r := MergeEntry(acc, e);
    if e.0.StrKey? {
      assert vs + [] == vs;
      forall i | 0 <= i < |r.entries| && r.entries[i].0.IntKey? ensures 0 <= r.entries[i].0.i {
        if !HasKey(acc, e.0) {
          assert r.entries == acc.entries + [(e.0, e.1)];
          assert i < |acc.entries|;
        } else {
          assert Keys(r)[i] == Keys(acc)[i];
        }
      }
    } else {
      assert r == Put(acc, IntKey(|vs|), e.1);
      forall i | 0 <= i < |r.entries| && r.entries[i].0.IntKey? ensures 0 <= r.entries[i].0.i {
        if i < |acc.entries| { assert r.entries[i] == acc.entries[i]; }
      }
    }
  }

  lemma {:induction false} MergeAllIntPart<V>(acc: PArray<V>, vs: seq<V>, es: seq<(Key, V)>)
    requires WellFormed(acc) && IntPartIsList(acc, vs)
    ensures IntPartIsList(MergeAll(acc, es), vs + IntValues(es))
    decreases |es|
  {
    if es != [] {
      var head := if es[0].0.IntKey? then [es[0].1] else [];
      assert IntValues(es) == head + IntValues(es[1..]);
      assert vs + head + IntValues(es[1..]) == vs + IntValues(es);
      MergeEntryIntPart(acc, vs, es[0]);
      MergeAllIntPart(MergeEntry(acc, es[0]), vs + head, es[1..]);
    }
  }

  /**
   * `array_merge` renumbers: integer keys of the result are exactly 0..n-1 and
   * hold the integer-keyed values of `a` then of `b`, in order.
   */
  lemma MergeRenumbersIntKeys<V>(a: PArray<V>, b: PArray<V>)
    ensures var vs := IntValues(a.entries) + IntValues(b.entries);
      && Merge(a, b).nextFree == |vs|
      && (forall j :: 0 <= j < |vs| ==> Get(Merge(a, b), IntKey(j)) == Some(vs[j]))
      && (forall n: int :: !(0 <= n < |vs|) ==> !HasKey(Merge(a, b), IntKey(n)))
  {
    var e: PArray<V> := Empty();
    var m := MergeAll(e, a.entries);
    MergeAllIntPart(e, [], a.entries);
    assert [] + IntValues(a.entries) == IntValues(a.entries);
    MergeAllIntPart(m, IntValues(a.entries), b.entries);
    assert Merge(a, b) == MergeAll(m, b.entries);
    IntPartOnlyList(Merge(a, b), IntValues(a.entries) + IntValues(b.entries));
  }

  /** An array whose integer part is the list `vs` has no other integer key. */
  lemma IntPartOnlyList<V>(r: PArray<V>, vs: seq<V>)
    requires WellFormed(r) && IntPartIsList(r, vs)
    ensures forall n: int :: !(0 <= n < |vs|) ==> !HasKey(r, IntKey(n))
  {
    forall n: int | !(0 <= n < |vs|) ensures !HasKey(r, IntKey(n)) {
      forall i | 0 <= i < |r.entries| ensures r.entries[i].0 != IntKey(n) {
      }
    }
  }

  lemma {:induction false} MergeAllStrKey<V>(acc: PArray<V>, es: seq<(Key, V)>, s: string)
    requires WellFormed(acc)
    requires forall i, j :: 0 <= i < j < |es| ==> es[i].0 != es[j].0
    ensures Get(MergeAll(acc, es), StrKey(s)) ==
      (match IndexOf(es, StrKey(s)) case Some(i) => Some(es[i].1) case None => Get(acc, StrKey(s)))
    decreases |es|
  {
    if es != [] {
      var k := StrKey(s);
      var next := MergeEntry(acc, es[0]);
      MergeAllStrKey(next, es[1..], s);
      if es[0].0 == k {
        assert IndexOf(es[1..], k).None? by {
          forall j | 0 <= j < |es[1..]| ensures es[1..][j].0 != k {
            assert es[1..][j] == es[j + 1];
          }
        }
      } else {
        assert Get(next, k) == Get(acc, k) by {
          if es[0].0.IntKey? {
            IndexOfSnoc(acc.entries, (NextKey(acc), es[0].1), k);
          }
        }
        match IndexOf(es[1..], k)
        case Some(i) => assert es[1..][i] == es[i + 1];
        case None =>
      }
    }
  }

  /**
   * `array_merge` and string keys: a string key of `b` takes `b`'s value; a
   * string key only in `a` keeps `a`'s value.
   */
  lemma MergeStringKeys<V>(a: PArray<V>, b: PArray<V>, s: string)
    requires WellFormed(a) && WellFormed(b)
    ensures HasKey(b, StrKey(s)) ==> Get(Merge(a, b), StrKey(s)) == Get(b, StrKey(s))
    ensures !HasKey(b, StrKey(s)) ==> Get(Merge(a, b), StrKey(s)) == Get(a, StrKey(s))
  {
    var e: PArray<V> := Empty();
    MergeAllStrKey(e, a.entries, s);
    MergeAllStrKey(MergeAll(e, a.entries), b.entries, s);
  }

  /**
   * The key order `array_merge` produces, read off the keys alone: starting
   * from the keys `seen` so far, an integer key becomes the next number in
   * turn and is appended, a string key is appended at its first occurrence
   * and keeps that place afterwards.
   */
  function MergedKeys(seen: seq<Key>, next: int, ks: seq<Key>): seq<Key>
    decreases |ks|
  {
    if ks == [] then seen
    else if ks[0].IntKey? then MergedKeys(seen + [IntKey(next)], next + 1, ks[1..])
    else if ks[0] in seen then MergedKeys(seen, next, ks[1..])
    else MergedKeys(seen + [ks[0]], next, ks[1..])
  }

  /** The number of integer keys. */
  function IntKeyCount(ks: seq<Key>): nat
    decreases |ks|
  {
    if ks == [] then 0 else (if ks[0].IntKey? then 1 else 0) + IntKeyCount(ks[1..])
  }

  lemma HasKeyInKeys<V>(a: PArray<V>, k: Key)
    ensures HasKey(a, k) <==> k in Keys(a)
  {
    if k in Keys(a) {
      var i :| 0 <= i < |Keys(a)| && Keys(a)[i] == k;
      assert a.entries[i].0 == k;
    }
  }

  /** One step of `array_merge` on the keys is one step of `MergedKeys`. */
  lemma MergeEntryKeys<V>(acc: PArray<V>, e: (Key, V), rest: seq<Key>)
    requires WellFormed(acc)
    ensures MergedKeys(Keys(acc), acc.nextFree, [e.0] + rest)
         == MergedKeys(Keys(MergeEntry(acc, e)), MergeEntry(acc, e).nextFree, rest)
  {
    assert ([e.0] + rest)[1..] == rest;
    if e.0.IntKey? {
      assert Keys(MergeEntry(acc, e)) == Keys(acc) + [IntKey(acc.nextFree)];
    } else {
      PutKeys(acc, e.0, e.1);
      HasKeyInKeys(acc, e.0);
    }
  }

  /** The keys of a run of entries, in order. */
  function EntryKeys<V>(es: seq<(Key, V)>): (ks: seq<Key>)
    ensures |ks| == |es|
    ensures forall i :: 0 <= i < |es| ==> ks[i] == es[i].0
  {
    seq(|es|, i requires 0 <= i < |es| => es[i].0)
  }

  lemma {:induction false} MergeAllKeys<V>(acc: PArray<V>, es: seq<(Key, V)>)
    requires WellFormed(acc)
    ensures Keys(MergeAll(acc, es)) == MergedKeys(Keys(acc), acc.nextFree, EntryKeys(es))
    ensures MergeAll(acc, es).nextFree == acc.nextFree + IntKeyCount(EntryKeys(es))
    decreases |es|
  {
    var ks := EntryKeys(es);
    if es != [] {
      var next := MergeEntry(acc, es[0]);
      assert ks == [es[0].0] + EntryKeys(es[1..]);
      MergeEntryKeys(acc, es[0], EntryKeys(es[1..]));
      MergeAllKeys(next, es[1..]);
    } else {
      assert ks == [];
    }
  }

  lemma {:induction false} MergedKeysConcat(seen: seq<Key>, next: int, xs: seq<Key>, ys: seq<Key>)
    ensures MergedKeys(seen, next, xs + ys) == MergedKeys(MergedKeys(seen, next, xs), next + IntKeyCount(xs), ys)
    decreases |xs|
  {
    if xs == [] {
      assert xs + ys == ys;
    } else {
      assert (xs + ys)[1..] == xs[1..] + ys;
      if xs[0].IntKey? {
        MergedKeysConcat(seen + [IntKey(next)], next + 1, xs[1..], ys);
      } else if xs[0] in seen {
        MergedKeysConcat(seen, next, xs[1..], ys);
      } else {
        MergedKeysConcat(seen + [xs[0]], next, xs[1..], ys);
      }
    }
  }

  lemma {:induction false} MergedKeysExtends(seen: seq<Key>, next: int, ks: seq<Key>)
    ensures seen <= MergedKeys(seen, next, ks)
    decreases |ks|
  {
    if ks != [] {
      if ks[0].IntKey? {
        MergedKeysExtends(seen + [IntKey(next)], next + 1, ks[1..]);
      } else if ks[0] in seen {
        MergedKeysExtends(seen, next, ks[1..]);
      } else {
        MergedKeysExtends(seen + [ks[0]], next, ks[1..]);
      }
    }
  }

  /**
   * The order of `array_merge($a, $b)`: the keys of `$a` come first, in
   * order and renumbered; then the keys of `$b`, each integer key as the
   * next number and each string key only if it is new (a repeated string
   * key keeps its first place).
   */
  lemma MergeKeyOrder<V>(a: PArray<V>, b: PArray<V>)
    ensures Keys(Merge(a, b)) == MergedKeys([], 0, Keys(a) + Keys(b))
    ensures Keys(Merge(a, Empty())) <= Keys(Merge(a, b))
  {
    var e: PArray<V> := Empty();
    var m := MergeAll(e, a.entries);
    assert EntryKeys(a.entries) == Keys(a) && EntryKeys(b.entries) == Keys(b);
    MergeAllKeys(e, a.entries);
    MergeAllKeys(m, b.entries);
    assert Keys(e) == [];
    MergedKeysConcat([], 0, Keys(a), Keys(b));
    MergedKeysExtends(Keys(m), m.nextFree, Keys(b));
    assert Merge(a, Empty()) == m;
  }
}
