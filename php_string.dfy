/**
 * The string functions the service relies on: `strtolower`/`strtoupper`
 * (ASCII), `str_replace` with one search string, and `join`.
 */
module PhpStrings {

  function LowerChar(c: char): char {
    if 'A' <= c <= 'Z' then (c as int + 32) as char else c
  }

  function UpperChar(c: char): char {
    if 'a' <= c <= 'z' then (c as int - 32) as char else c
  }

  /** `strtolower($s)` */
  function Lower(s: string): (r: string)
    ensures |r| == |s|
    ensures forall i :: 0 <= i < |s| ==> r[i] == LowerChar(s[i])
  {
    seq(|s|, i requires 0 <= i < |s| => LowerChar(s[i]))
  }

  /** `strtoupper($s)` */
  function Upper(s: string): (r: string)
    ensures |r| == |s|
    ensures forall i :: 0 <= i < |s| ==> r[i] == UpperChar(s[i])
  {
    seq(|s|, i requires 0 <= i < |s| => UpperChar(s[i]))
  }

  /** Lower-casing twice is lower-casing once, so a lower-cased name is its own normal form. */
  lemma LowerIdempotent(s: string)
    ensures Lower(Lower(s)) == Lower(s)
  {
    assert forall i :: 0 <= i < |s| ==> LowerChar(LowerChar(s[i])) == LowerChar(s[i]);
  }

  /** Lower-casing forgets a previous upper-casing: both spellings of a name have one lower-case form. */
  lemma LowerOfUpper(s: string)
    ensures Lower(Upper(s)) == Lower(s)
  {
    assert forall i :: 0 <= i < |s| ==> LowerChar(UpperChar(s[i])) == LowerChar(s[i]);
  }

  /** `p` occurs in `s` at position `i`. */
  predicate OccursAt(s: string, p: string, i: nat) {
    i + |p| <= |s| && s[i..i + |p|] == p
  }

  /** `strpos($s, $p) !== false` */
  predicate Contains(s: string, p: string) {
    exists i: nat | i <= |s| :: OccursAt(s, p, i)
  }

  /** `str_replace($p, $r, $s)`: every occurrence of `p`, scanning left to right without overlaps, becomes `r`. */
  function ReplaceAll(s: string, p: string, r: string): string
    requires |p| > 0
    decreases |s|
  {
    if |s| < |p| then s
    else if s[..|p|] == p then r + ReplaceAll(s[|p|..], p, r)
    else [s[0]] + ReplaceAll(s[1..], p, r)
  }

  lemma ShiftOccurs(a: string, t: string, p: string, i: nat)
    requires i >= |a|
    ensures OccursAt(a + t, p, i) <==> OccursAt(t, p, i - |a|)
  {
    if i + |p| <= |a + t| {
      assert (a + t)[i..i + |p|] == t[i - |a|..i - |a| + |p|];
    }
  }

  /**
   * A prefix of the output that holds no character of the (one-character)
   * replacement is copied unchanged from the input.
   */
  lemma {:induction false} PrefixKept(s: string, p: string, r: string, k: nat)
    requires |p| > 0 && |r| == 1
    ensures var out := ReplaceAll(s, p, r);
      (k <= |out| && forall j :: 0 <= j < k ==> out[j] != r[0]) ==> k <= |s| && out[..k] == s[..k]
    decreases |s|
  {
    var out := ReplaceAll(s, p, r);
    if |s| >= |p| && s[..|p|] == p {
      assert out == r + ReplaceAll(s[|p|..], p, r);
      assert k > 0 ==> out[0] == r[0];
    } else if |s| >= |p| && k > 0 {
      PrefixKept(s[1..], p, r, k - 1);
      var t := ReplaceAll(s[1..], p, r);
      assert out == [s[0]] + t;
      if k <= |out| && forall j :: 0 <= j < k ==> out[j] != r[0] {
        assert forall j :: 0 <= j < k - 1 ==> t[j] == out[j + 1];
        assert out[..k] == [s[0]] + t[..k - 1];
        assert s[..k] == [s[0]] + s[1..][..k - 1];
      }
    }
  }

  /** After `str_replace($p, $r, $s)` with a one-character `r` foreign to `p`, no `p` remains. */
  lemma {:induction false} ReplaceRemovesPattern(s: string, p: string, r: string)
    requires |p| > 0 && |r| == 1
    requires forall j :: 0 <= j < |p| ==> p[j] != r[0]
    ensures !Contains(ReplaceAll(s, p, r), p)
    decreases |s|
  {
    if |s| >= |p| {
      if s[..|p|] == p {
        ReplaceRemovesPattern(s[|p|..], p, r);
        ReplacedHead(s, p, r);
      } else {
        ReplaceRemovesPattern(s[1..], p, r);
        KeptHead(s, p, r);
      }
    }
  }

  /** The step of `ReplaceRemovesPattern` where the input starts with `p`. */
  lemma ReplacedHead(s: string, p: string, r: string)
    requires |p| > 0 && |r| == 1 && p[0] != r[0]
    requires |s| >= |p| && s[..|p|] == p
    requires !Contains(ReplaceAll(s[|p|..], p, r), p)
    ensures !Contains(ReplaceAll(s, p, r), p)
  {
    var t := ReplaceAll(s[|p|..], p, r);
    assert ReplaceAll(s, p, r) == r + t;
    forall i: nat ensures !OccursAt(r + t, p, i) {
      ShiftOrHead(r, t, p, i);
    }
  }

  /** The step of `ReplaceRemovesPattern` where the input's first character is copied. */
  lemma KeptHead(s: string, p: string, r: string)
    requires |p| > 0 && |r| == 1
    requires forall j :: 0 <= j < |p| ==> p[j] != r[0]
    requires |s| >= |p| && s[..|p|] != p
    requires !Contains(ReplaceAll(s[1..], p, r), p)
    ensures !Contains(ReplaceAll(s, p, r), p)
  {
    var t := ReplaceAll(s[1..], p, r);
    var out := [s[0]] + t;
    assert ReplaceAll(s, p, r) == out;
    forall i: nat ensures !OccursAt(out, p, i) {
      if i == 0 {
        NoHeadMatch(s, p, r);
      } else {
        ShiftOccurs([s[0]], t, p, i);
      }
    }
  }

  /** When the input does not start with `p`, neither does the output of `str_replace` (its head is copied). */
  lemma NoHeadMatch(s: string, p: string, r: string)
    requires |p| > 0 && |r| == 1
    requires forall j :: 0 <= j < |p| ==> p[j] != r[0]
    requires |s| >= |p| && s[..|p|] != p
    ensures !OccursAt([s[0]] + ReplaceAll(s[1..], p, r), p, 0)
  {
    var t := ReplaceAll(s[1..], p, r);
    HeadOccurrence(s[0], t, p);
    HeadOccurrence(s[0], s[1..], p);
    assert [s[0]] + s[1..] == s;
    assert |p| - 1 <= |t| && t[..|p| - 1] == p[1..] ==> forall j :: 0 <= j < |p| - 1 ==> t[j] == p[j + 1];
    PrefixKept(s[1..], p, r, |p| - 1);
  }

  lemma ShiftOrHead(r: string, t: string, p: string, i: nat)
    requires |r| == 1 && |p| > 0 && p[0] != r[0]
    ensures OccursAt(r + t, p, i) ==> i > 0 && OccursAt(t, p, i - 1)
  {
    if i > 0 {
      ShiftOccurs(r, t, p, i);
    } else {
      assert (r + t)[0] == r[0];
    }
  }

  /** An occurrence at the head of `[c] + t` is `c` followed by an occurrence of the rest at the head of `t`. */
  lemma HeadOccurrence(c: char, t: string, q: string)
    requires |q| > 0
    ensures OccursAt([c] + t, q, 0) <==> c == q[0] && |q| - 1 <= |t| && t[..|q| - 1] == q[1..]
  {
    if |q| <= |t| + 1 {
      assert ([c] + t)[0..|q|] == [c] + t[..|q| - 1];
    }
  }

  lemma NoOccurrenceInSuffix(s: string, q: string, m: nat)
    requires m <= |s| && !Contains(s, q)
    ensures !Contains(s[m..], q)
  {
    forall i: nat ensures !OccursAt(s[m..], q, i) {
      if OccursAt(s[m..], q, i) {
        assert s[m..][i..i + |q|] == s[m + i..m + i + |q|];
        assert OccursAt(s, q, m + i);
      }
    }
  }

  /**
   * `str_replace` with a one-character replacement that does not occur in
   * `q` cannot create an occurrence of `q`.
   */
  lemma {:induction false} ReplaceKeepsAbsence(s: string, p: string, r: string, q: string)
    requires |p| > 0 && |r| == 1 && |q| > 0
    requires forall j :: 0 <= j < |q| ==> q[j] != r[0]
    requires !Contains(s, q)
    ensures !Contains(ReplaceAll(s, p, r), q)
    decreases |s|
  {
    var out := ReplaceAll(s, p, r);
    if |s| >= |p| {
      if s[..|p|] == p {
        NoOccurrenceInSuffix(s, q, |p|);
        ReplaceKeepsAbsence(s[|p|..], p, r, q);
        var t := ReplaceAll(s[|p|..], p, r);
        assert out == r + t;
        forall i: nat ensures !OccursAt(out, q, i) {
          ShiftOrHead(r, t, q, i);
        }
      } else {
        NoOccurrenceInSuffix(s, q, 1);
        ReplaceKeepsAbsence(s[1..], p, r, q);
        var t := ReplaceAll(s[1..], p, r);
        assert out == [s[0]] + t;
        PrefixKept(s[1..], p, r, |q| - 1);
        forall i: nat ensures !OccursAt(out, q, i) {
          if i == 0 {
            HeadOccurrence(s[0], t, q);
            HeadOccurrence(s[0], s[1..], q);
            assert [s[0]] + s[1..] == s;
            assert OccursAt(out, q, 0) ==> forall j :: 0 <= j < |q| - 1 ==> t[j] == q[j + 1];
          } else {
            ShiftOccurs([s[0]], t, q, i);
          }
        }
      }
    }
  }

  /** `join($sep, $parts)` */
  function Join(sep: string, parts: seq<string>): string {
    if |parts| == 0 then ""
    else if |parts| == 1 then parts[0]
    else parts[0] + sep + Join(sep, parts[1..])
  }
}
