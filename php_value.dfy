/**
 * The values that flow through the request pipeline: request fields (scalars
 * or JSON-decoded structures), sources, and the JSON document served back.
 * The conversions here follow PHP 5's rules for `empty()`, `(bool)`,
 * `(string)` and loose `==` against a word literal.
 */
module PhpValues {
  import opened Wrappers
  import opened PhpArrays

  /**
   * A PHP value as the service sees it. Objects do not occur, since JSON is
   * decoded to arrays; floats (JSON numbers with a fraction, or beyond
   * PHP_INT_MAX) are not modelled.
   */
  datatype Value = Null | Bool(b: bool) | Int(i: int) | Str(s: string) | Arr(a: PArray<Value>)

  /** `empty($s)` on a string: the empty string and "0". */
  predicate EmptyString(s: string) {
    s == "" || s == "0"
  }

  /** `empty($v)` */
  predicate IsEmpty(v: Value) {
    match v
    case Null => true
    case Bool(b) => !b
    case Int(i) => i == 0
    case Str(s) => EmptyString(s)
    case Arr(a) => |a.entries| == 0
  }

  function DigitChar(d: nat): char
    requires d < 10
  {
    "0123456789"[d]
  }

  /** Decimal rendering of a natural number, most significant digit first. */
  function NatToString(n: nat): (s: string)
    ensures |s| > 0
    ensures forall i :: 0 <= i < |s| ==> '0' <= s[i] <= '9'
  {
    if n < 10 then [DigitChar(n)] else NatToString(n / 10) + [DigitChar(n % 10)]
  }

  /** `(string) $i` for an integer. */
  function IntToString(i: int): string {
    if i < 0 then "-" + NatToString(-i) else NatToString(i)
  }

  /** `(string) $v` for a scalar; an array has no string form (PHP raises a warning). */
  function ToPhpString(v: Value): (r: Option<string>)
    ensures r.None? <==> v.Arr?
    ensures v.Str? ==> r == Some(v.s)
    ensures v.Null? || v == Bool(false) ==> r == Some("")
  {
    match v
    case Null => Some("")
    case Bool(b) => Some(if b then "1" else "")
    case Int(i) => Some(IntToString(i))
    case Str(s) => Some(s)
    case Arr(_) => None
  }

  /** A lower-case word such as 'file' or 'body': a non-numeric string literal. */
  predicate IsWord(w: string) {
    |w| > 0 && forall i :: 0 <= i < |w| ==> 'a' <= w[i] <= 'z'
  }

  /**
   * `$v == 'word'` under PHP 5's loose comparison: a string compares as a
   * string, a boolean against the literal's truth value (true), an integer
   * against the literal converted to a number (0), null against "" and an
   * array never equals a string.
   */
  predicate LooseEqualsWord(v: Value, w: string)
    requires IsWord(w)
  {
    match v
    case Null => false
    case Bool(b) => b
    case Int(i) => i == 0
    case Str(s) => s == w
    case Arr(_) => false
  }

  /** Of two different words, a string value loosely equals at most one, and exactly the one it spells. */
  lemma LooseEqualsWordOnStrings(s: string, w: string, w': string)
    requires IsWord(w) && IsWord(w') && w != w'
    ensures LooseEqualsWord(Str(s), w) <==> s == w
    ensures !(LooseEqualsWord(Str(s), w) && LooseEqualsWord(Str(s), w'))
  {
  }
}
