/**
 * Character classes and the few Python string operations the pipeline
 * relies on: `str.strip()`, `str.upper()` and `str.join`.
 */
module Text {

  /** An ASCII decimal digit: the part of Python's `\d` this model covers. */
  predicate IsDigit(c: char)
  {
    '0' <= c <= '9'
  }

  /**
   * Python's whitespace class, the characters for which `str.isspace()` holds;
   * the same class is matched by `\s` in a str pattern and removed by `str.strip()`.
   */
  predicate IsSpace(c: char)
  {
    || ('\t' <= c <= '\r')
    || ('\U{1C}' <= c <= '\U{1F}')
    || c == ' '
    || c == '\U{85}'
    || c == '\U{A0}'
    || c == '\U{1680}'
    || ('\U{2000}' <= c <= '\U{200A}')
    || c == '\U{2028}'
    || c == '\U{2029}'
    || c == '\U{202F}'
    || c == '\U{205F}'
    || c == '\U{3000}'
  }

  predicate AllDigits(s: string)
  {
    forall i | 0 <= i < |s| :: IsDigit(s[i])
  }

  predicate AllSpaces(s: string)
  {
    forall i | 0 <= i < |s| :: IsSpace(s[i])
  }

  /** The value `int()` gives a string of decimal digits. */
  function DecimalValue(g: string): (v: nat)
    requires |g| > 0 && AllDigits(g)
    ensures |g| == 1 ==> v == g[0] as int - '0' as int
    ensures |g| == 1 ==> v < 10
  {
    var last := g[|g| - 1] as int - '0' as int;
    if |g| == 1 then last else 10 * DecimalValue(g[..|g| - 1]) + last
  }

  /** `str.lstrip()`: drop the leading whitespace. */
  function TrimLeft(s: string): string
  {
    if |s| > 0 && IsSpace(s[0]) then TrimLeft(s[1..]) else s
  }

  /** What `TrimLeft` keeps is a suffix that does not start with whitespace; what it drops is whitespace. */
  lemma {:induction false} TrimLeftSpec(s: string)
    ensures var r := TrimLeft(s);
      && |r| <= |s| && r == s[|s| - |r|..]
      && (forall i | 0 <= i < |s| - |r| :: IsSpace(s[i]))
      && (|r| > 0 ==> !IsSpace(r[0]))
  {
    if |s| > 0 && IsSpace(s[0]) {
      var t := s[1..];
      TrimLeftSpec(t);
      assert forall i | 1 <= i < |s| :: s[i] == t[i - 1];
    }
  }

  /** `str.rstrip()`: drop the trailing whitespace. */
  function TrimRight(s: string): string
  {
    if |s| > 0 && IsSpace(s[|s| - 1]) then TrimRight(s[..|s| - 1]) else s
  }

  /** What `TrimRight` keeps is a prefix that does not end with whitespace; what it drops is whitespace. */
  lemma {:induction false} TrimRightSpec(s: string)
    ensures var r := TrimRight(s);
      && |r| <= |s| && r == s[..|r|]
      && (forall i | |r| <= i < |s| :: IsSpace(s[i]))
      && (|r| > 0 ==> !IsSpace(r[|r| - 1]))
  {
    if |s| > 0 && IsSpace(s[|s| - 1]) {
      var t := s[..|s| - 1];
      TrimRightSpec(t);
      assert forall i | 0 <= i < |t| :: s[i] == t[i];
    }
  }

  /** How many leading characters `str.strip()` removes. */
  function StripOffset(s: string): nat
  {
    TrimLeftSpec(s);
    |s| - |TrimLeft(s)|
  }

  /** `str.strip()`: drop the whitespace at both ends. */
  function Strip(s: string): string
  {
    TrimRight(TrimLeft(s))
  }

  /**
   * The result of `Strip` is a contiguous piece of `s` that neither starts
   * nor ends with whitespace, and everything cut off on either side is
   * whitespace.
   */
  lemma StripSpec(s: string)
    ensures var r, off := Strip(s), StripOffset(s);
      && off + |r| <= |s|
      && r == s[off..off + |r|]
      && (forall i | 0 <= i < off :: IsSpace(s[i]))
      && (forall i | off + |r| <= i < |s| :: IsSpace(s[i]))
      && (|r| > 0 ==> !IsSpace(r[0]) && !IsSpace(r[|r| - 1]))
  {
    var l := TrimLeft(s);
    TrimLeftSpec(s);
    TrimRightSpec(l);
    var r, off := Strip(s), StripOffset(s);
    assert forall i | off + |r| <= i < |s| :: s[i] == l[i - off];
  }

  /** Stripping twice changes nothing. */
  lemma StripIdempotent(s: string)
    ensures Strip(Strip(s)) == Strip(s)
  {
    var r := Strip(s);
    StripSpec(s);
    assert TrimLeft(r) == r;
    assert TrimRight(r) == r;
  }

  /** `str.upper()` on ASCII letters. */
  function UpperChar(c: char): char
  {
    if 'a' <= c <= 'z' then (c as int - 'a' as int + 'A' as int) as char else c
  }

  function ToUpper(s: string): (r: string)
    ensures |r| == |s|
  {
    seq(|s|, k requires 0 <= k < |s| => UpperChar(s[k]))
  }

  /** `sep.join(xs)`. */
  function Join(sep: string, xs: seq<string>): string
  {
    if |xs| == 0 then ""
    else if |xs| == 1 then xs[0]
    else xs[0] + sep + Join(sep, xs[1..])
  }
}
