/** The string handling the repository relies on: trimming, lower-casing, prefix and substring tests,
    decimal numerals. Characters outside ASCII are left alone. */
module Text {

  predicate IsSpace(c: char) {
    c == ' ' || '\t' <= c <= '\r'
  }

  function TrimLeft(s: string): (r: string)
    ensures r == [] || !IsSpace(r[0])
    ensures s != [] && !IsSpace(s[0]) ==> r == s
  {
    if s != [] && IsSpace(s[0]) then TrimLeft(s[1..]) else s
  }

  function TrimRight(s: string): (r: string)
    ensures |r| <= |s| && r == s[..|r|]
    ensures r == [] || !IsSpace(r[|r| - 1])
    ensures s != [] && !IsSpace(s[|s| - 1]) ==> r == s
  {
    if s != [] && IsSpace(s[|s| - 1]) then TrimRight(s[..|s| - 1]) else s
  }

  function Trim(s: string): (r: string)
    ensures r == [] || (!IsSpace(r[0]) && !IsSpace(r[|r| - 1]))
  {
    TrimRight(TrimLeft(s))
  }

  lemma TrimIdempotent(s: string)
    ensures Trim(Trim(s)) == Trim(s)
  {
    var t := Trim(s);
    assert TrimLeft(t) == t;
    assert TrimRight(t) == t;
  }

  function LowerChar(c: char): char {
    if 'A' <= c <= 'Z' then (c as int + 32) as char else c
  }

  function Lower(s: string): (r: string)
    ensures |r| == |s|
    ensures forall i :: 0 <= i < |s| ==> r[i] == LowerChar(s[i])
  {
    seq(|s|, i requires 0 <= i < |s| => LowerChar(s[i]))
  }

  /** The comparison form used all over: trimmed, then lower-cased. */
  function Fold(s: string): string {
    Lower(Trim(s))
  }

  lemma FoldTrim(s: string)
    ensures Fold(Trim(s)) == Fold(s)
  {
    TrimIdempotent(s);
  }

  predicate HasPrefix(s: string, p: string) {
    |p| <= |s| && s[..|p|] == p
  }

  predicate Contains(s: string, p: string) {
    HasPrefix(s, p) || (s != [] && Contains(s[1..], p))
  }

  function FirstNonEmpty(a: string, b: string): string {
    if a != "" then a else b
  }

  // ----- decimal numerals -----

  function Digit(d: nat): char
    requires d < 10
  {
    ('0' as int + d) as char
  }

  function Decimal(n: nat): (s: string)
    ensures s != []
    ensures forall i :: 0 <= i < |s| ==> '0' <= s[i] <= '9'
  {
    if n < 10 then [Digit(n)] else Decimal(n / 10) + [Digit(n % 10)]
  }

  function Value(s: string): int {
    if s == [] then 0 else Value(s[..|s| - 1]) * 10 + (s[|s| - 1] as int - '0' as int)
  }

  lemma {:induction false} ValueOfDecimal(n: nat)
    ensures Value(Decimal(n)) == n
  {
    var s := Decimal(n);
    if n < 10 {
      assert s[..|s| - 1] == [];
    } else {
      ValueOfDecimal(n / 10);
      assert s[..|s| - 1] == Decimal(n / 10);
    }
  }

  predicate HyphenFree(s: string) {
    forall i :: 0 <= i < |s| ==> s[i] != '-'
  }

  /** What follows the last hyphen is determined by the whole text. */
  lemma LastHyphen(a: string, d: string, b: string, e: string)
    requires HyphenFree(d) && HyphenFree(e)
    requires a + "-" + d == b + "-" + e
    ensures d == e
  {
    var s := a + "-" + d;
    var t := b + "-" + e;
    assert s[|a|] == '-' && s[|b|] == '-';
    forall k | |a| < k < |s|
      ensures s[k] != '-'
    {
      assert s[k] == d[k - |a| - 1];
    }
    forall k | |b| < k < |s|
      ensures s[k] != '-'
    {
      assert t[k] == e[k - |b| - 1];
    }
    assert d == s[|a| + 1..] == t[|b| + 1..] == e;
  }
}
