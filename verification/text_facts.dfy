/** The text operations in terms of the characters themselves. */
module TextFacts {
  import opened Text

  /** Blank, tab, line feed, vertical tab, form feed, carriage return. */
  predicate Space(c: char) {
    c == ' ' || c == '\t' || c == '\n' || c == '\U{000B}' || c == '\U{000C}' || c == '\r'
  }

  predicate AllSpace(s: string) {
    forall i :: 0 <= i < |s| ==> Space(s[i])
  }

  lemma SpaceIs(c: char)
    ensures IsSpace(c) <==> Space(c)
  {
  }

  lemma TrimLeftStep(c: char, s: string)
    ensures TrimLeft([c] + s) == if Space(c) then TrimLeft(s) else [c] + s
  {
    SpaceIs(c);
    assert ([c] + s)[1..] == s;
  }

  lemma TrimLeftNone(s: string)
    requires s != "" ==> !Space(s[0])
    ensures TrimLeft(s) == s
  {
    if s != "" {
      SpaceIs(s[0]);
    }
  }

  lemma {:induction false} TrimLeftOff(before: string, s: string)
    requires AllSpace(before) && (s != "" ==> !Space(s[0]))
    ensures TrimLeft(before + s) == s
  {
    hide TrimLeft;
    if before == "" {
      assert before + s == s;
      TrimLeftNone(s);
    } else {
      TrimLeftOff(before[1..], s);
      assert before + s == [before[0]] + (before[1..] + s);
      TrimLeftStep(before[0], before[1..] + s);
    }
  }

  lemma TrimRightStep(s: string, c: char)
    ensures TrimRight(s + [c]) == if Space(c) then TrimRight(s) else s + [c]
  {
    SpaceIs(c);
    var t := s + [c];
    assert t != [] && t[|t| - 1] == c && t[..|t| - 1] == s;
  }

  lemma {:induction false} TrimRightOff(s: string, after: string)
    requires AllSpace(after) && (s != "" ==> !Space(s[|s| - 1]))
    ensures TrimRight(s + after) == s
  {
    hide TrimRight;
    if after == "" {
      assert s + after == s;
      TrimRightNone(s);
    } else {
      var n := |after| - 1;
      TrimRightOff(s, after[..n]);
      assert s + after == (s + after[..n]) + [after[n]];
      TrimRightStep(s + after[..n], after[n]);
    }
  }

  lemma TrimRightNone(s: string)
    requires s != "" ==> !Space(s[|s| - 1])
    ensures TrimRight(s) == s
  {
    if s != "" {
      SpaceIs(s[|s| - 1]);
    }
  }

  /** Trimming takes off exactly the surrounding space. */
  lemma TrimIs(before: string, middle: string, after: string)
    requires AllSpace(before) && AllSpace(after)
    requires middle != "" ==> !Space(middle[0]) && !Space(middle[|middle| - 1])
    ensures Trim(before + middle + after) == middle
  {
    if middle == "" {
      assert before + middle + after == (before + after) + "";
      TrimLeftOff(before + after, "");
    } else {
      assert before + middle + after == before + (middle + after);
      TrimLeftOff(before, middle + after);
      TrimRightOff(middle, after);
    }
  }

  lemma {:induction false} LeftPart(s: string) returns (before: string)
    ensures AllSpace(before) && s == before + TrimLeft(s)
  {
    if s == "" || !Space(s[0]) {
      before := "";
      TrimLeftNone(s);
    } else {
      hide TrimLeft;
      var more := LeftPart(s[1..]);
      assert s == [s[0]] + s[1..];
      TrimLeftStep(s[0], s[1..]);
      before := [s[0]] + more;
      assert before + TrimLeft(s) == [s[0]] + (more + TrimLeft(s[1..]));
    }
  }

  lemma {:induction false} RightPart(s: string) returns (after: string)
    ensures AllSpace(after) && s == TrimRight(s) + after
  {
    if s == "" || !Space(s[|s| - 1]) {
      after := "";
      TrimRightNone(s);
    } else {
      hide TrimRight;
      var n := |s| - 1;
      var more := RightPart(s[..n]);
      assert s == s[..n] + [s[n]];
      TrimRightStep(s[..n], s[n]);
      after := more + [s[n]];
      assert TrimRight(s) + after == (TrimRight(s[..n]) + more) + [s[n]];
    }
  }

  /** Every text is its trimmed form with space around it. */
  lemma TrimParts(s: string) returns (before: string, after: string)
    ensures AllSpace(before) && AllSpace(after) && s == before + Trim(s) + after
    ensures Trim(s) != "" ==> !Space(Trim(s)[0]) && !Space(Trim(s)[|Trim(s)| - 1])
  {
    before := LeftPart(s);
    after := RightPart(TrimLeft(s));
    if Trim(s) != "" {
      SpaceIs(Trim(s)[0]);
      SpaceIs(Trim(s)[|Trim(s)| - 1]);
    }
  }

  const CAPITALS := "ABCDEFGHIJKLMNOPQRSTUVWXYZ"
  const SMALL := "abcdefghijklmnopqrstuvwxyz"

  /** Lower-casing replaces the 26 capitals, each by the small letter of its place, and nothing else. */
  lemma LowerIs(s: string, i: nat)
    requires i < |s|
    ensures forall k :: 0 <= k < |CAPITALS| && s[i] == CAPITALS[k] ==> Lower(s)[i] == SMALL[k]
    ensures s[i] !in CAPITALS ==> Lower(s)[i] == s[i]
  {
    hide Lower;
    Alphabet(s[i]);
    assert Lower(s)[i] == LowerChar(s[i]);
  }

  lemma Alphabet(c: char)
    ensures |CAPITALS| == |SMALL| == 26
    ensures forall k :: 0 <= k < 26 ==> CAPITALS[k] as int == 65 + k && SMALL[k] as int == 97 + k
    ensures 65 <= c as int <= 90 ==> c in CAPITALS
  {
    if 65 <= c as int <= 90 {
      assert CAPITALS[c as int - 65] == c;
    }
  }
}
