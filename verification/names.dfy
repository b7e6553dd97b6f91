/** What sanitising makes of a name, said without the scan that does it. */
module Names {
  import opened Credentials
  import opened Text
  import S = Sync

  predicate Forbidden(c: char) {
    c == '\n' || c == '\r' || c == '\'' || c == '"' || c == ';'
  }

  /** A stretch of a name: two hyphens that go together, a character that goes, or one that stays. */
  datatype Piece = Pair | Gone(c: char) | Kept(c: char)

  function Spelt(p: Piece): string {
    match p
    case Pair => "--"
    case Gone(c) => [c]
    case Kept(c) => [c]
  }

  function Spelling(ps: seq<Piece>): string {
    if ps == [] then "" else Spelt(ps[0]) + Spelling(ps[1..])
  }

  /** What is left: blanks and tabs as underscores, everything else that stays as it is. */
  function Left(ps: seq<Piece>): string {
    if ps == [] then ""
    else
      (match ps[0]
       case Pair => ""
       case Gone(_) => ""
       case Kept(c) => if c == ' ' || c == '\t' then "_" else [c])
      + Left(ps[1..])
  }

  /** Exactly the forbidden characters go by themselves, and of two adjacent hyphens the first never stays. */
  predicate Proper(ps: seq<Piece>) {
    && (forall i :: 0 <= i < |ps| ==> (ps[i].Gone? ==> Forbidden(ps[i].c)) && (ps[i].Kept? ==> !Forbidden(ps[i].c)))
    && forall i :: 0 <= i < |ps| - 1 && ps[i] == Kept('-') ==> ps[i + 1] != Pair && ps[i + 1] != Kept('-')
  }

  lemma ProperTail(ps: seq<Piece>)
    requires Proper(ps) && ps != []
    ensures Proper(ps[1..])
  {
  }

  lemma ForbiddenChars(c: char)
    ensures c in "\n\r'\";" <==> Forbidden(c)
  {
    var s := "\n\r'\";";
    assert s[0] == '\n' && s[1] == '\r' && s[2] == '\'' && s[3] == '"' && s[4] == ';';
  }

  lemma {:induction false} ScrubSpelling(ps: seq<Piece>)
    requires Proper(ps)
    ensures S.Scrub(Spelling(ps)) == Left(ps)
  {
    if ps != [] {
      var rest := Spelling(ps[1..]);
      ProperTail(ps);
      ScrubSpelling(ps[1..]);
      match ps[0] {
        case Pair =>
          ForbiddenChars('-');
          assert ("--" + rest)[2..] == rest;
        case Gone(c) =>
          ForbiddenChars(c);
          assert ([c] + rest)[1..] == rest;
        case Kept(c) =>
          ForbiddenChars(c);
          assert ([c] + rest)[1..] == rest;
          if c == '-' && rest != "" {
            assert ps[1] != Pair && ps[1] != Kept('-');
          }
      }
    }
  }

  /** Main result: however a name is cut into pieces with exactly the forbidden characters going by themselves and
      no hyphen staying before another, what is left of the pieces, up to 64 characters, is the sanitised name. So
      nothing disappears but surrounding space, forbidden characters, pairs of hyphens, and what is beyond the
      64th character. */
  lemma SanitizeIs(s: string, ps: seq<Piece>)
    requires Proper(ps) && Spelling(ps) == Trim(s)
    ensures S.Sanitize(s) == if |Left(ps)| > 64 then Left(ps)[..64] else Left(ps)
  {
    ScrubSpelling(ps);
  }

  /** Every name can be cut that way. */
  lemma {:induction false} Pieces(s: string) returns (ps: seq<Piece>)
    ensures Proper(ps) && Spelling(ps) == s
  {
    if s == "" {
      ps := [];
    } else if |s| > 1 && s[0] == '-' && s[1] == '-' {
      var rest := Pieces(s[2..]);
      ps := [Pair] + rest;
      assert s == "--" + s[2..];
    } else {
      var rest := Pieces(s[1..]);
      ps := [if Forbidden(s[0]) then Gone(s[0]) else Kept(s[0])] + rest;
      assert s == [s[0]] + s[1..];
      if rest != [] {
        SpellingStarts(rest);
      }
    }
  }

  lemma SpellingStarts(ps: seq<Piece>)
    requires ps != []
    ensures Spelling(ps) != "" && Spelling(ps)[0] == if ps[0].Pair? then '-' else ps[0].c
  {
  }

  /** A trimmed name without forbidden characters and pairs of hyphens keeps every character, up to the 64th, but for
      an underscore in place of each blank and tab. */
  lemma PlainName(s: string)
    requires Trim(s) == s && forall i :: 0 <= i < |s| ==> !Forbidden(s[i])
    requires forall i :: 0 <= i < |s| - 1 ==> !(s[i] == '-' && s[i + 1] == '-')
    ensures |S.Sanitize(s)| == if |s| < 64 then |s| else 64
    ensures forall i :: 0 <= i < |S.Sanitize(s)| ==> S.Sanitize(s)[i] == if s[i] == ' ' || s[i] == '\t' then '_' else s[i]
  {
    hide Trim;
    PlainScrub(s);
  }

  lemma {:induction false} PlainScrub(s: string)
    requires forall i :: 0 <= i < |s| ==> !Forbidden(s[i])
    requires forall i :: 0 <= i < |s| - 1 ==> !(s[i] == '-' && s[i + 1] == '-')
    ensures |S.Scrub(s)| == |s|
    ensures forall i :: 0 <= i < |s| ==> S.Scrub(s)[i] == if s[i] == ' ' || s[i] == '\t' then '_' else s[i]
  {
    if s != "" {
      ForbiddenChars(s[0]);
      PlainScrub(s[1..]);
      var head := if s[0] == ' ' || s[0] == '\t' then "_" else [s[0]];
      assert S.Scrub(s) == head + S.Scrub(s[1..]);
    }
  }

  /** A file client named "john doe" gets an account "john_doe". */
  lemma BlankExample(db: S.Tables, tag: string, stored: Stored)
    requires tag in db.inbounds && "john_doe" !in db.users
    ensures var db' := S.SyncClient(db, tag, Parsed("john doe", stored));
            && db'.users == db.users["john_doe" := S.User("john_doe", true)]
            && "john_doe" in db'.inbounds[tag].clients && db'.inbounds[tag].clients["john_doe"].stored == stored
  {
    PlainName("john doe");
    var r := S.Sanitize("john doe");
    assert r == "john_doe";
    assert Trim("john_doe") == "john_doe";
    hide S.Sanitize, Trim;
  }

  lemma SpellingHead(p: Piece, ps: seq<Piece>)
    ensures Spelling([p] + ps) == Spelt(p) + Spelling(ps)
    ensures Left([p] + ps) == Left([p]) + Left(ps)
  {
    assert ([p] + ps)[1..] == ps && [p][1..] == [];
  }

  /** Quotes, semicolons and pairs of hyphens go, also next to each other; a third hyphen stays. */
  lemma ForbiddenExample()
    ensures S.Sanitize("a';---b") == "a-b"
  {
    var b := [Kept('b')];
    var h, p := [Kept('-')] + b, [Pair] + ([Kept('-')] + b);
    var g := [Gone(';')] + p;
    var q := [Gone('\'')] + g;
    SpellingHead(Kept('-'), b);
    SpellingHead(Pair, h);
    SpellingHead(Gone(';'), p);
    SpellingHead(Gone('\''), g);
    SpellingHead(Kept('a'), q);
    assert Spelling([Kept('a')] + q) == "a';---b" && Left([Kept('a')] + q) == "a-b";
    assert Trim("a';---b") == "a';---b";
    hide Trim, S.Sanitize, Spelling, Left;
    SanitizeIs("a';---b", [Kept('a')] + q);
  }
}
