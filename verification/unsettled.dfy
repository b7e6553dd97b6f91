/** What the two-way sync does where it does not settle: an inbound that does not show what is written to it gets
    the same client in every pass. Concrete inputs for each way to miss the fixpoint in the second pass. */
module Unsettled {
  import opened ConfigFile
  import opened Credentials
  import opened Fixpoint
  import opened Lists
  import opened Options
  import opened Passes
  import opened Restore
  import opened RestoreResults
  import opened Settling
  import opened Text
  import opened TwoWay
  import opened TwoWayResults
  import S = Sync
  import R = SyncResults
  import Resync

  // ----- an inbound that never shows what is written -----

  /** An inbound that is missing somebody and will not show them when written. */
  predicate Stuck(s: State, ib: Inbound, u: string) {
    ib in Flat(s.dir) && Writes(ib) && !Receptive(ib) && !SingleUser(ib) && u in Missing(s.db, ib)
  }

  /** Whatever is appended to such an inbound, it shows what it showed. */
  lemma EvolvedStuck(db: S.Tables, ib: Inbound, ib': Inbound)
    requires Evolved(db, ib, ib') && ib.Inbound? && ib.settings.Settings? && !Receptive(ib) && !SingleUser(ib)
    ensures ib'.Inbound? && ib'.settings.Settings? && !Receptive(ib') && !SingleUser(ib')
    ensures ib'.tag == ib.tag && ib'.port == ib.port && Shows(ib') == Shows(ib)
  {
    hide Trim, Lower, Read, Written;
    if ib' != ib {
      SocksHasNoClients();
      var x, z := ClientsOf(ib.settings), ClientsOf(ib'.settings);
      assert forall i :: 0 <= i < |x| ==> x[i] == z[i];
      assert Extract(ib', map[]) == Extract(ib, map[]);
    }
  }

  lemma MissingLooks(db: S.Tables, ib: Inbound, ib': Inbound)
    requires ib.Inbound? && ib'.Inbound? && ib'.tag == ib.tag && Shows(ib') == Shows(ib)
    ensures Missing(db, ib') == Missing(db, ib)
  {
    hide Shows, Writable;
  }

  /** What every pass of a run starts from. */
  ghost predicate Ready(s: State, enc: map<string, string>) {
    CleanState(s, enc) || Reflected(s.db, s.dir, enc)
  }

  lemma ReadyAgain(s: State, s': State, enc: map<string, string>, back: Back)
    returns (order: seq<string>, tags: seq<string>, listing: map<string, seq<Row>>)
    requires Ready(s, enc) && PassTo(s, enc, s', back)
    ensures Pass(s.db, s.dir, enc, order, tags, listing, s'.db, back) && s'.dir == back.dir
    ensures Reflected(s'.db, s.dir, enc) && Reflected(s'.db, s'.dir, enc) && EvolvedDir(s'.db, s.dir, s'.dir)
  {
    hide CleanTables, CleanDir, R.NoTagMoved, Reflected, EvolvedDir, ParseDir, Pass;
    order, tags, listing :| Pass(s.db, s.dir, enc, order, tags, listing, s'.db, back) && s'.dir == back.dir;
    if CleanState(s, enc) {
      PassReflects(s.db, s.dir, enc, order, tags, listing, s'.db, back);
    } else {
      StaysReflected(s.db, s.dir, enc, order, tags, listing, s'.db, back);
    }
  }

  /** A sync leaves a missing user missing. */
  lemma MissingStays(s: State, enc: map<string, string>, order: seq<string>, ib: Inbound, u: string)
    requires Ready(s, enc) && R.Enumerates(order, ParseDir(s.dir, enc)) && ib in Flat(s.dir) && Parsable(ib)
    requires u in Missing(s.db, ib)
    ensures u in Missing(S.ProcessAll(s.db, ParseDir(s.dir, enc), order), ib)
  {
    hide CleanState, Reflected, ParseDir, S.ProcessAll, Flat, Missing, Shows, Stands, Barred;
    MissingIsUser(s.db, ib);
    if CleanState(s, enc) {
      MissingAfterSync(s, enc, order, ib);
    } else {
      MissingAgain(s.db, s.dir, enc, order, ib, u);
    }
  }

  /** A pass writes the missing user and leaves them missing. */
  lemma StuckStays(s: State, s': State, enc: map<string, string>, back: Back, ib: Inbound, u: string) returns (ib': Inbound)
    requires Ready(s, enc) && PassTo(s, enc, s', back) && Stuck(s, ib, u)
    ensures back.added > 0 && Ready(s', enc) && Stuck(s', ib', u)
  {
    hide CleanState, CleanTables, Orderly, Mirrors, S.ProcessAll, ParseDir, Flat, Receptive, SingleUser, EvolvedDir, Evolved, SyncBack,
         Answer, Missing, Settled, R.Enumerates, Shows;
    var order, tags, listing := ReadyAgain(s, s', enc, back);
    MissingStays(s, enc, order, ib, u);
    SettledTags(s'.db, s.dir, tags, listing);
    SyncBackIdle(s.dir, tags, listing);
    EvolvedFlat(s'.db, s.dir, s'.dir);
    var i :| 0 <= i < |Flat(s.dir)| && Flat(s.dir)[i] == ib;
    ib' := Flat(s'.dir)[i];
    EvolvedStuck(s'.db, ib, ib');
    MissingLooks(s'.db, ib, ib');
  }

  lemma {:induction false} StuckAt(states: seq<State>, enc: map<string, string>, ib: Inbound, u: string, n: nat) returns (ibn: Inbound)
    requires n < |states|
    requires forall i :: 0 <= i < |states| - 1 ==> IsPass(states[i], states[i + 1], enc)
    requires CleanState(states[0], enc) && Stuck(states[0], ib, u)
    ensures Ready(states[n], enc) && Stuck(states[n], ibn, u)
  {
    hide PassTo, CleanState, Reflected, Stuck;
    if n == 0 {
      ibn := ib;
    } else {
      var before := StuckAt(states, enc, ib, u, n - 1);
      assert IsPass(states[n - 1], states[n - 1 + 1], enc);
      var back :| PassTo(states[n - 1], enc, states[n], back);
      ibn := StuckStays(states[n - 1], states[n], enc, back, before, u);
    }
  }

  /** Main result: over a run of passes from clean files, whatever the users are called, an inbound that is neither
      receptive nor single-user and is missing an active user with a writable credential gets that user written again
      by every single pass. */
  lemma {:induction false} NeverSettles(states: seq<State>, enc: map<string, string>, ib: Inbound, u: string, n: nat, back: Back)
    requires n + 1 < |states| && PassTo(states[n], enc, states[n + 1], back)
    requires forall i :: 0 <= i < |states| - 1 ==> IsPass(states[i], states[i + 1], enc)
    requires CleanState(states[0], enc) && Stuck(states[0], ib, u)
    ensures back.added > 0
  {
    hide PassTo, CleanState, Reflected, Stuck;
    var ibn := StuckAt(states, enc, ib, u, n);
    var _ := StuckStays(states[n], states[n + 1], enc, back, ibn, u);
  }

  // ----- inbounds that show what is written, and clean names -----

  /** A receptive inbound stays so, and a single-user one becomes receptive once it shows anybody else. */
  lemma EvolvedReceptive(db: S.Tables, ib: Inbound, ib': Inbound)
    requires Evolved(db, ib, ib') && (Receptive(ib) || SingleUser(ib))
    ensures ib'.Inbound?
    ensures Receptive(ib') || (SingleUser(ib) && Shows(ib') == Shows(ib))
  {
    hide Trim, Lower, Read, Written, Extract;
    if ib' != ib {
      var x, z := ClientsOf(ib.settings), ClientsOf(ib'.settings);
      assert z == x + z[|x|..];
      AppendedAreItems(db, ib, ib');
      assert HasAlien(z) ==> HasAlien(x);
    }
    if SingleUser(ib) && SingleUser(ib') {
      SingleUserShown(ib, map[]);
      SingleUserShown(ib', map[]);
    } else {
      SocksHasNoClients();
    }
  }

  lemma AppendedAreItems(db: S.Tables, ib: Inbound, ib': Inbound)
    requires Evolved(db, ib, ib') && ib' != ib
    ensures forall i :: |ClientsOf(ib.settings)| <= i < |ClientsOf(ib'.settings)| ==> ClientsOf(ib'.settings)[i].Item?
  {
    hide Trim, ToItem;
    var x, z := ClientsOf(ib.settings), ClientsOf(ib'.settings);
    forall i | |x| <= i < |z|
      ensures z[i].Item?
    {
      assert z[|x|..][i - |x|] == z[i];
      assert z[i] in z[|x|..];
    }
  }

  /** After one pass over clean names everything is clean. */
  lemma CleanNext(s: State, s': State, enc: map<string, string>)
    requires CleanState(s, enc) && CleanNames(s.db) && IsPass(s, s', enc)
    ensures CleanState(s', enc) && CleanNames(s'.db)
  {
    hide CleanTables, CleanDir, R.NoTagMoved, ParseDir, S.ProcessAll, SyncBack, Answer, EvolvedDir, Clean, R.Enumerates, Orderly, Known;
    var back :| PassTo(s, enc, s', back);
    var order, tags, listing :| Pass(s.db, s.dir, enc, order, tags, listing, s'.db, back) && s'.dir == back.dir;
    PassReflects(s.db, s.dir, enc, order, tags, listing, s'.db, back);
    Resync.OwnedNoMove(s'.db, ParseDir(s'.dir, enc));
    forall u | u in s'.db.users
      ensures Clean(u)
    {
      KnownAfterSync(s, enc, order, u);
      KnownIsClean(s, enc, u);
    }
    CleanDirEvolved(s'.db, s.dir, s'.dir);
  }

  lemma KnownIsClean(s: State, enc: map<string, string>, n: string)
    requires CleanState(s, enc) && CleanNames(s.db) && Known(s.db, s.dir, n)
    ensures Clean(n)
  {
    hide Shows, Flat, Clean, CleanDir, CleanTables, R.NoTagMoved;
    if n !in s.db.users {
      var ib :| ib in Flat(s.dir) && Parsable(ib) && n in Shows(ib);
      CleanClients(s.dir, enc, ib);
    }
  }

  // ----- passes exist -----

  lemma SomeAnswer(db: S.Tables, t: string) returns (rows: seq<Row>)
    ensures Answer(db, t, rows)
  {
    hide XrayEmail;
    var active := if t in db.inbounds then set u | u in db.inbounds[t].clients && Active(db, t, u) else {};
    var order := SomeOrder(active);
    rows := seq(|order|, i requires 0 <= i < |order| => assert order[i] in order; RowFor(db, t, order[i]));
    forall r | r in rows
      ensures exists u :: Active(db, t, u) && r == RowFor(db, t, u)
    {
      var i :| 0 <= i < |rows| && rows[i] == r;
      assert order[i] in order;
    }
    forall u | Active(db, t, u)
      ensures RowFor(db, t, u) in rows
    {
      assert u in order;
      var i :| 0 <= i < |order| && order[i] == u;
      assert rows[i] == RowFor(db, t, u);
    }
  }

  lemma {:induction false} SomeListing(db: S.Tables, tags: seq<string>) returns (listing: map<string, seq<Row>>)
    ensures forall t :: t in tags ==> t in listing && Answer(db, t, listing[t])
  {
    hide Answer;
    if tags == [] {
      listing := map[];
    } else {
      var rest := SomeListing(db, tags[1..]);
      var rows := SomeAnswer(db, tags[0]);
      listing := rest[tags[0] := rows];
      assert tags == [tags[0]] + tags[1..];
    }
  }

  /** From every state there is a pass. */
  lemma PassExists(s: State, enc: map<string, string>) returns (s': State, back: Back)
    ensures PassTo(s, enc, s', back)
  {
    hide S.ProcessAll, SyncBack, Answer, ParseDir;
    var order := SomeOrder(ParseDir(s.dir, enc).Keys);
    var db := S.ProcessAll(s.db, ParseDir(s.dir, enc), order);
    var tags := SomeOrder(db.inbounds.Keys);
    var listing := SomeListing(db, tags);
    back := SyncBack(s.dir, tags, listing);
    s' := State(db, back.dir);
    assert Pass(s.db, s.dir, enc, order, tags, listing, s'.db, back);
  }

  // ----- concrete inputs -----

  const BOBS := BLANK.(protocol := "vless", id := "k")

  /** One file with one inbound, and one user enrolled in it, besides whom there may be others. */
  function OneInbound(protocol: string, clients: seq<Item>, password: string): Inbound {
    Inbound("in", protocol, Some(443), Settings(Some(clients), [], "", password, "", 0, ""), "")
  }

  function Example(ib: Inbound, name: string, others: set<string>): State {
    State(S.Tables(map["in" := S.Row("any", 443, "f.json", ib, map[name := S.Enrolment(BOBS, true)])],
                   map n | n in others + {name} :: S.User(n, true)),
          [Named("f.json", Wrapped([ib], ""))])
  }

  predicate Letters(name: string) {
    forall i :: 0 <= i < |name| ==> 'a' <= name[i] <= 'z'
  }

  lemma {:induction false} LettersScrub(name: string)
    requires Letters(name)
    ensures S.Scrub(name) == name
  {
    if name != "" {
      LettersScrub(name[1..]);
    }
  }

  lemma LettersAreClean(name: string)
    requires Letters(name) && 0 < |name| <= 64
    ensures Clean(name) && Trim(name) == name
  {
    LettersScrub(name);
  }

  lemma Names()
    ensures Clean("bob") && Clean("pw") && Clean("ab") && S.Sanitize("a--b") == "ab" && "a--b" != "ab"
    ensures Trim("in") == "in" && Trim("bob") == "bob" && Trim("ab") == "ab" && Trim("a--b") == "a--b"
    ensures Writable(BOBS)
  {
    hide Clean, Trim, S.Sanitize;
    LettersAreClean("bob");
    LettersAreClean("pw");
    LettersAreClean("ab");
    LettersAreClean("in");
    HyphensGo();
    BobsIsWritable();
  }

  lemma HyphensGo()
    ensures Trim("a--b") == "a--b" && S.Sanitize("a--b") == "ab"
  {
    LettersScrub("b");
    assert "a--b"[1..] == "--b" && "--b"[2..] == "b" && S.Scrub("--b") == "b";
  }

  lemma BobsIsWritable()
    ensures Writable(BOBS)
  {
    LowerFixed();
  }

  lemma ExampleClean(ib: Inbound, name: string, others: set<string>)
    requires ib.Inbound? && ib.tag == "in" && Trim("in") == "in" && Clean("pw")
    requires forall n :: n in others + {name} ==> Trim(n) == n
    requires forall id :: id in IdentitySet(Extract(ib, map[])) ==> id == "pw"
    ensures CleanState(Example(ib, name, others), map[]) && Flat(Example(ib, name, others).dir) == [ib]
  {
    hide Extract, IdentitySet, Clean, Trim, S.Parse;
    var s := Example(ib, name, others);
    assert Flat(s.dir[1..]) == [] && Flat(s.dir) == [ib];
    ParseDirAt(s.dir, map[]);
  }

  lemma ExampleMissing(ib: Inbound, name: string, others: set<string>)
    requires ib.Inbound? && ib.tag == "in" && name != "" && name !in Shows(ib) && Writable(BOBS)
    ensures Missing(Example(ib, name, others).db, ib) == {name}
  {
    hide Shows, Writable;
    assert Active(Example(ib, name, others).db, "in", name);
  }

  /** Two passes from the example. */
  lemma TwoPasses(s: State) returns (s': State, s'': State, back: Back)
    ensures IsPass(s, s', map[]) && PassTo(s', map[], s'', back)
  {
    hide PassTo;
    var first;
    s', first := PassExists(s, map[]);
    s'', back := PassExists(s', map[]);
  }

  /** The second pass over the example writes, when its inbound does not settle. */
  lemma ExampleWrites(ib: Inbound) returns (s': State, s'': State, back: Back)
    requires Writes(ib) && ib.tag == "in" && "bob" !in Shows(ib) && !Receptive(ib)
    requires SingleUser(ib) ==> ib.settings.password == "pw"
    requires forall id :: id in IdentitySet(Extract(ib, map[])) ==> id == "pw"
    ensures var s := Example(ib, "bob", {});
            CleanState(s, map[]) && IsPass(s, s', map[]) && PassTo(s', map[], s'', back) && back.added > 0
  {
    hide PassTo, IsPass, Shows, IdentitySet, Extract, Clean, Trim, Harmless, Writable, Receptive, Missing, S.Sanitize, CleanState;
    var s := Example(ib, "bob", {});
    Names();
    ExampleClean(ib, "bob", {});
    ExampleMissing(ib, "bob", {});
    assert "bob" in Missing(s.db, ib);
    s', s'', back := TwoPasses(s);
    assert CleanNames(s.db);
    CleanNamesAreHarmless(s.db, s.dir);
    SecondPassOfCleanNames(s, s', s'', map[], back);
    assert "bob"[0] == 'b' && "pw"[0] == 'p';
    assert ib in Flat(s.dir) && !InboundSettles(s.db, ib);
  }

  /** A client list with an element that is not an object. */
  lemma AlienElementExample() returns (s': State, s'': State, back: Back)
    ensures var s := Example(OneInbound("vless", [Alien("17")], ""), "bob", {});
            CleanState(s, map[]) && IsPass(s, s', map[]) && PassTo(s', map[], s'', back) && back.added > 0
  {
    hide Lower, Trim, S.Sanitize, PassTo, IsPass, CleanState;
    var ib := OneInbound("vless", [Alien("17")], "");
    LowerFixed();
    assert ClientsOf(ib.settings)[0].Alien?;
    assert Extract(ib, map[]) == [];
    s', s'', back := ExampleWrites(ib);
  }

  /** A protocol without a client list. */
  lemma OtherProtocolExample() returns (s': State, s'': State, back: Back)
    ensures var s := Example(OneInbound("socks", [], ""), "bob", {});
            CleanState(s, map[]) && IsPass(s, s', map[]) && PassTo(s', map[], s'', back) && back.added > 0
  {
    hide Lower, Trim, S.Sanitize, PassTo, IsPass, CleanState;
    var ib := OneInbound("socks", [], "");
    LowerFixed();
    SocksHasNoClients();
    assert Extract(ib, map[]) == [];
    s', s'', back := ExampleWrites(ib);
  }

  /** A single-user Shadowsocks inbound that gets a second user. */
  lemma SecondUserExample() returns (s': State, s'': State, back: Back)
    ensures var s := Example(OneInbound("shadowsocks", [], "pw"), "bob", {});
            CleanState(s, map[]) && IsPass(s, s', map[]) && PassTo(s', map[], s'', back) && back.added > 0
  {
    hide Lower, Trim, S.Sanitize, PassTo, IsPass, CleanState;
    var ib := OneInbound("shadowsocks", [], "pw");
    LowerFixed();
    SingleUserShown(ib, map[]);
    assert "bob"[0] == 'b' && "pw"[0] == 'p';
    s', s'', back := ExampleWrites(ib);
  }

  lemma EmptyInbound() returns (ib: Inbound)
    ensures ib == OneInbound("vless", [], "") && Writes(ib) && Receptive(ib) && Extract(ib, map[]) == [] && Shows(ib) == {}
  {
    hide Lower, Trim;
    LowerFixed();
    SocksHasNoClients();
    ib := OneInbound("vless", [], "");
  }

  /** A user of a name that sanitising changes: the second pass makes an account of the sanitised name. */
  lemma NewAccountExample() returns (s': State, s'': State, back: Back)
    ensures var s := Example(OneInbound("vless", [], ""), "a--b", {});
            && CleanState(s, map[]) && Settles(s.db, s.dir)
            && IsPass(s, s', map[]) && PassTo(s', map[], s'', back) && s''.db.users != s'.db.users
  {
    hide Lower, Trim, S.Sanitize, PassTo, IsPass, CleanState, Extract, Shows, Missing, Receptive, Writable;
    var ib := EmptyInbound();
    var s := Example(ib, "a--b", {});
    Names();
    ExampleClean(ib, "a--b", {});
    ExampleMissing(ib, "a--b", {});
    s', s'', back := TwoPasses(s);
    SecondPassIdleExactly(s, s', s'', map[], back);
    assert ib in Flat(s.dir) && Extensible(ib) && "a--b" in Missing(s.db, ib);
    assert !Known(s.db, s.dir, "ab");
    assert !MakesNobody(s.db, s.dir, "a--b");
  }

  /** The sanitised name has an account already, in use elsewhere: the second pass enrols that user and writes
      them. */
  lemma EnrolledByNameExample() returns (s': State, s'': State, back: Back)
    ensures var s := Example(OneInbound("vless", [], ""), "a--b", {"ab"});
            && CleanState(s, map[]) && Settles(s.db, s.dir)
            && IsPass(s, s', map[]) && PassTo(s', map[], s'', back) && s''.db.users == s'.db.users && back.added > 0
  {
    hide Lower, Trim, S.Sanitize, PassTo, IsPass, CleanState, Extract, Shows, Missing, Receptive, Writable;
    var ib := EmptyInbound();
    var s := Example(ib, "a--b", {"ab"});
    Names();
    ExampleClean(ib, "a--b", {"ab"});
    ExampleMissing(ib, "a--b", {"ab"});
    s', s'', back := TwoPasses(s);
    SecondPassIdleExactly(s, s', s'', map[], back);
    assert ib in Flat(s.dir) && Extensible(ib) && "a--b" in Missing(s.db, ib);
    assert Known(s.db, s.dir, "ab") && "ab" !in WillShow(s.db, ib) && !Barred(s.db, "in", "ab");
    assert !HarmlessName(s.db, s.dir, ib, "a--b");
    assert NobodyNew(s.db, s.dir);
  }
}
