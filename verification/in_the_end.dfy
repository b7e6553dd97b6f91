/** The two-way sync in the end: only an inbound that does not show what is written to it keeps passes from becoming
    idle. Names that sanitising changes make for further passes, but each time for a name closer to a clean one. */
module InTheEnd {
  import opened ConfigFile
  import opened Credentials
  import opened Fixpoint
  import opened Newcomers
  import opened Options
  import opened Passes
  import opened Restore
  import opened RestoreResults
  import opened Settling
  import opened Text
  import opened TwoWay
  import opened TwoWayResults
  import opened Unsettled
  import A = Accounts
  import S = Sync
  import R = SyncResults
  import Resync

  // ----- how far a name is from a clean one -----

  /** The name of the account that a client of this identity stands for. */
  function Account(identity: string): string {
    Trim(S.Sanitize(identity))
  }

  predicate HasBlank(s: string) {
    ' ' in s || '\t' in s
  }

  /** Sanitising takes out blanks and then shortens a name, when it changes it. */
  function Rank(s: string): nat {
    |s| + if HasBlank(s) then 1 else 0
  }

  lemma {:induction false} ScrubShortens(s: string)
    ensures !HasBlank(S.Scrub(s))
    ensures |S.Scrub(s)| == |s| && !HasBlank(s) ==> S.Scrub(s) == s
  {
    if s != "" {
      assert s == [s[0]] + s[1..];
      ScrubShortens(s[1..]);
      if |s| > 1 {
        ScrubShortens(s[2..]);
      }
    }
  }

  lemma {:induction false} TrimLeftShortens(s: string)
    ensures |TrimLeft(s)| <= |s| && (|TrimLeft(s)| == |s| ==> TrimLeft(s) == s)
  {
    if s != "" && IsSpace(s[0]) {
      TrimLeftShortens(s[1..]);
    }
  }

  lemma TrimShortens(s: string)
    ensures |Trim(s)| <= |s| && (|Trim(s)| == |s| ==> Trim(s) == s)
  {
    TrimLeftShortens(s);
  }

  lemma AccountHasNoBlank(u: string)
    ensures !HasBlank(Account(u))
  {
    hide Trim, S.Scrub;
    ScrubShortens(Trim(u));
    R.TrimChars(S.Sanitize(u));
  }

  lemma AccountRank(u: string)
    ensures Account(u) != u ==> Rank(Account(u)) < Rank(u)
  {
    AccountHasNoBlank(u);
    hide Trim, S.Scrub, HasBlank;
    var t := Trim(u);
    var r := S.Scrub(t);
    TrimShortens(u);
    ScrubShortens(t);
    TrimShortens(S.Sanitize(u));
  }

  /** How often sanitising still changes a name. */
  function Depth(u: string): nat
    decreases Rank(u)
  {
    var v := Account(u);
    if v == "" || v == u then 0
    else
      AccountRank(u);
      1 + Depth(v)
  }

  lemma CleanDepth(u: string)
    requires Clean(u)
    ensures Account(u) == u && Depth(u) == 0
  {
    hide S.Sanitize, Trim;
    CleanIsTrimmed(u);
  }

  lemma DepthOfAccount(u: string)
    requires Account(u) != "" && Account(u) != u
    ensures Depth(u) == 1 + Depth(Account(u))
  {
    hide Account;
  }

  // ----- who is missing after a sync -----

  /** Reading this identity of the inbound makes no account, and nobody enrolled by it is missing. */
  predicate Resolved(db: S.Tables, ib: Inbound, id: string)
    requires ib.Inbound?
  {
    var v := S.Sanitize(id);
    v == "" || (if v in db.users then v in Shows(ib) || Barred(db, ib.tag, v) else Trim(v) in db.users)
  }

  /** What the client list of an inbound leaves in the tables. */
  lemma InboundEnters(s: State, enc: map<string, string>, order: seq<string>, ib: Inbound)
    requires Reflected(s.db, s.dir, enc) && R.Enumerates(order, ParseDir(s.dir, enc)) && ib in Flat(s.dir) && Parsable(ib)
    ensures var db' := S.ProcessAll(s.db, ParseDir(s.dir, enc), order);
            ib.tag in s.db.inbounds && ib.tag in db'.inbounds
            && Entered(s.db.inbounds[ib.tag].clients.Keys, Extract(ib, enc), db'.users, db'.inbounds[ib.tag].clients)
  {
    hide S.ProcessAll, CleanTables, Orderly, ParseDir, Flat, Extract, Lower, S.Tags, R.Structured, R.InboundOf, Identities, Entered, Trim;
    OrderlyParses(s.dir, enc);
    var g := FileOf(s.dir, enc, ib);
    SyncEnters(s.db, ParseDir(s.dir, enc), order, g, ib.tag);
  }

  lemma ParsedClients(ib: Inbound, enc: map<string, string>)
    requires Parsable(ib)
    ensures R.Users(Extract(ib, enc)) == Stands(ib)
  {
    hide R.Users, Stands, Extract, Lower;
    StandsFor(ib, enc);
  }

  /** Somebody who is missing after a sync was missing before, or is the account of an unresolved identity. */
  lemma NewlyMissing(s: State, enc: map<string, string>, order: seq<string>, ib: Inbound, u: string) returns (id: string)
    requires Reflected(s.db, s.dir, enc) && R.Enumerates(order, ParseDir(s.dir, enc)) && ib in Flat(s.dir) && Parsable(ib)
    requires u in Missing(S.ProcessAll(s.db, ParseDir(s.dir, enc), order), ib)
    ensures u !in Shows(ib) && u != ""
    ensures u in Missing(s.db, ib) || (id in Shows(ib) && Account(id) == u && !Resolved(s.db, ib, id))
  {
    hide S.ProcessAll, Orderly, Mirrors, ParseDir, Flat, Extract, Shows, R.Users, S.Sanitize, Trim, Writable, R.Structured, A.NoneCreates,
         Barred;
    var db' := S.ProcessAll(s.db, ParseDir(s.dir, enc), order);
    OrderlyParses(s.dir, enc);
    CleanAfterSync(s.db, ParseDir(s.dir, enc), order);
    MissingIsUser(db', ib);
    id := "";
    if u in s.db.users {
      MissingAgain(s.db, s.dir, enc, order, ib, u);
      if u in Stands(ib) {
        id :| id in Shows(ib) && S.Sanitize(id) != "" && S.Sanitize(id) == u;
      }
    } else {
      InboundEnters(s, enc, order, ib);
      ParsedClients(ib, enc);
      assert u in db'.inbounds[ib.tag].clients;
      var v :| v in Stands(ib) && (v == u || Trim(v) == u);
      id :| id in Shows(ib) && S.Sanitize(id) != "" && S.Sanitize(id) == v;
    }
  }

  /** Once an inbound shows everybody missing after a sync, the identities it showed are resolved. */
  lemma ResolvedNow(s: State, enc: map<string, string>, order: seq<string>, ib: Inbound, ib': Inbound, id: string)
    requires Reflected(s.db, s.dir, enc) && R.Enumerates(order, ParseDir(s.dir, enc)) && ib in Flat(s.dir) && Parsable(ib)
    requires ib'.Inbound? && ib'.tag == ib.tag && HasClients(Lower(ib.protocol)) && id in Shows(ib)
    requires Shows(ib) + Missing(S.ProcessAll(s.db, ParseDir(s.dir, enc), order), ib) <= Shows(ib')
    ensures Resolved(S.ProcessAll(s.db, ParseDir(s.dir, enc), order), ib', id)
  {
    hide S.ProcessAll, Reflected, ParseDir, Flat, Extract, Shows, R.Users, S.Sanitize, Trim, Writable, Lower;
    var db', v := S.ProcessAll(s.db, ParseDir(s.dir, enc), order), S.Sanitize(id);
    InboundEnters(s, enc, order, ib);
    ParsedClients(ib, enc);
    if v != "" {
      assert v in Stands(ib);
      EntriesAreWritable(ib, enc);
      if v !in db'.users {
        assert v in R.Users(Extract(ib, enc));
        StandsCreates(db', Extract(ib, enc), v);
      } else {
        assert v in db'.inbounds[ib.tag].clients && Writable(db'.inbounds[ib.tag].clients[v].stored);
        assert Barred(db', ib.tag, v) || v in Shows(ib) || v in Missing(db', ib);
      }
    }
  }

  lemma StandsCreates(db: S.Tables, cs: seq<Parsed>, v: string)
    requires A.NoneCreates(db.users, cs) && v in R.Users(cs) && v !in db.users
    ensures Trim(v) in db.users
  {
    hide S.Sanitize, Trim;
    var c :| c in cs && S.Sanitize(c.identity) != "" && S.Sanitize(c.identity) == v;
    assert !A.Creates(db.users, c);
  }

  lemma ResolvedClean(db: S.Tables, ib: Inbound, id: string)
    requires ib.Inbound? && id in Shows(ib) && Clean(id)
    ensures Account(id) == id && Depth(id) == 0
  {
    hide Shows;
    CleanDepth(id);
  }

  // ----- one pass -----

  /** Whoever is missing from an inbound, and whichever identity of it is unresolved, is at most d steps from clean;
      an inbound that is not receptive is missing nobody and shows clean names. */
  ghost predicate InboundLoose(db: S.Tables, ib: Inbound, d: nat)
    requires ib.Inbound?
  {
    && (forall u :: u in Missing(db, ib) ==> Depth(u) <= d)
    && (forall id :: id in Shows(ib) ==> Depth(id) <= d || Resolved(db, ib, id))
    && (!Receptive(ib) ==> Missing(db, ib) == {} && forall id :: id in Shows(ib) ==> Clean(id))
  }

  ghost predicate CleanShown(ib: Inbound)
    requires ib.Inbound?
  {
    forall id :: id in Shows(ib) ==> Clean(id)
  }

  ghost predicate Loose(s: State, enc: map<string, string>, d: nat) {
    && Reflected(s.db, s.dir, enc)
    && forall ib :: ib in Flat(s.dir) && Parsable(ib) ==> if Writes(ib) then InboundLoose(s.db, ib, d) else CleanShown(ib)
  }

  /** Moreover nobody is missing. */
  ghost predicate Shallow(s: State, enc: map<string, string>, d: nat) {
    Loose(s, enc, d) && AllShown(s.db, s.dir)
  }

  /** Who is to be written in a pass: nobody but those missing before and the accounts of unresolved identities. */
  lemma ToBeWritten(s: State, enc: map<string, string>, order: seq<string>, ib: Inbound, d: nat)
    requires Reflected(s.db, s.dir, enc) && R.Enumerates(order, ParseDir(s.dir, enc)) && ib in Flat(s.dir) && Parsable(ib)
    requires InboundLoose(s.db, ib, d)
    ensures var missing := Missing(S.ProcessAll(s.db, ParseDir(s.dir, enc), order), ib);
            && (!Receptive(ib) ==> missing == {})
            && (forall u :: u in missing ==> Depth(u) <= d)
            && (Missing(s.db, ib) == {} ==> forall u :: u in missing ==> Depth(u) < d)
  {
    hide S.ProcessAll, Reflected, ParseDir, Flat, Shows, Receptive, Missing, Resolved, Depth, Clean, Account;
    var missing := Missing(S.ProcessAll(s.db, ParseDir(s.dir, enc), order), ib);
    forall u | u in missing
      ensures Receptive(ib) && Depth(u) <= d && (Missing(s.db, ib) == {} ==> Depth(u) < d)
    {
      var id := NewlyMissing(s, enc, order, ib, u);
      if u !in Missing(s.db, ib) {
        DepthOfAccount(id);
        if !Receptive(ib) {
          ResolvedClean(s.db, ib, id);
        }
      }
    }
  }

  /** What a pass makes of one inbound. */
  lemma InboundAfter(s: State, enc: map<string, string>, order: seq<string>, ib: Inbound, ib': Inbound, d: nat, e: nat)
    requires Reflected(s.db, s.dir, enc) && R.Enumerates(order, ParseDir(s.dir, enc)) && ib in Flat(s.dir) && Writes(ib)
    requires InboundLoose(s.db, ib, d)
    requires var db' := S.ProcessAll(s.db, ParseDir(s.dir, enc), order);
             Evolved(db', ib, ib') && Writes(ib') && ib'.tag == ib.tag && Shows(ib') == WillShow(db', ib)
             && forall u :: u in Missing(db', ib) ==> Depth(u) <= e
    ensures var db' := S.ProcessAll(s.db, ParseDir(s.dir, enc), order);
            Missing(db', ib') == {} && InboundLoose(db', ib', e)
  {
    hide S.ProcessAll, Reflected, ParseDir, Flat, Shows, Receptive, SingleUser, Missing, Resolved, Depth, Clean, Account, Evolved;
    var db' := S.ProcessAll(s.db, ParseDir(s.dir, enc), order);
    ToBeWritten(s, enc, order, ib, d);
    if Receptive(ib) {
      EvolvedReceptive(db', ib, ib');
      ReceptiveIsList(ib);
      assert Shows(ib') == Shows(ib) + Missing(db', ib);
      NobodyLeft(db', ib, ib');
      forall id | id in Shows(ib') && id !in Missing(db', ib)
        ensures Resolved(db', ib', id)
      {
        ResolvedNow(s, enc, order, ib, ib', id);
      }
    } else {
      MissingLooks(db', ib, ib');
      forall id | id in Shows(ib')
        ensures Clean(id) && Depth(id) == 0
      {
        ResolvedClean(s.db, ib, id);
      }
    }
  }

  lemma ReceptiveIsList(ib: Inbound)
    requires Receptive(ib)
    ensures !SingleUser(ib) && HasClients(Lower(ib.protocol))
  {
    hide Lower;
  }

  lemma NobodyLeft(db: S.Tables, ib: Inbound, ib': Inbound)
    requires ib.Inbound? && ib'.Inbound? && ib'.tag == ib.tag && Shows(ib') == Shows(ib) + Missing(db, ib)
    ensures Missing(db, ib') == {}
  {
    hide Shows, Writable;
    assert Missing(db, ib') <= Missing(db, ib) && Missing(db, ib') !! Missing(db, ib);
  }

  lemma PassAfter(s: State, s': State, enc: map<string, string>, order: seq<string>, tags: seq<string>, listing: map<string, seq<Row>>,
                  back: Back, d: nat, e: nat)
    requires Loose(s, enc, d) && Pass(s.db, s.dir, enc, order, tags, listing, s'.db, back) && s'.dir == back.dir
    requires forall ib, u :: ib in Flat(s.dir) && Writes(ib) && u in Missing(s'.db, ib) ==> Depth(u) <= e
    ensures Shallow(s', enc, e)
  {
    hide CleanTables, Orderly, Mirrors, S.ProcessAll, ParseDir, Flat, SyncBack, Answer, Shows, Missing, Depth, InboundLoose, Evolved,
         EvolvedDir, Receptive, SingleUser, R.Enumerates, Clean;
    StaysReflected(s.db, s.dir, enc, order, tags, listing, s'.db, back);
    EvolvedFlat(s'.db, s.dir, s'.dir);
    forall i | 0 <= i < |Flat(s'.dir)| && Parsable(Flat(s'.dir)[i])
      ensures var ib' := Flat(s'.dir)[i];
              if Writes(ib') then Missing(s'.db, ib') == {} && InboundLoose(s'.db, ib', e) else CleanShown(ib')
    {
      var ib := Flat(s.dir)[i];
      EvolvedWrites(s'.db, ib, Flat(s'.dir)[i]);
      assert ib in Flat(s.dir);
      ShownAfterWriteBack(s'.db, s.dir, enc, tags, listing, i);
      if Writes(ib) {
        InboundAfter(s, enc, order, ib, Flat(s'.dir)[i], d, e);
      }
    }
  }

  function Less(d: nat): nat {
    if d == 0 then 0 else d - 1
  }

  /** A pass brings everything one step closer, and has nothing to write when nothing is left. */
  lemma PassDescends(s: State, s': State, enc: map<string, string>, back: Back, d: nat)
    requires Loose(s, enc, d) && PassTo(s, enc, s', back)
    ensures Shallow(s', enc, d)
    ensures Shallow(s, enc, d) ==> Shallow(s', enc, Less(d)) && (d == 0 ==> back.added == 0)
  {
    hide CleanTables, Orderly, Mirrors, S.ProcessAll, ParseDir, Flat, SyncBack, Answer, Missing, Depth, InboundLoose, Settled, R.Enumerates;
    var order, tags, listing :| Pass(s.db, s.dir, enc, order, tags, listing, s'.db, back) && s'.dir == back.dir;
    forall ib | ib in Flat(s.dir) && Writes(ib)
      ensures forall u :: u in Missing(s'.db, ib) ==> Depth(u) <= d
      ensures Shallow(s, enc, d) ==> forall u :: u in Missing(s'.db, ib) ==> Depth(u) < d
    {
      ToBeWritten(s, enc, order, ib, d);
    }
    PassAfter(s, s', enc, order, tags, listing, back, d, d);
    if Shallow(s, enc, d) {
      PassAfter(s, s', enc, order, tags, listing, back, d, Less(d));
      if d == 0 {
        StaysReflected(s.db, s.dir, enc, order, tags, listing, s'.db, back);
        SettledTags(s'.db, s.dir, tags, listing);
        SyncBackIdle(s.dir, tags, listing);
        assert AllShown(s'.db, s.dir);
      }
    }
  }

  lemma AllResolved(db: S.Tables, ib: Inbound)
    requires ib.Inbound? && forall id :: id in Shows(ib) ==> Resolved(db, ib, id)
    ensures CreatesNobody(db, ib) && EnrolsNobody(db, ib)
  {
    hide Shows, S.Sanitize, Trim, Barred;
    forall v | v in Stands(ib)
      ensures v in db.users || Trim(v) in db.users
      ensures v in db.users ==> v in Shows(ib) || Barred(db, ib.tag, v)
    {
      var id :| id in Shows(ib) && S.Sanitize(id) != "" && S.Sanitize(id) == v;
      assert Resolved(db, ib, id);
    }
  }

  lemma ShownHasAccount(db: S.Tables, dir: seq<Named>, enc: map<string, string>, ib: Inbound, id: string)
    requires Reflected(db, dir, enc) && ib in Flat(dir) && Parsable(ib) && id in Shows(ib)
    ensures id in db.users
  {
    hide Orderly, ParseDir, Flat, Extract, Lower, S.Tags, R.InboundOf, Trim;
    var g := FileOf(dir, enc, ib);
    EncryptionLeavesIdentities(ib, enc, map[]);
    SameIdentitySets(Extract(ib, enc), Extract(ib, map[]));
    assert id in db.inbounds[ib.tag].clients;
  }

  lemma SameIdentitySets(a: seq<Parsed>, b: seq<Parsed>)
    requires IdentitySet(a) == IdentitySet(b)
    ensures Identities(a) == Identities(b)
  {
    forall id
      ensures id in Identities(a) <==> id in Identities(b)
    {
      assert id in Identities(a) <==> id != "" && id in IdentitySet(a);
      assert id in Identities(b) <==> id != "" && id in IdentitySet(b);
    }
  }

  lemma CleanResolved(db: S.Tables, ib: Inbound, id: string)
    requires ib.Inbound? && id in Shows(ib) && Clean(id) && id in db.users
    ensures Resolved(db, ib, id)
  {
    hide Shows, Trim;
  }

  /** When nobody is missing and every unresolved identity is clean, a pass leads to a quiet state. */
  lemma Quieten(s: State, s': State, enc: map<string, string>, back: Back)
    requires Shallow(s, enc, 0) && PassTo(s, enc, s', back)
    ensures Quiet(s'.db, s'.dir, enc)
  {
    hide CleanTables, Orderly, Mirrors, S.ProcessAll, ParseDir, Flat, SyncBack, Answer, Missing, Depth, Clean, R.Enumerates, Evolved,
         EvolvedDir, Shows, Receptive, SingleUser, Resolved, CreatesNobody, EnrolsNobody;
    PassDescends(s, s', enc, back, 0);
    var order, tags, listing :| Pass(s.db, s.dir, enc, order, tags, listing, s'.db, back) && s'.dir == back.dir;
    StaysReflected(s.db, s.dir, enc, order, tags, listing, s'.db, back);
    EvolvedFlat(s'.db, s.dir, s'.dir);
    forall i | 0 <= i < |Flat(s'.dir)| && Parsable(Flat(s'.dir)[i])
      ensures CreatesNobody(s'.db, Flat(s'.dir)[i]) && EnrolsNobody(s'.db, Flat(s'.dir)[i])
    {
      var ib, ib' := Flat(s.dir)[i], Flat(s'.dir)[i];
      EvolvedWrites(s'.db, ib, ib');
      assert ib in Flat(s.dir) && ib' in Flat(s'.dir);
      ShownAfterWriteBack(s'.db, s.dir, enc, tags, listing, i);
      if Writes(ib) {
        ToBeWritten(s, enc, order, ib, 0);
        assert Missing(s'.db, ib) == {};
      }
      assert Shows(ib') == Shows(ib);
      forall id | id in Shows(ib')
        ensures Resolved(s'.db, ib', id)
      {
        if Writes(ib) && Receptive(ib) {
          ReceptiveIsList(ib);
          ResolvedNow(s, enc, order, ib, ib', id);
        } else {
          ShownHasAccount(s'.db, s'.dir, enc, ib', id);
          CleanResolved(s'.db, ib', id);
        }
      }
      AllResolved(s'.db, ib');
    }
  }

  // ----- runs -----

  ghost predicate Within(db: S.Tables, d: nat) {
    forall u :: u in db.users ==> Depth(u) <= d
  }

  lemma WithinAfterSync(s: State, enc: map<string, string>, order: seq<string>, d: nat)
    requires CleanState(s, enc) && R.Enumerates(order, ParseDir(s.dir, enc)) && Within(s.db, d)
    ensures Within(S.ProcessAll(s.db, ParseDir(s.dir, enc), order), d)
  {
    hide CleanState, S.ProcessAll, ParseDir, Flat, Shows, Depth, Clean;
    forall u | u in S.ProcessAll(s.db, ParseDir(s.dir, enc), order).users
      ensures Depth(u) <= d
    {
      KnownAfterSync(s, enc, order, u);
      if u !in s.db.users {
        var ib :| ib in Flat(s.dir) && Parsable(ib) && u in Shows(ib);
        ShownClean(s, enc, ib);
        CleanDepth(u);
      }
    }
  }

  lemma ShownClean(s: State, enc: map<string, string>, ib: Inbound)
    requires CleanState(s, enc) && ib in Flat(s.dir) && Parsable(ib)
    ensures forall id :: id in Shows(ib) ==> Clean(id)
  {
    hide CleanTables, CleanDir, R.NoTagMoved, Flat, Shows, Clean;
    CleanClients(s.dir, enc, ib);
  }

  /** One inbound after the first pass. */
  lemma FirstLoose(s: State, enc: map<string, string>, db': S.Tables, ib: Inbound, ib': Inbound, d: nat)
    requires CleanState(s, enc) && ib in Flat(s.dir) && Writes(ib) && (forall u :: !Stuck(s, ib, u)) && Within(s.db, d) && Within(db', d)
    requires Evolved(db', ib, ib') && Writes(ib') && ib'.tag == ib.tag
    requires Shows(ib') == WillShow(s.db, ib) && Missing(db', ib) == Missing(s.db, ib)
    ensures InboundLoose(db', ib', d)
  {
    hide CleanState, Flat, Shows, Receptive, SingleUser, Missing, Depth, Clean, Evolved, Resolved;
    ShownClean(s, enc, ib);
    MissingIsUser(s.db, ib);
    MissingIsUser(db', ib');
    forall id | id in Shows(ib')
      ensures Depth(id) <= d
    {
      if id in Shows(ib) {
        CleanDepth(id);
      }
    }
    if Receptive(ib) || SingleUser(ib) {
      EvolvedReceptive(db', ib, ib');
    } else {
      assert forall u :: u in Missing(s.db, ib) ==> Stuck(s, ib, u);
    }
    if !Receptive(ib') {
      assert Missing(s.db, ib) == {};
      MissingLooks(db', ib, ib');
    }
  }

  lemma LooseAfterFirst(s: State, s': State, enc: map<string, string>, d: nat)
    requires CleanState(s, enc) && IsPass(s, s', enc) && Within(s.db, d) && forall ib, u :: !Stuck(s, ib, u)
    ensures Loose(s', enc, d)
  {
    hide CleanTables, CleanDir, R.NoTagMoved, Reflected, S.ProcessAll, ParseDir, Flat, SyncBack, Answer, Shows, Missing, InboundLoose,
         Evolved, EvolvedDir, Receptive, SingleUser, R.Enumerates, Stuck, Within, Clean;
    var back :| PassTo(s, enc, s', back);
    var order, tags, listing :| Pass(s.db, s.dir, enc, order, tags, listing, s'.db, back) && s'.dir == back.dir;
    PassReflects(s.db, s.dir, enc, order, tags, listing, s'.db, back);
    WithinAfterSync(s, enc, order, d);
    EvolvedFlat(s'.db, s.dir, s'.dir);
    forall i | 0 <= i < |Flat(s'.dir)| && Parsable(Flat(s'.dir)[i])
      ensures if Writes(Flat(s'.dir)[i]) then InboundLoose(s'.db, Flat(s'.dir)[i], d) else CleanShown(Flat(s'.dir)[i])
    {
      var ib := Flat(s.dir)[i];
      EvolvedWrites(s'.db, ib, Flat(s'.dir)[i]);
      ShownAfterPass(s, enc, order, tags, listing, s'.db, back, i);
      MissingAfterSync(s, enc, order, ib);
      if Writes(ib) {
        FirstLoose(s, enc, s'.db, ib, Flat(s'.dir)[i], d);
      } else {
        ShownClean(s, enc, ib);
      }
    }
  }

  lemma {:induction false} ShallowAt(states: seq<State>, enc: map<string, string>, d: nat, n: nat)
    requires 2 <= n < |states|
    requires forall i :: 0 <= i < |states| - 1 ==> IsPass(states[i], states[i + 1], enc)
    requires CleanState(states[0], enc) && Within(states[0].db, d) && forall ib, u :: !Stuck(states[0], ib, u)
    ensures Shallow(states[n], enc, if n - 2 < d then d - (n - 2) else 0)
  {
    hide CleanState, PassTo, Stuck, Within, Shallow, Loose;
    assert IsPass(states[n - 1], states[n - 1 + 1], enc);
    var back :| PassTo(states[n - 1], enc, states[n], back);
    if n == 2 {
      assert IsPass(states[0], states[0 + 1], enc);
      LooseAfterFirst(states[0], states[1], enc, d);
      PassDescends(states[1], states[2], enc, back, d);
    } else {
      ShallowAt(states, enc, d, n - 1);
      var e: nat := if n - 3 < d then d - (n - 3) else 0;
      ShallowIsLoose(states[n - 1], enc, e);
      PassDescends(states[n - 1], states[n], enc, back, e);
    }
  }

  lemma ShallowIsLoose(s: State, enc: map<string, string>, d: nat)
    requires Shallow(s, enc, d)
    ensures Loose(s, enc, d)
  {
  }

  /** Main result: over a run of passes from clean files, when sanitising changes no user's name more than d times in
      a row, every pass from the (d + 3)rd on writes nothing exactly when no inbound was stuck at the start. With
      clean names d is 0. */
  lemma IdleInTheEndExactly(states: seq<State>, enc: map<string, string>, d: nat, n: nat, back: Back)
    requires d + 2 <= n && n + 1 < |states| && PassTo(states[n], enc, states[n + 1], back)
    requires forall i :: 0 <= i < |states| - 1 ==> IsPass(states[i], states[i + 1], enc)
    requires CleanState(states[0], enc) && forall u :: u in states[0].db.users ==> Depth(u) <= d
    ensures back.added == 0 <==> forall ib, u :: !Stuck(states[0], ib, u)
  {
    hide CleanState, PassTo, Stuck, Depth, Shallow, Loose;
    if ib, u :| Stuck(states[0], ib, u) {
      NeverSettles(states, enc, ib, u, n, back);
    } else {
      ShallowAt(states, enc, d, n);
      ShallowIsLoose(states[n], enc, 0);
      PassDescends(states[n], states[n + 1], enc, back, 0);
    }
  }

  /** Main result: then the run has come to rest: from the state after d + 3 passes on, files and users are fixed, and
      all tables after one pass more. */
  lemma {:induction false} RestInTheEnd(states: seq<State>, enc: map<string, string>, d: nat, n: nat)
    requires d + 3 <= n < |states|
    requires forall i :: 0 <= i < |states| - 1 ==> IsPass(states[i], states[i + 1], enc)
    requires CleanState(states[0], enc) && forall u :: u in states[0].db.users ==> Depth(u) <= d
    requires forall ib, u :: !Stuck(states[0], ib, u)
    ensures Quiet(states[n].db, states[n].dir, enc)
    ensures states[n].dir == states[d + 3].dir && states[n].db.users == states[d + 3].db.users
    ensures n >= d + 4 ==> states[n] == states[d + 4]
    ensures n >= d + 4 ==> forall again :: R.Enumerates(again, ParseDir(states[n].dir, enc)) ==>
              S.ProcessAll(states[n].db, ParseDir(states[n].dir, enc), again) == states[n].db
  {
    hide CleanState, Stuck, Depth, Shallow, Quiet, ParseDir, S.ProcessAll, R.Enumerates, Pass;
    assert IsPass(states[n - 1], states[n - 1 + 1], enc);
    var s, s' := states[n - 1], states[n];
    var back :| PassTo(s, enc, s', back);
    if n == d + 3 {
      ShallowAt(states, enc, d, n - 1);
      Quieten(s, s', enc, back);
    } else {
      RestInTheEnd(states, enc, d, n - 1);
      var order, tags, listing :| Pass(s.db, s.dir, enc, order, tags, listing, s'.db, back) && s'.dir == back.dir;
      QuietPass(s.db, s.dir, enc, order, tags, listing, s'.db, back);
      PassSyncs(s.db, s.dir, enc, order, tags, listing, s'.db, back);
    }
  }

  /** A name without blanks, as the API has them, is clean after at most as many steps as it has characters; a--b
      after one. */
  lemma DepthBound(u: string)
    ensures Depth(u) <= Rank(u)
    ensures Depth("a--b") == 1
  {
    BoundedDepth(u);
    Names();
    assert Account("a--b") == "ab" && "ab"[0] == 'a';
    CleanDepth("ab");
    DepthOfAccount("a--b");
  }

  lemma {:induction false} BoundedDepth(u: string)
    ensures Depth(u) <= Rank(u)
    decreases Rank(u)
  {
    hide Account, Rank;
    if Depth(u) > 0 {
      AccountRank(u);
      BoundedDepth(Account(u));
    }
  }
}
