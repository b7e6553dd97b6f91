/** The two-way sync and its fixpoint: when a second pass writes nothing and creates nobody, told from the tables and
    files before the first; that nothing changes from then on. */
module Fixpoint {
  import opened ConfigFile
  import opened Credentials
  import opened Options
  import opened Passes
  import opened Restore
  import opened RestoreResults
  import opened Settling
  import opened Text
  import opened TwoWay
  import opened TwoWayResults
  import A = Accounts
  import S = Sync
  import R = SyncResults
  import Resync

  // ----- a sync from clean files -----

  /** For a clean inbound the users its client list stands for are the identities it shows. */
  lemma CleanClients(dir: seq<Named>, enc: map<string, string>, ib: Inbound)
    requires CleanDir(dir) && ib in Flat(dir) && Parsable(ib)
    ensures R.Users(S.ParseInbound(ib, enc).clients) == Shows(ib)
    ensures forall id :: id in Shows(ib) ==> Clean(id)
  {
    hide Extract, Clean, Trim, Lower, Flat, R.Users;
    assert CleanInbound(ib);
    EncryptionLeavesIdentities(ib, enc, map[]);
    CleanUsers(Extract(ib, enc));
    CleanUsers(Extract(ib, map[]));
  }

  /** Who is active and who is barred after a sync: for users the inbound does not show nothing changes; for those
      it shows, missing rows are created enabled. */
  lemma ActiveAfterSync(s: State, enc: map<string, string>, order: seq<string>, ib: Inbound, u: string)
    requires CleanState(s, enc) && R.Enumerates(order, ParseDir(s.dir, enc)) && ib in Flat(s.dir) && Parsable(ib)
    ensures var db, db', t := s.db, S.ProcessAll(s.db, ParseDir(s.dir, enc), order), ib.tag;
            && t in db'.inbounds
            && (Barred(db', t, u) <==> Barred(db, t, u))
            && (u in Shows(ib) ==> (Active(db', t, u) <==> !Barred(db, t, u)))
            && (u !in Shows(ib) ==>
                  && (Active(db', t, u) <==> Active(db, t, u))
                  && (Active(db, t, u) ==> db'.inbounds[t].clients[u] == db.inbounds[t].clients[u]))
  {
    hide S.ProcessAll, Shows, R.NoTagMoved, R.ClientsAfter, R.WellFormed, CleanParsed, Lower, Trim, S.Tags,
         CleanDir, ParseDir, Flat, R.Users, R.UsersOf, Extract, Clean;
    var db, files := s.db, ParseDir(s.dir, enc);
    CleanDirParses(s.dir, enc);
    CleanIsOrderly(s.dir);
    var g := FileOf(s.dir, enc, ib);
    var cs := S.ParseInbound(ib, enc).clients;
    Resync.RowAfterSync(db, files, order, g, ib.tag);
    CleanClients(s.dir, enc, ib);
    Resync.UsersListed(files, order, g, ib.tag);
    R.OutcomeOfAnyOrder(db, files, order, ib.tag);
    R.EnrolmentsKept(if ib.tag in db.inbounds then db.inbounds[ib.tag].clients else map[], cs, u);
  }

  predicate Has(db: S.Tables, t: string, u: string) {
    t in db.inbounds && u in db.inbounds[t].clients
  }

  lemma ActiveHas(db: S.Tables, t: string, u: string)
    requires Active(db, t, u)
    ensures Has(db, t, u) && u in db.users
  {
  }

  /** So the same users are missing. */
  lemma MissingAfterSync(s: State, enc: map<string, string>, order: seq<string>, ib: Inbound)
    requires CleanState(s, enc) && R.Enumerates(order, ParseDir(s.dir, enc)) && ib in Flat(s.dir) && Parsable(ib)
    ensures ib.tag in S.ProcessAll(s.db, ParseDir(s.dir, enc), order).inbounds
    ensures Missing(S.ProcessAll(s.db, ParseDir(s.dir, enc), order), ib) == Missing(s.db, ib)
  {
    hide S.ProcessAll, Shows, Writable, CleanState, ParseDir, Flat, Active, Barred;
    var db' := S.ProcessAll(s.db, ParseDir(s.dir, enc), order);
    ActiveAfterSync(s, enc, order, ib, "");
    forall u
      ensures u in Missing(db', ib) <==> u in Missing(s.db, ib)
    {
      ActiveAfterSync(s, enc, order, ib, u);
      if Active(s.db, ib.tag, u) {
        ActiveHas(s.db, ib.tag, u);
      }
      if Active(db', ib.tag, u) {
        ActiveHas(db', ib.tag, u);
      }
    }
  }

  /** The names that have an account once the files are in. */
  ghost predicate Known(db: S.Tables, dir: seq<Named>, n: string) {
    n in db.users || exists ib :: ib in Flat(dir) && Parsable(ib) && n in Shows(ib)
  }

  lemma KnownAfterSync(s: State, enc: map<string, string>, order: seq<string>, n: string)
    requires CleanState(s, enc) && R.Enumerates(order, ParseDir(s.dir, enc))
    ensures n in S.ProcessAll(s.db, ParseDir(s.dir, enc), order).users <==> Known(s.db, s.dir, n)
  {
    hide S.ProcessAll, Shows, R.NoTagMoved, R.WellFormed, R.Structured, CleanParsed, Lower, Trim, S.Tags, CleanDir, ParseDir, Flat, R.Users,
         R.InboundOf, Extract, CleanTables, Clean;
    var files := ParseDir(s.dir, enc);
    CleanDirParses(s.dir, enc);
    CleanIsOrderly(s.dir);
    OrderlyParses(s.dir, enc);
    R.OutcomeOfAnyOrder(s.db, files, order, "");
    if n in R.UsersOf(files, order) {
      var f :| f in order && n in R.UsersOfFile(files[f]);
      var pi: S.ParsedInbound :| pi in files[f] && n in R.Users(pi.clients);
      CleanClients(s.dir, enc, pi.raw);
    }
    if ib :| ib in Flat(s.dir) && Parsable(ib) && n in Shows(ib) {
      var g := FileOf(s.dir, enc, ib);
      CleanClients(s.dir, enc, ib);
      assert n in R.UsersOfFile(files[g]);
    }
  }

  // ----- when everybody is shown after the pass -----

  /** An inbound shows what is written to it, or has nothing to be written, or is a single-user Shadowsocks inbound
      whose own user is switched off. */
  predicate InboundSettles(db: S.Tables, ib: Inbound)
    requires ib.Inbound?
  {
    Receptive(ib) || Missing(db, ib) == {} || (SingleUser(ib) && Barred(db, ib.tag, ib.settings.password))
  }

  ghost predicate Settles(db: S.Tables, dir: seq<Named>) {
    forall ib :: ib in Flat(dir) && Writes(ib) ==> InboundSettles(db, ib)
  }

  /** The credential of the user of a single-user inbound can be written, once it is read from the file. */
  lemma OwnUserWritable(s: State, enc: map<string, string>, order: seq<string>, ib: Inbound)
    requires CleanState(s, enc) && R.Enumerates(order, ParseDir(s.dir, enc))
    requires ib in Flat(s.dir) && Parsable(ib) && SingleUser(ib)
    ensures var db' := S.ProcessAll(s.db, ParseDir(s.dir, enc), order);
            && ib.settings.password in Shows(ib) && Clean(ib.settings.password)
            && ib.tag in db'.inbounds && ib.settings.password in db'.inbounds[ib.tag].clients
            && Writable(db'.inbounds[ib.tag].clients[ib.settings.password].stored)
  {
    hide S.ProcessAll, Extract, R.NoTagMoved, R.WellFormed, CleanParsed, S.Tags, ParseDir, Flat, Trim, S.Sanitize, Lower, CleanDir;
    var files := ParseDir(s.dir, enc);
    CleanDirParses(s.dir, enc);
    CleanIsOrderly(s.dir);
    var g := FileOf(s.dir, enc, ib);
    Resync.RowAfterSync(s.db, files, order, g, ib.tag);
    SingleUserShown(ib, enc);
    SingleUserShown(ib, map[]);
    CleanClients(s.dir, enc, ib);
    var own := OwnUser(ib.settings);
    assert own in Extract(ib, map[]) && own.identity in Shows(ib);
    OneClient(if ib.tag in s.db.inbounds then s.db.inbounds[ib.tag].clients else map[], own);
    OwnUserStored(ib.settings);
  }

  lemma OneClient(clients: map<string, S.Enrolment>, c: Parsed)
    requires Clean(c.identity)
    ensures R.ClientsAfter(clients, [c]) == S.Enrol(clients, c.identity, c.stored)
  {
    hide S.Sanitize, S.Enrol;
    assert [c][1..] == [];
  }

  lemma OwnUserStored(settings: Settings)
    requires settings.Settings?
    ensures Writable(OwnUser(settings).stored)
  {
    LowerFixed();
  }

  lemma OwnUserListed(s: State, enc: map<string, string>, order: seq<string>, ib: Inbound, rows: seq<Row>)
    requires CleanState(s, enc) && R.Enumerates(order, ParseDir(s.dir, enc))
    requires ib in Flat(s.dir) && Parsable(ib) && SingleUser(ib)
    requires Answer(S.ProcessAll(s.db, ParseDir(s.dir, enc), order), ib.tag, rows)
    ensures (forall r :: r in rows && Trim(r.username) == ib.settings.password ==> !Writable(r.stored)) <==>
            Barred(s.db, ib.tag, ib.settings.password)
  {
    hide S.ProcessAll, CleanTables, R.NoTagMoved, CleanDir, ParseDir, Flat, Answer, Trim, Writable, Extract, Shows,
         Active, S.Sanitize, Barred;
    var db', own := S.ProcessAll(s.db, ParseDir(s.dir, enc), order), ib.settings.password;
    FirstListing(s, enc, order, ib.tag, rows);
    OwnUserWritable(s, enc, order, ib);
    ActiveAfterSync(s, enc, order, ib, own);
    CleanIsTrimmed(own);
    if Active(db', ib.tag, own) {
      assert Row(own, db'.inbounds[ib.tag].clients[own].stored) in rows;
    } else {
      forall r | r in rows
        ensures Trim(r.username) != own
      {
        assert Genuine(db', ib.tag, r);
      }
    }
  }

  lemma FirstListing(s: State, enc: map<string, string>, order: seq<string>, t: string, rows: seq<Row>)
    requires CleanState(s, enc) && R.Enumerates(order, ParseDir(s.dir, enc))
    requires Answer(S.ProcessAll(s.db, ParseDir(s.dir, enc), order), t, rows)
    ensures var db' := S.ProcessAll(s.db, ParseDir(s.dir, enc), order);
            && CleanTables(db')
            && (forall r :: r in rows ==> Genuine(db', t, r) && Active(db', t, r.username))
            && forall u :: Active(db', t, u) ==> Trim(u) == u && Row(u, db'.inbounds[t].clients[u].stored) in rows
  {
    hide S.ProcessAll, CleanTables, R.NoTagMoved, CleanDir, ParseDir, Trim, Active, Answer, R.TidyInbounds, R.Structured;
    CleanDirParses(s.dir, enc);
    CleanAfterSync(s.db, ParseDir(s.dir, enc), order);
    Listing(S.ProcessAll(s.db, ParseDir(s.dir, enc), order), t, rows);
  }

  /** For one inbound the condition on what the database answers is the condition on the tables before. */
  lemma InboundExactly(s: State, enc: map<string, string>, order: seq<string>, ib: Inbound, rows: seq<Row>)
    requires CleanState(s, enc) && R.Enumerates(order, ParseDir(s.dir, enc))
    requires ib in Flat(s.dir) && Writes(ib) && Answer(S.ProcessAll(s.db, ParseDir(s.dir, enc), order), ib.tag, rows)
    ensures SettlesAt(Flat(s.dir), ib.tag, rows) <==> InboundSettles(s.db, ib)
  {
    hide S.ProcessAll, R.NoTagMoved, CleanDir, CleanTables, ParseDir, Flat, Receptive, SingleUser, Answer, Trim, Writable, Shows,
         Position, ExistingIdentities, Missing, Barred;
    CleanIsOrderly(s.dir);
    ExistingOf(s.dir, ib);
    MissingAfterSync(s, enc, order, ib);
    FirstListing(s, enc, order, ib.tag, rows);
    WantingIsMissing(S.ProcessAll(s.db, ParseDir(s.dir, enc), order), ib, rows);
    NobodyWanting(rows, Shows(ib));
    if SingleUser(ib) {
      OwnUserListed(s, enc, order, ib, rows);
    }
  }

  lemma NobodyWanting(rows: seq<Row>, ids: set<string>)
    ensures Wanting(rows, ids) == {} <==>
            forall r :: r in rows ==> Trim(r.username) == "" || Trim(r.username) in ids || !Writable(r.stored)
  {
    hide Trim, Writable;
    if r :| r in rows && !(Trim(r.username) == "" || Trim(r.username) in ids || !Writable(r.stored)) {
      assert Trim(r.username) in Wanting(rows, ids);
    }
  }

  /** The condition on the answers of the database is the condition on the tables and files before. */
  lemma SettlesExactly(s: State, enc: map<string, string>, order: seq<string>, tags: seq<string>, listing: map<string, seq<Row>>,
                       db': S.Tables, back: Back)
    requires CleanState(s, enc) && Pass(s.db, s.dir, enc, order, tags, listing, db', back)
    ensures (forall t :: t in tags ==> SettlesAt(Flat(s.dir), t, listing[t])) <==> Settles(s.db, s.dir)
  {
    hide S.ProcessAll, R.NoTagMoved, CleanDir, CleanTables, ParseDir, Flat, Answer, SettlesAt, InboundSettles, SyncBack,
         R.Enumerates;
    forall ib | ib in Flat(s.dir) && Writes(ib)
      ensures ib.tag in tags && (SettlesAt(Flat(s.dir), ib.tag, listing[ib.tag]) <==> InboundSettles(s.db, ib))
    {
      MissingAfterSync(s, enc, order, ib);
      InboundExactly(s, enc, order, ib, listing[ib.tag]);
    }
    CleanIsOrderly(s.dir);
    forall t | t in tags && !SettlesAt(Flat(s.dir), t, listing[t])
      ensures exists ib :: ib in Flat(s.dir) && Writes(ib) && ib.tag == t
    {
      UnsettlingWhere(Flat(s.dir), t, listing[t]);
      var ib := WrittenAt(s.dir, t);
    }
  }

  lemma UnsettlingWhere(ibs: seq<Inbound>, t: string, rows: seq<Row>)
    requires !SettlesAt(ibs, t, rows)
    ensures t != "" && ExistingIdentities(ibs, t).Some? && Accepts(ibs, t)
  {
    hide ExistingIdentities, Accepts, Writable, Trim, Receptive, SingleUser;
  }

  lemma SettledAfterPass(s: State, enc: map<string, string>, order: seq<string>, tags: seq<string>, listing: map<string, seq<Row>>,
                         db': S.Tables, back: Back)
    requires CleanState(s, enc) && Pass(s.db, s.dir, enc, order, tags, listing, db', back)
    ensures AllShown(db', back.dir) <==> Settles(s.db, s.dir)
  {
    hide CleanTables, CleanDir, Orderly, R.NoTagMoved, ParseDir, Settles, AllShown, Flat, SettlesAt, Settled, S.ProcessAll, SyncBack,
         Answer, R.Enumerates, Unique, Mirrors;
    SettlesExactly(s, enc, order, tags, listing, db', back);
    CleanIsOrderly(s.dir);
    UniqueOf(s.dir);
    SyncBackSettles(s.dir, tags, listing);
    PassReflects(s.db, s.dir, enc, order, tags, listing, db', back);
    SettledTags(db', back.dir, tags, listing);
  }

  lemma UniqueOf(dir: seq<Named>)
    requires Orderly(dir)
    ensures Unique(Flat(dir))
  {
  }

  // ----- what is shown after the pass -----

  /** What an inbound shows after a pass. */
  function WillShow(db: S.Tables, ib: Inbound): set<string>
    requires ib.Inbound?
  {
    if !Writes(ib) || Missing(db, ib) == {} then Shows(ib)
    else if Receptive(ib) then Shows(ib) + Missing(db, ib)
    else if SingleUser(ib) then Missing(db, ib)
    else Shows(ib)
  }

  lemma EvolvedWrites(db: S.Tables, ib: Inbound, ib': Inbound)
    requires Evolved(db, ib, ib')
    ensures Parsable(ib') == Parsable(ib) && Writes(ib') == Writes(ib)
    ensures ib.Inbound? ==> ib'.Inbound? && ib'.tag == ib.tag
  {
  }

  /** What an inbound shows once the users missing from it are written back. */
  lemma ShownAfterWriteBack(db: S.Tables, dir: seq<Named>, enc: map<string, string>, tags: seq<string>, listing: map<string, seq<Row>>,
                            i: nat)
    requires Reflected(db, dir, enc) && Answers(db, tags, listing) && i < |Flat(dir)| && Parsable(Flat(dir)[i])
    ensures var dir' := SyncBack(dir, tags, listing).dir;
            && |Flat(dir')| == |Flat(dir)| && Evolved(db, Flat(dir)[i], Flat(dir')[i])
            && Parsable(Flat(dir')[i]) && Writes(Flat(dir')[i]) == Writes(Flat(dir)[i]) && Flat(dir')[i].tag == Flat(dir)[i].tag
            && Shows(Flat(dir')[i]) == WillShow(db, Flat(dir)[i])
  {
    hide CleanTables, Orderly, ParseDir, Flat, SyncBack, Answer, Unique, Mirrors, Shows, Missing, Receptive, SingleUser, Evolved,
         EvolvedDir, ExistingIdentities, Position, Wanting;
    var ib, t, dir' := Flat(dir)[i], Flat(dir)[i].tag, SyncBack(dir, tags, listing).dir;
    WriteBackReflects(db, dir, enc, tags, listing);
    EvolvedFlat(db, dir, dir');
    EvolvedWrites(db, ib, Flat(dir')[i]);
    ExistingOf(dir, ib);
    ExistingOf(dir', Flat(dir')[i]);
    UniqueOf(dir);
    SyncBackShows(dir, tags, listing);
    if t in tags {
      WantingIsMissing(db, ib, listing[t]);
    } else {
      NobodyMissingWithoutRow(db, ib);
    }
  }

  lemma NobodyMissingWithoutRow(db: S.Tables, ib: Inbound)
    requires ib.Inbound? && ib.tag !in db.inbounds
    ensures Missing(db, ib) == {}
  {
  }

  lemma ShownAfterPass(s: State, enc: map<string, string>, order: seq<string>, tags: seq<string>, listing: map<string, seq<Row>>,
                       db': S.Tables, back: Back, i: nat)
    requires CleanState(s, enc) && Pass(s.db, s.dir, enc, order, tags, listing, db', back)
    requires i < |Flat(s.dir)| && Parsable(Flat(s.dir)[i])
    ensures |Flat(back.dir)| == |Flat(s.dir)|
    ensures var ib, ib' := Flat(s.dir)[i], Flat(back.dir)[i];
            Parsable(ib') && Writes(ib') == Writes(ib) && ib'.tag == ib.tag && Shows(ib') == WillShow(s.db, ib)
  {
    hide CleanTables, CleanDir, Reflected, R.NoTagMoved, ParseDir, Flat, S.ProcessAll, SyncBack, Answer, R.Enumerates,
         Shows, Missing, Receptive, SingleUser, Evolved, EvolvedDir;
    PassReflects(s.db, s.dir, enc, order, tags, listing, db', back);
    ShownAfterWriteBack(db', s.dir, enc, tags, listing, i);
    MissingAfterSync(s, enc, order, Flat(s.dir)[i]);
  }

  // ----- names -----

  /** What the identities of an inbound are sanitised to. */
  function Stands(ib: Inbound): set<string>
    requires ib.Inbound?
  {
    set id | id in Shows(ib) && S.Sanitize(id) != "" :: S.Sanitize(id)
  }

  lemma SanitizeBlank()
    ensures S.Sanitize("") == ""
  {
  }

  lemma StandsFor(ib: Inbound, enc: map<string, string>)
    requires Parsable(ib)
    ensures R.Users(S.ParseInbound(ib, enc).clients) == Stands(ib)
  {
    hide Extract, S.Sanitize, Lower;
    EncryptionLeavesIdentities(ib, enc, map[]);
    SanitizeBlank();
    var cs := S.ParseInbound(ib, enc).clients;
    forall v
      ensures v in R.Users(cs) <==> v in Stands(ib)
    {
      if v in R.Users(cs) {
        var c :| c in cs && S.Sanitize(c.identity) != "" && S.Sanitize(c.identity) == v;
        assert c.identity in IdentitySet(cs);
        assert c.identity in Shows(ib);
      }
      if v in Stands(ib) {
        var id :| id in Shows(ib) && S.Sanitize(id) != "" && S.Sanitize(id) == v;
        assert id in IdentitySet(Extract(ib, map[]));
        assert id in IdentitySet(cs);
        var c :| c in cs && c.identity == id;
      }
    }
  }

  /** Nobody gets an account from what the inbound shows. */
  predicate CreatesNobody(db: S.Tables, ib: Inbound)
    requires ib.Inbound?
  {
    forall v :: v in Stands(ib) ==> v in db.users || Trim(v) in db.users
  }

  /** Whoever else gets enrolled by what the inbound shows is shown, too, or barred. */
  predicate EnrolsNobody(db: S.Tables, ib: Inbound)
    requires ib.Inbound?
  {
    forall v :: v in Stands(ib) && v in db.users ==> v in Shows(ib) || Barred(db, ib.tag, v)
  }

  lemma NoneCreatesFrom(db: S.Tables, ib: Inbound, enc: map<string, string>)
    requires Parsable(ib)
    ensures A.NoneCreates(db.users, S.ParseInbound(ib, enc).clients) <==> CreatesNobody(db, ib)
  {
    hide Extract, S.Sanitize, Lower, Trim, Shows, Stands;
    StandsFor(ib, enc);
    var cs := S.ParseInbound(ib, enc).clients;
    if !A.NoneCreates(db.users, cs) {
      var c :| c in cs && A.Creates(db.users, c);
      assert S.Sanitize(c.identity) in R.Users(cs);
    }
    if !CreatesNobody(db, ib) {
      var v :| v in Stands(ib) && v !in db.users && Trim(v) !in db.users;
      assert v in R.Users(cs);
      var c :| c in cs && S.Sanitize(c.identity) != "" && S.Sanitize(c.identity) == v;
      assert A.Creates(db.users, c);
    }
  }

  lemma NoCreationInDir(db: S.Tables, dir: seq<Named>, enc: map<string, string>)
    requires Orderly(dir)
    ensures A.NoCreation(db.users, ParseDir(dir, enc)) <==> forall ib :: ib in Flat(dir) && Parsable(ib) ==> CreatesNobody(db, ib)
  {
    hide Orderly, ParseDir, Flat, CreatesNobody, A.NoneCreates, Extract, Lower, Trim, S.Tags, R.InboundOf, R.Structured;
    OrderlyParses(dir, enc);
    var files := ParseDir(dir, enc);
    if A.NoCreation(db.users, files) {
      forall ib | ib in Flat(dir) && Parsable(ib)
        ensures CreatesNobody(db, ib)
      {
        var g := FileOf(dir, enc, ib);
        NoneCreatesFrom(db, ib, enc);
      }
    }
    if forall ib :: ib in Flat(dir) && Parsable(ib) ==> CreatesNobody(db, ib) {
      forall g, pi: S.ParsedInbound | g in files && pi in files[g]
        ensures A.NoneCreates(db.users, pi.clients)
      {
        NoneCreatesFrom(db, pi.raw, enc);
      }
    }
  }

  // ----- a pass from tables that reflect the files -----

  /** What a user's enrolment becomes in a sync from files the tables reflect. */
  lemma EnrolmentAgain(db: S.Tables, dir: seq<Named>, enc: map<string, string>, order: seq<string>, ib: Inbound, u: string)
    requires Reflected(db, dir, enc) && R.Enumerates(order, ParseDir(dir, enc)) && ib in Flat(dir) && Parsable(ib) && u in db.users
    ensures var db' := S.ProcessAll(db, ParseDir(dir, enc), order);
            && ib.tag in db.inbounds && ib.tag in db'.inbounds && u in db'.users && db'.users[u] == db.users[u]
            && A.At(db'.inbounds[ib.tag].clients, u)
            == A.At(R.ClientsAfter(db.inbounds[ib.tag].clients, S.ParseInbound(ib, enc).clients), u)
  {
    hide S.ProcessAll, CleanTables, Orderly, ParseDir, Flat, R.ClientsAfter, Extract, Lower, S.Tags, R.Structured, R.InboundOf, Identities,
         R.NoTagMoved, Trim;
    var files := ParseDir(dir, enc);
    OrderlyParses(dir, enc);
    Resync.OwnedNoMove(db, files);
    var g := FileOf(dir, enc, ib);
    A.EnrolmentAfter(db, files, order, g, ib.tag, u);
    A.ProcessAllAlike(db, files, order, ib.tag);
  }

  /** An entry of a client list is stored with a credential that can be written, and an inbound without a client
      list shows clean names only. */
  lemma EntryIsWritable(ib: Inbound, enc: map<string, string>, p: Parsed)
    requires Parsable(ib) && OrderlyInbound(ib) && p in Extract(ib, enc)
    ensures Writable(p.stored) || Clean(p.identity)
  {
    hide Trim, Lower, S.Sanitize;
    LowerFixed();
    SocksHasNoClients();
    if HasClients(Lower(ib.protocol)) {
      EntriesAreWritable(ib, enc);
    } else {
      EncryptionLeavesIdentities(ib, enc, map[]);
      assert p.identity in IdentitySet(Extract(ib, enc));
    }
  }

  lemma EntriesAreWritable(ib: Inbound, enc: map<string, string>)
    requires ib.Inbound? && HasClients(Lower(ib.protocol))
    ensures forall p :: p in Extract(ib, enc) ==> Writable(p.stored)
  {
    hide Trim;
    LowerFixed();
    hide Lower;
    SocksHasNoClients();
  }

  /** Who is missing after such a sync. */
  lemma MissingAgain(db: S.Tables, dir: seq<Named>, enc: map<string, string>, order: seq<string>, ib: Inbound, u: string)
    requires Reflected(db, dir, enc) && R.Enumerates(order, ParseDir(dir, enc)) && ib in Flat(dir) && Parsable(ib) && u in db.users
    ensures u in Missing(S.ProcessAll(db, ParseDir(dir, enc), order), ib) <==>
            if u in Stands(ib) then u !in Shows(ib) && !Barred(db, ib.tag, u) else u in Missing(db, ib)
    ensures Barred(db, ib.tag, u) <==> Barred(S.ProcessAll(db, ParseDir(dir, enc), order), ib.tag, u)
  {
    hide S.ProcessAll, CleanTables, Mirrors, ParseDir, Flat, R.ClientsAfter, Extract, Lower, Shows, Writable, Trim, R.Users,
         S.Sanitize;
    EnrolmentAgain(db, dir, enc, order, ib, u);
    StandsFor(ib, enc);
    var cs, was := S.ParseInbound(ib, enc).clients, db.inbounds[ib.tag].clients;
    R.EnrolmentsKept(was, cs, u);
    if u in Stands(ib) {
      var p := R.StoredFromEntry(was, cs, u);
      EntryIsWritable(ib, enc, p);
      StandsShown(ib, enc, p);
    }
  }

  lemma StandsShown(ib: Inbound, enc: map<string, string>, p: Parsed)
    requires Parsable(ib) && p in Extract(ib, enc)
    ensures Clean(p.identity) ==> p.identity in Shows(ib)
  {
    hide Extract, S.Sanitize, Lower;
    EncryptionLeavesIdentities(ib, enc, map[]);
    assert p.identity in IdentitySet(Extract(ib, enc));
  }

  /** Nobody is missing after such a sync exactly when nobody was and nobody is enrolled by it who should be
      shown. */
  lemma ShownAgain(db: S.Tables, dir: seq<Named>, enc: map<string, string>, order: seq<string>, ib: Inbound)
    requires Reflected(db, dir, enc) && R.Enumerates(order, ParseDir(dir, enc)) && ib in Flat(dir) && Parsable(ib)
    requires S.ProcessAll(db, ParseDir(dir, enc), order).users == db.users
    ensures var db' := S.ProcessAll(db, ParseDir(dir, enc), order);
            && (Missing(db', ib) == {} <==> Missing(db, ib) == {} && EnrolsNobody(db, ib))
            && (EnrolsNobody(db, ib) <==> EnrolsNobody(db', ib))
  {
    hide S.ProcessAll, Reflected, ParseDir, Flat, Shows, Stands, Barred, Missing;
    var db' := S.ProcessAll(db, ParseDir(dir, enc), order);
    forall u | u in db.users
      ensures u in Missing(db', ib) <==> if u in Stands(ib) then u !in Shows(ib) && !Barred(db, ib.tag, u) else u in Missing(db, ib)
      ensures u in Stands(ib) && u in Missing(db, ib) ==> u !in Shows(ib) && !Barred(db, ib.tag, u)
      ensures Barred(db, ib.tag, u) <==> Barred(db', ib.tag, u)
    {
      MissingAgain(db, dir, enc, order, ib, u);
      MissingIsUser(db, ib);
    }
    MissingIsUser(db, ib);
    MissingIsUser(db', ib);
  }

  lemma MissingIsUser(db: S.Tables, ib: Inbound)
    requires ib.Inbound?
    ensures forall u :: u in Missing(db, ib) ==> u in db.users && u !in Shows(ib) && !Barred(db, ib.tag, u)
  {
    hide Shows, Writable;
  }

  /** The state between passes in which nothing is left to do: the tables reflect the files, nobody is missing, and
      no identity of the files makes an account or an enrolment to be written. */
  ghost predicate Quiet(db: S.Tables, dir: seq<Named>, enc: map<string, string>) {
    && Reflected(db, dir, enc) && AllShown(db, dir)
    && forall ib :: ib in Flat(dir) && Parsable(ib) ==> CreatesNobody(db, ib) && (Writes(ib) ==> EnrolsNobody(db, ib))
  }

  /** A pass from tables that reflect the files writes no client and creates no account exactly when the state is
      quiet. */
  lemma IdleExactly(db: S.Tables, dir: seq<Named>, enc: map<string, string>, order: seq<string>, tags: seq<string>,
                    listing: map<string, seq<Row>>, db': S.Tables, back: Back)
    requires Reflected(db, dir, enc) && Pass(db, dir, enc, order, tags, listing, db', back)
    ensures db'.users == db.users <==> forall ib :: ib in Flat(dir) && Parsable(ib) ==> CreatesNobody(db, ib)
    ensures db'.users == db.users && back.added == 0 <==> Quiet(db, dir, enc)
    ensures back.added == 0 ==> back.dir == dir
  {
    hide S.ProcessAll, CleanTables, Orderly, Mirrors, ParseDir, Flat, Settled, SyncBack, Answer, R.Structured,
         CreatesNobody, EnrolsNobody, Missing, A.NoCreation;
    OrderlyParses(dir, enc);
    A.NobodyNewExactly(db, ParseDir(dir, enc), order);
    NoCreationInDir(db, dir, enc);
    StaysReflected(db, dir, enc, order, tags, listing, db', back);
    SettledTags(db', dir, tags, listing);
    SyncBackIdle(dir, tags, listing);
    if db'.users == db.users {
      forall ib | ib in Flat(dir) && Writes(ib)
        ensures Missing(db', ib) == {} <==> Missing(db, ib) == {} && EnrolsNobody(db, ib)
      {
        ShownAgain(db, dir, enc, order, ib);
      }
    }
  }

  /** A pass from a quiet state writes no client and creates no user, and leaves a quiet state that further syncs do
      not change. */
  lemma QuietPass(db: S.Tables, dir: seq<Named>, enc: map<string, string>, order: seq<string>, tags: seq<string>,
                  listing: map<string, seq<Row>>, db': S.Tables, back: Back)
    requires Quiet(db, dir, enc) && Pass(db, dir, enc, order, tags, listing, db', back)
    ensures back.dir == dir && back.added == 0
    ensures db'.users == db.users && Quiet(db', dir, enc)
    ensures forall again :: R.Enumerates(again, ParseDir(dir, enc)) ==> S.ProcessAll(db', ParseDir(dir, enc), again) == db'
  {
    hide S.ProcessAll, CleanTables, Orderly, ParseDir, Flat, SyncBack, Answer, R.Structured,
         EnrolsNobody, Missing, Shows, Stands, A.NoCreation, R.NoTagMoved;
    IdleExactly(db, dir, enc, order, tags, listing, db', back);
    SyncBackIdle(dir, tags, listing);
    StaysReflected(db, dir, enc, order, tags, listing, db', back);
    SettledTags(db', dir, tags, listing);
    NoCreationInDir(db, dir, enc);
    OrderlyParses(dir, enc);
    ReferentialOf(db);
    Resync.OwnedNoMove(db, ParseDir(dir, enc));
    forall ib | ib in Flat(dir) && Writes(ib)
      ensures EnrolsNobody(db', ib)
    {
      ShownAgain(db, dir, enc, order, ib);
    }
    forall again | R.Enumerates(again, ParseDir(dir, enc))
      ensures S.ProcessAll(db', ParseDir(dir, enc), again) == db'
    {
      A.SyncTwice(db, ParseDir(dir, enc), order, again);
    }
  }

  // ----- told from the state before the first pass -----

  /** An inbound that will show who is written to it. */
  predicate Extensible(ib: Inbound) {
    Writes(ib) && (Receptive(ib) || SingleUser(ib))
  }

  /** Once this name is in the files, it makes no account. */
  ghost predicate MakesNobody(db: S.Tables, dir: seq<Named>, u: string) {
    var v := S.Sanitize(u);
    v == "" || Known(db, dir, v) || Known(db, dir, Trim(v))
  }

  /** Moreover, if it stands for another user, that one will be shown by the inbound as well, or is switched off. */
  ghost predicate HarmlessName(db: S.Tables, dir: seq<Named>, ib: Inbound, u: string)
    requires ib.Inbound?
  {
    var v := S.Sanitize(u);
    v == "" || (if Known(db, dir, v) then v in WillShow(db, ib) || Barred(db, ib.tag, v) else Known(db, dir, Trim(v)))
  }

  ghost predicate NobodyNew(db: S.Tables, dir: seq<Named>) {
    forall ib, u :: ib in Flat(dir) && Extensible(ib) && u in Missing(db, ib) ==> MakesNobody(db, dir, u)
  }

  ghost predicate Harmless(db: S.Tables, dir: seq<Named>) {
    forall ib, u :: ib in Flat(dir) && Extensible(ib) && u in Missing(db, ib) ==> HarmlessName(db, dir, ib, u)
  }

  /** Names that sanitising leaves alone are harmless. */
  lemma CleanNamesAreHarmless(db: S.Tables, dir: seq<Named>)
    requires CleanNames(db)
    ensures Harmless(db, dir)
  {
    hide S.Sanitize, Flat, Missing, Receptive, SingleUser, Trim, Shows;
    forall ib, u | ib in Flat(dir) && Extensible(ib) && u in Missing(db, ib)
      ensures HarmlessName(db, dir, ib, u)
    {
      MissingIsUser(db, ib);
      assert Clean(u) && Known(db, dir, u);
      assert u in WillShow(db, ib);
    }
  }

  lemma WillShowMembers(db: S.Tables, ib: Inbound)
    requires ib.Inbound?
    ensures forall id :: id in WillShow(db, ib) ==> id in Shows(ib) || (Extensible(ib) && id in Missing(db, ib))
    ensures Extensible(ib) ==> Missing(db, ib) <= WillShow(db, ib)
    ensures !Extensible(ib) ==> WillShow(db, ib) == Shows(ib)
  {
    hide Shows, Missing, Receptive, SingleUser;
  }

  /** For one identity an inbound shows after the pass, the conditions on the state after and before. */
  lemma NameAfterPass(s: State, enc: map<string, string>, order: seq<string>, ib: Inbound, ib': Inbound, id: string)
    requires CleanState(s, enc) && R.Enumerates(order, ParseDir(s.dir, enc)) && ib in Flat(s.dir) && Parsable(ib)
    requires ib'.Inbound? && ib'.tag == ib.tag && Shows(ib') == WillShow(s.db, ib) && id in Shows(ib')
    ensures var db', v := S.ProcessAll(s.db, ParseDir(s.dir, enc), order), S.Sanitize(id);
            && (MakesNobody(s.db, s.dir, id) <==> v == "" || v in db'.users || Trim(v) in db'.users)
            && (HarmlessName(s.db, s.dir, ib, id) <==>
                v == "" || (if v in db'.users then v in Shows(ib') || Barred(db', ib'.tag, v) else Trim(v) in db'.users))
            && (id in Shows(ib) ==> HarmlessName(s.db, s.dir, ib, id) && MakesNobody(s.db, s.dir, id))
  {
    hide CleanDir, CleanTables, R.NoTagMoved, S.ProcessAll, S.Sanitize, Flat, Missing, Receptive, SingleUser, Trim, Shows, Known, Barred,
         ParseDir, WillShow;
    var v := S.Sanitize(id);
    KnownAfterSync(s, enc, order, v);
    KnownAfterSync(s, enc, order, Trim(v));
    ActiveAfterSync(s, enc, order, ib, v);
    if id in Shows(ib) {
      CleanClients(s.dir, enc, ib);
      ShownIsKnown(s.db, s.dir, ib, id);
    }
  }

  lemma ShownIsKnown(db: S.Tables, dir: seq<Named>, ib: Inbound, id: string)
    requires ib in Flat(dir) && Parsable(ib) && id in Shows(ib)
    ensures Known(db, dir, id)
  {
    hide Shows, Flat;
  }

  lemma InboundAfterPass(s: State, enc: map<string, string>, order: seq<string>, ib: Inbound, ib': Inbound)
    requires CleanState(s, enc) && R.Enumerates(order, ParseDir(s.dir, enc)) && ib in Flat(s.dir) && Parsable(ib)
    requires ib'.Inbound? && ib'.tag == ib.tag && Writes(ib') == Writes(ib) && Shows(ib') == WillShow(s.db, ib)
    ensures var db' := S.ProcessAll(s.db, ParseDir(s.dir, enc), order);
            && (CreatesNobody(db', ib') <==>
                (Extensible(ib) ==> forall u :: u in Missing(s.db, ib) ==> MakesNobody(s.db, s.dir, u)))
            && (CreatesNobody(db', ib') && (Writes(ib') ==> EnrolsNobody(db', ib')) <==>
                (Extensible(ib) ==> forall u :: u in Missing(s.db, ib) ==> HarmlessName(s.db, s.dir, ib, u)))
  {
    hide CleanState, S.ProcessAll, S.Sanitize, Flat, Missing, Receptive, SingleUser, Trim, Shows, Known, Barred, ParseDir, WillShow,
         MakesNobody, HarmlessName;
    var db' := S.ProcessAll(s.db, ParseDir(s.dir, enc), order);
    WillShowMembers(s.db, ib);
    forall id | id in Shows(ib')
      ensures var v := S.Sanitize(id);
              && (MakesNobody(s.db, s.dir, id) <==> v == "" || v in db'.users || Trim(v) in db'.users)
              && (HarmlessName(s.db, s.dir, ib, id) <==>
                  v == "" || (if v in db'.users then v in Shows(ib') || Barred(db', ib'.tag, v) else Trim(v) in db'.users))
              && (id in Shows(ib) ==> HarmlessName(s.db, s.dir, ib, id) && MakesNobody(s.db, s.dir, id))
    {
      NameAfterPass(s, enc, order, ib, ib', id);
    }
    StandsFrom(ib');
  }

  lemma StandsFrom(ib: Inbound)
    requires ib.Inbound?
    ensures forall id :: id in Shows(ib) ==> S.Sanitize(id) == "" || S.Sanitize(id) in Stands(ib)
    ensures forall v :: v in Stands(ib) ==> v != "" && exists id :: id in Shows(ib) && S.Sanitize(id) == v
  {
    hide Shows, S.Sanitize;
  }

  /** A pass leads to a quiet state, or to one whose next sync makes no account, exactly under the conditions on the
      state before it. */
  lemma QuietExactly(s: State, enc: map<string, string>, order: seq<string>, tags: seq<string>, listing: map<string, seq<Row>>,
                     db': S.Tables, back: Back)
    requires CleanState(s, enc) && Pass(s.db, s.dir, enc, order, tags, listing, db', back)
    ensures Reflected(db', back.dir, enc)
    ensures Quiet(db', back.dir, enc) <==> Settles(s.db, s.dir) && Harmless(s.db, s.dir)
    ensures (forall ib :: ib in Flat(back.dir) && Parsable(ib) ==> CreatesNobody(db', ib)) <==> NobodyNew(s.db, s.dir)
  {
    hide CleanTables, CleanDir, R.NoTagMoved, S.ProcessAll, ParseDir, Flat, Answer, SyncBack, Reflected, AllShown, Settles, CreatesNobody,
         EnrolsNobody, Missing, MakesNobody, HarmlessName, Extensible, WillShow, Shows, EvolvedDir, R.Enumerates, Evolved;
    PassReflects(s.db, s.dir, enc, order, tags, listing, db', back);
    SettledAfterPass(s, enc, order, tags, listing, db', back);
    EvolvedFlat(db', s.dir, back.dir);
    var a, b := Flat(s.dir), Flat(back.dir);
    forall i | 0 <= i < |a|
      ensures Parsable(b[i]) == Parsable(a[i])
      ensures Parsable(a[i]) ==>
                && (CreatesNobody(db', b[i]) <==>
                    (Extensible(a[i]) ==> forall u :: u in Missing(s.db, a[i]) ==> MakesNobody(s.db, s.dir, u)))
                && (CreatesNobody(db', b[i]) && (Writes(b[i]) ==> EnrolsNobody(db', b[i])) <==>
                    (Extensible(a[i]) ==> forall u :: u in Missing(s.db, a[i]) ==> HarmlessName(s.db, s.dir, a[i], u)))
    {
      EvolvedWrites(db', a[i], b[i]);
      if Parsable(a[i]) {
        assert a[i] in a;
        ShownAfterPass(s, enc, order, tags, listing, db', back, i);
        InboundAfterPass(s, enc, order, a[i], b[i]);
      }
    }
    ExtensibleIsParsable();
  }

  lemma ExtensibleIsParsable()
    ensures forall ib: Inbound :: Extensible(ib) ==> Parsable(ib)
  {
  }

  /** Main result: over clean files, whatever the users are called, the second of two passes writes no client and
      creates no account exactly when, before the first, two things hold. Every inbound is receptive, or not missing
      anybody active with a writable credential, or a single-user Shadowsocks inbound whose own user is switched off.
      And the name of every user about to be written and shown is harmless: sanitised, it is blank or the name of a
      user who will be shown there as well or is switched off, or no name that can get an account. It creates no
      account exactly when each of these names, sanitised, is blank or has an account already, as it is or trimmed. */
  lemma SecondPassIdleExactly(s: State, s': State, s'': State, enc: map<string, string>, back: Back)
    requires CleanState(s, enc) && IsPass(s, s', enc) && PassTo(s', enc, s'', back)
    ensures s''.db.users == s'.db.users && back.added == 0 <==> Settles(s.db, s.dir) && Harmless(s.db, s.dir)
    ensures s''.db.users == s'.db.users <==> NobodyNew(s.db, s.dir)
  {
    hide CleanState, Pass, ParseDir, Settles, Reflected, Quiet, Harmless, NobodyNew, Flat, CreatesNobody;
    var first :| PassTo(s, enc, s', first);
    var order, tags, listing :| Pass(s.db, s.dir, enc, order, tags, listing, s'.db, first) && s'.dir == first.dir;
    var order', tags', listing' :| Pass(s'.db, s'.dir, enc, order', tags', listing', s''.db, back) && s''.dir == back.dir;
    QuietExactly(s, enc, order, tags, listing, s'.db, first);
    IdleExactly(s'.db, s'.dir, enc, order', tags', listing', s''.db, back);
  }

  /** When sanitising leaves the names of all users alone, the first condition decides alone. */
  lemma SecondPassOfCleanNames(s: State, s': State, s'': State, enc: map<string, string>, back: Back)
    requires CleanState(s, enc) && CleanNames(s.db) && IsPass(s, s', enc) && PassTo(s', enc, s'', back)
    ensures s''.db.users == s'.db.users && (back.added == 0 <==> Settles(s.db, s.dir))
  {
    hide CleanState, PassTo, Settles, Known, Flat, Missing, Extensible, WillShow, Barred, S.Sanitize, Trim;
    SecondPassIdleExactly(s, s', s'', enc, back);
    CleanNamesAreHarmless(s.db, s.dir);
  }

  // ----- runs of passes -----

  /** Main result: over any run of passes from clean files under that condition, with whatever orders and answers,
      every pass after the first leaves all files as they are and creates no user, and every pass after the second
      leaves the database as it is too. */
  lemma {:induction false} SyncReachesAFixpoint(states: seq<State>, enc: map<string, string>, n: nat)
    requires 1 <= n < |states|
    requires forall i :: 0 <= i < |states| - 1 ==> IsPass(states[i], states[i + 1], enc)
    requires CleanState(states[0], enc) && Settles(states[0].db, states[0].dir) && Harmless(states[0].db, states[0].dir)
    ensures Quiet(states[n].db, states[n].dir, enc)
    ensures states[n].dir == states[1].dir && states[n].db.users == states[1].db.users
    ensures n >= 2 ==> states[n] == states[2]
    ensures n >= 2 ==> forall again :: R.Enumerates(again, ParseDir(states[n].dir, enc)) ==>
              S.ProcessAll(states[n].db, ParseDir(states[n].dir, enc), again) == states[n].db
  {
    hide Quiet, Pass, CleanState, Settles, Harmless, ParseDir, S.ProcessAll, R.Enumerates, Reflected, Flat, CreatesNobody;
    var s, s' := states[n - 1], states[n];
    assert IsPass(s, states[n - 1 + 1], enc);
    var back :| PassTo(s, enc, s', back);
    var order, tags, listing :| Pass(s.db, s.dir, enc, order, tags, listing, s'.db, back) && s'.dir == back.dir;
    if n == 1 {
      QuietExactly(s, enc, order, tags, listing, s'.db, back);
    } else {
      SyncReachesAFixpoint(states, enc, n - 1);
      QuietPass(s.db, s.dir, enc, order, tags, listing, s'.db, back);
      PassSyncs(s.db, s.dir, enc, order, tags, listing, s'.db, back);
    }
  }

  lemma PassSyncs(db: S.Tables, dir: seq<Named>, enc: map<string, string>, order: seq<string>, tags: seq<string>,
                  listing: map<string, seq<Row>>, db': S.Tables, back: Back)
    requires Pass(db, dir, enc, order, tags, listing, db', back)
    ensures R.Enumerates(order, ParseDir(dir, enc)) && db' == S.ProcessAll(db, ParseDir(dir, enc), order)
  {
  }

  /** One more client of a new identity shows up besides the ones shown before exactly when the inbound is
      receptive. */
  lemma ReceptiveExactly(ib: Inbound, c: Item, enc: map<string, string>)
    requires ib.Inbound? && ib.settings.Settings? && c.Item? && c.email != "" && c.email !in Identities(Extract(ib, enc))
    ensures Identities(Extract(Appended(ib, c), enc)) == Identities(Extract(ib, enc)) + {c.email} <==> Receptive(ib)
  {
    hide Receptive, SingleUser, Extract, Identities;
    OneMoreShown(ib, c, enc);
    if !Receptive(ib) && SingleUser(ib) {
      assert ib.settings.password in Identities(Extract(ib, enc));
    }
  }
}
