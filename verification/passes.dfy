/** Passes of the two-way sync: what every pass keeps, whatever users are called, and what a sync from clean files
    makes of the tables. */
module Passes {
  import opened ConfigFile
  import opened Credentials
  import opened Options
  import opened Restore
  import opened RestoreResults
  import opened Settling
  import opened Text
  import opened TwoWay
  import opened TwoWayResults
  import A = Accounts
  import S = Sync
  import R = SyncResults
  import Resync

  // ----- states and passes -----

  /** The tables and the files between two passes. */
  datatype State = State(db: S.Tables, dir: seq<Named>)

  /** A pass with this result, for some order of the files and some order of the answers. */
  ghost predicate PassTo(s: State, enc: map<string, string>, s': State, back: Back) {
    exists order, tags, listing :: Pass(s.db, s.dir, enc, order, tags, listing, s'.db, back) && s'.dir == back.dir
  }

  ghost predicate IsPass(s: State, s': State, enc: map<string, string>) {
    exists back :: PassTo(s, enc, s', back)
  }

  /** What the first pass starts from. */
  ghost predicate CleanState(s: State, enc: map<string, string>) {
    CleanTables(s.db) && CleanDir(s.dir) && R.NoTagMoved(s.db, ParseDir(s.dir, enc))
  }

  // ----- inbounds -----

  /** The identities an inbound shows. */
  function Shows(ib: Inbound): set<string>
    requires ib.Inbound?
  {
    Identities(Extract(ib, map[]))
  }

  /** An inbound the parser takes in. */
  predicate Parsable(ib: Inbound) {
    ib.Inbound? && ib.port.Some?
  }

  /** An inbound clients can be written to. */
  predicate Writes(ib: Inbound) {
    Parsable(ib) && ib.settings.Settings? && ib.tag != ""
  }

  /** The active users of an inbound with a writable credential whom it does not show. */
  function Missing(db: S.Tables, ib: Inbound): set<string>
    requires ib.Inbound?
  {
    if ib.tag !in db.inbounds then {}
    else
      var clients := db.inbounds[ib.tag].clients;
      set u | u in clients && u != "" && Active(db, ib.tag, u) && Writable(clients[u].stored) && u !in Shows(ib)
  }

  /** A user or enrolment that is switched off. */
  predicate Barred(db: S.Tables, t: string, u: string) {
    || (u in db.users && !db.users[u].enabled)
    || (t in db.inbounds && u in db.inbounds[t].clients && !db.inbounds[t].clients[u].enabled)
  }

  ghost predicate AllShown(db: S.Tables, dir: seq<Named>) {
    forall ib :: ib in Flat(dir) && Writes(ib) ==> Missing(db, ib) == {}
  }

  lemma {:induction false} FlatMember(dir: seq<Named>, ib: Inbound) returns (k: nat)
    requires ib in Flat(dir)
    ensures k < |dir| && ib in dir[k].file.inbounds
  {
    if ib in dir[0].file.inbounds {
      k := 0;
    } else {
      var n := FlatMember(dir[1..], ib);
      k := n + 1;
    }
  }

  /** The file that holds an inbound. */
  lemma FileOf(dir: seq<Named>, enc: map<string, string>, ib: Inbound) returns (g: string)
    requires Orderly(dir) && ib in Flat(dir) && Parsable(ib)
    ensures g in ParseDir(dir, enc) && ib.tag in S.Tags(ParseDir(dir, enc)[g])
    ensures R.InboundOf(ParseDir(dir, enc)[g], ib.tag) == S.ParseInbound(ib, enc)
    ensures S.ParseInbound(ib, enc) in ParseDir(dir, enc)[g]
  {
    hide ParseDir, S.Parse, Extract, Lower, Trim, Unique, Flat, OrderlyInbound, R.InboundOf;
    var k := FlatMember(dir, ib);
    g := dir[k].name;
    ParseDirAt(dir, enc);
    ParseMembers(dir[k].file.inbounds, enc);
    UniqueWithin(dir, k);
    ParseDistinct(dir[k].file.inbounds, enc);
    Resync.InboundIs(ParseDir(dir, enc)[g], S.ParseInbound(ib, enc));
  }

  /** What a fresh reading of the files finds for the tag of an inbound. */
  lemma ExistingOf(dir: seq<Named>, ib: Inbound)
    requires Orderly(dir) && ib in Flat(dir) && Parsable(ib)
    ensures ExistingIdentities(Flat(dir), ib.tag) == Some(Shows(ib))
    ensures Position(Flat(dir), ib.tag) < |Flat(dir)| && Flat(dir)[Position(Flat(dir), ib.tag)] == ib
  {
    hide Trim, Extract, Identities, Flat, Lower;
    ExistingAt(Flat(dir), ib.tag);
    assert OrderlyInbound(ib);
    var i :| 0 <= i < |Flat(dir)| && Flat(dir)[i] == ib;
    var p := Position(Flat(dir), ib.tag);
    assert HasTag(ib, ib.tag);
    assert p == i;
  }

  /** A tag that is read back and written to belongs to an inbound that can be written to. */
  lemma WrittenAt(dir: seq<Named>, t: string) returns (ib: Inbound)
    requires Orderly(dir) && t != "" && ExistingIdentities(Flat(dir), t).Some? && Accepts(Flat(dir), t)
    ensures ib in Flat(dir) && Writes(ib) && ib.tag == t
  {
    hide Trim, Extract, Identities, Flat, Lower;
    ExistingAt(Flat(dir), t);
    ib := Flat(dir)[Position(Flat(dir), t)];
    assert ib in Flat(dir) && OrderlyInbound(ib) && HasTag(ib, t);
  }

  // ----- what the database answers -----

  /** Users are listed under their names. */
  lemma Listing(db: S.Tables, t: string, rows: seq<Row>)
    requires CleanTables(db) && Answer(db, t, rows)
    ensures forall r :: r in rows ==> Genuine(db, t, r) && Active(db, t, r.username)
    ensures forall u :: Active(db, t, u) ==> Trim(u) == u && Row(u, db.inbounds[t].clients[u].stored) in rows
  {
    hide Trim;
    forall r | r in rows
      ensures Genuine(db, t, r) && Active(db, t, r.username)
    {
      var u :| Active(db, t, u) && r == RowFor(db, t, u);
    }
    forall u | Active(db, t, u)
      ensures Trim(u) == u && Row(u, db.inbounds[t].clients[u].stored) in rows
    {
      assert RowFor(db, t, u) in rows;
    }
  }

  /** The listed names that are to be written are the missing users. */
  lemma WantingIsMissing(db: S.Tables, ib: Inbound, rows: seq<Row>)
    requires CleanTables(db) && ib.Inbound? && Answer(db, ib.tag, rows)
    ensures Wanting(rows, Shows(ib)) == Missing(db, ib)
  {
    hide Trim, Shows, Writable, Answer, CleanTables;
    Listing(db, ib.tag, rows);
    forall u
      ensures u in Wanting(rows, Shows(ib)) <==> u in Missing(db, ib)
    {
      if u in Wanting(rows, Shows(ib)) {
        var r :| r in rows && Trim(r.username) != "" && Trim(r.username) !in Shows(ib) && Writable(r.stored) && u == Trim(r.username);
        assert Genuine(db, ib.tag, r);
      }
      if u in Missing(db, ib) {
        assert Row(u, db.inbounds[ib.tag].clients[u].stored) in rows;
      }
    }
  }

  lemma SettledWanting(ibs: seq<Inbound>, t: string, rows: seq<Row>, ids: set<string>)
    requires t != "" && ExistingIdentities(ibs, t) == Some(ids) && Accepts(ibs, t)
    ensures Settled(ibs, t, rows) <==> Wanting(rows, ids) == {}
  {
    hide Trim, Writable, ExistingIdentities, Accepts;
    if !Settled(ibs, t, rows) {
      var r :| r in rows && !Done(ibs, t, r, ids);
      assert Trim(r.username) in Wanting(rows, ids);
    }
  }

  /** Everything listed is settled exactly when no inbound is missing anybody. */
  lemma SettledTags(db: S.Tables, dir: seq<Named>, tags: seq<string>, listing: map<string, seq<Row>>)
    requires CleanTables(db) && Orderly(dir) && Answers(db, tags, listing)
    ensures (forall t :: t in tags ==> Settled(Flat(dir), t, listing[t])) <==> AllShown(db, dir)
  {
    hide CleanTables, Orderly, Answer, Flat, Settled, Shows, ExistingIdentities, Accepts, Writable;
    forall ib | ib in Flat(dir) && Writes(ib)
      ensures ib.tag in tags ==> (Settled(Flat(dir), ib.tag, listing[ib.tag]) <==> Missing(db, ib) == {})
      ensures ib.tag !in tags ==> Missing(db, ib) == {}
    {
      if ib.tag in tags {
        ExistingOf(dir, ib);
        AcceptsAt(Flat(dir), ib);
        SettledWanting(Flat(dir), ib.tag, listing[ib.tag], Shows(ib));
        WantingIsMissing(db, ib, listing[ib.tag]);
      }
    }
    forall t | t in tags && !Settled(Flat(dir), t, listing[t])
      ensures exists ib :: ib in Flat(dir) && Writes(ib) && ib.tag == t
    {
      UnsettledWhere(Flat(dir), t, listing[t]);
      var ib := WrittenAt(dir, t);
    }
  }

  lemma AcceptsAt(ibs: seq<Inbound>, ib: Inbound)
    requires Writes(ib) && Position(ibs, ib.tag) < |ibs| && ibs[Position(ibs, ib.tag)] == ib
    ensures Accepts(ibs, ib.tag)
  {
  }

  lemma UnsettledWhere(ibs: seq<Inbound>, t: string, rows: seq<Row>)
    requires !Settled(ibs, t, rows)
    ensures t != "" && ExistingIdentities(ibs, t).Some? && Accepts(ibs, t)
  {
    hide ExistingIdentities, Accepts, Writable, Trim;
  }

  // ----- what every pass keeps -----

  /** The files own the inbounds they have, and whoever an inbound shows is enrolled under that very name. */
  ghost predicate Mirrors(db: S.Tables, files: R.Files) {
    && Resync.Owned(db, files)
    && forall g, t :: g in files && t in S.Tags(files[g]) ==>
         t in db.inbounds && Identities(R.InboundOf(files[g], t).clients) <= db.inbounds[t].clients.Keys
  }

  ghost predicate Reflected(db: S.Tables, dir: seq<Named>, enc: map<string, string>) {
    CleanTables(db) && Orderly(dir) && Mirrors(db, ParseDir(dir, enc))
  }

  lemma CleanAfterSync(db: S.Tables, files: R.Files, order: seq<string>)
    requires CleanTables(db) && R.Structured(files) && R.Enumerates(order, files)
    ensures CleanTables(S.ProcessAll(db, files, order))
  {
    hide S.ProcessAll, Trim, R.Structured, Resync.Referential;
    A.ProcessAllAlike(db, files, order, "");
  }

  /** A sync from clean files. */
  lemma MirrorsAfterSync(db: S.Tables, files: R.Files, order: seq<string>)
    requires CleanTables(db) && R.WellFormed(files) && CleanParsed(files)
    requires R.NoTagMoved(db, files) && R.Enumerates(order, files)
    ensures Mirrors(S.ProcessAll(db, files, order), files)
  {
    hide R.Structured, R.NoTagMoved, S.ProcessAll, Clean, Trim, R.Users, Identities, R.TidyInbounds, IdentitySet, S.Tags;
    Resync.SyncBringsUpToDate(db, files, order);
    forall g, t | g in files && t in S.Tags(files[g])
      ensures Identities(R.InboundOf(files[g], t).clients) == R.Users(R.InboundOf(files[g], t).clients)
    {
      CleanUsers(R.InboundOf(files[g], t).clients);
    }
  }

  /** A sync from files the tables mirror already. */
  lemma MirrorsAgain(db: S.Tables, files: R.Files, order: seq<string>)
    requires Resync.Referential(db) && R.Structured(files) && Mirrors(db, files) && R.Enumerates(order, files)
    ensures Mirrors(S.ProcessAll(db, files, order), files)
  {
    hide R.Structured, R.NoTagMoved, S.ProcessAll, S.Tags, R.InboundOf, R.Synced, Identities, R.Users;
    Resync.OwnedNoMove(db, files);
    A.SyncOwns(db, files, order);
    var db' := S.ProcessAll(db, files, order);
    forall g, t | g in files && t in S.Tags(files[g])
      ensures Identities(R.InboundOf(files[g], t).clients) <= db'.inbounds[t].clients.Keys
    {
      Resync.EnrolmentsOfRow(g, R.InboundOf(files[g], t), S.RowOf(db, t));
      forall id | id in Identities(R.InboundOf(files[g], t).clients)
        ensures id in db'.inbounds[t].clients
      {
        assert id in db.inbounds[t].clients;
        A.EnrolmentAfter(db, files, order, g, t, id);
      }
    }
  }

  lemma SameTags(db: S.Tables, enc: map<string, string>, xs: seq<S.ParsedInbound>, ys: seq<S.ParsedInbound>)
    requires ParsedEvolvedList(db, enc, xs, ys)
    ensures S.Tags(ys) == S.Tags(xs)
  {
    hide Evolved, Extract, Lower;
    assert forall i :: 0 <= i < |xs| ==> ys[i].tag == xs[i].tag;
  }

  /** The inbounds of one tag before and after. */
  lemma EvolvedPair(db: S.Tables, enc: map<string, string>, xs: seq<S.ParsedInbound>, ys: seq<S.ParsedInbound>, t: string)
    requires ParsedEvolvedList(db, enc, xs, ys) && R.DistinctTags(xs) && R.DistinctTags(ys)
    requires t in S.Tags(xs)
    ensures t in S.Tags(ys) && ParsedEvolved(db, enc, R.InboundOf(xs, t), R.InboundOf(ys, t))
  {
    hide Evolved, Extract, Lower, ParsedEvolved;
    var i :| 0 <= i < |xs| && xs[i].tag == t;
    PairTag(db, enc, xs[i], ys[i]);
    Resync.InboundIs(xs, xs[i]);
    Resync.InboundIs(ys, ys[i]);
  }

  lemma PairTag(db: S.Tables, enc: map<string, string>, x: S.ParsedInbound, y: S.ParsedInbound)
    requires ParsedEvolved(db, enc, x, y)
    ensures y.tag == x.tag
  {
  }

  /** Rewriting files keeps the tables a mirror of them: what was written is enrolled already. */
  lemma MirrorsEvolved(db: S.Tables, enc: map<string, string>, files: R.Files, files': R.Files)
    requires R.Structured(files) && R.Structured(files') && forall g, pi :: g in files && pi in files[g] ==> Trim(pi.tag) == pi.tag
    requires Mirrors(db, files) && FilesEvolved(db, enc, files, files')
    ensures Mirrors(db, files')
  {
    hide R.DistinctTags, Trim, ParsedEvolved, Identities, S.Tags;
    forall g | g in files
      ensures S.Tags(files'[g]) == S.Tags(files[g])
    {
      SameTags(db, enc, files[g], files'[g]);
    }
    forall g, t | g in files' && t in S.Tags(files'[g])
      ensures t in db.inbounds && db.inbounds[t].file == g
      ensures Identities(R.InboundOf(files'[g], t).clients) <= db.inbounds[t].clients.Keys
    {
      EvolvedPair(db, enc, files[g], files'[g], t);
      IdentitiesEvolved(db, enc, R.InboundOf(files[g], t), R.InboundOf(files'[g], t));
    }
  }

  lemma IdentitiesEvolved(db: S.Tables, enc: map<string, string>, x: S.ParsedInbound, y: S.ParsedInbound)
    requires ParsedEvolved(db, enc, x, y) && Trim(x.tag) == x.tag && x.tag in db.inbounds
    requires Identities(x.clients) <= db.inbounds[x.tag].clients.Keys
    ensures Identities(y.clients) <= db.inbounds[x.tag].clients.Keys
  {
    hide Evolved, Extract, Trim, Lower;
    EvolvedIdentities(db, x.raw, y.raw, enc);
    forall id | id in Identities(y.clients)
      ensures id in db.inbounds[x.tag].clients
    {
      assert id in IdentitySet(y.clients);
      assert id in IdentitySet(x.clients) ==> id in Identities(x.clients);
    }
  }

  /** Writing back keeps the tables a mirror of the files. */
  lemma WriteBackReflects(db: S.Tables, dir: seq<Named>, enc: map<string, string>, tags: seq<string>, listing: map<string, seq<Row>>)
    requires Reflected(db, dir, enc) && Answers(db, tags, listing)
    ensures var dir' := SyncBack(dir, tags, listing).dir; Reflected(db, dir', enc) && EvolvedDir(db, dir, dir')
  {
    hide CleanTables, Orderly, SyncBack, Mirrors, ParseDir, EvolvedDir, R.Structured, Genuine, Answer, FilesEvolved, Flat, Trim;
    var dir' := SyncBack(dir, tags, listing).dir;
    forall t | t in tags
      ensures forall r :: r in listing[t] ==> Genuine(db, t, r)
    {
      AnswersAreGenuine(db, t, listing[t]);
    }
    SyncBackEvolves(db, dir, tags, listing);
    OrderlyEvolved(db, dir, dir');
    OrderlyParses(dir, enc);
    OrderlyParses(dir', enc);
    ParseDirEvolved(db, enc, dir, dir');
    MirrorsEvolved(db, enc, ParseDir(dir, enc), ParseDir(dir', enc));
  }

  /** After one pass over clean files the tables reflect the files, including what was written to them. */
  lemma PassReflects(db: S.Tables, dir: seq<Named>, enc: map<string, string>, order: seq<string>, tags: seq<string>,
                     listing: map<string, seq<Row>>, db': S.Tables, back: Back)
    requires CleanTables(db) && CleanDir(dir) && R.NoTagMoved(db, ParseDir(dir, enc))
    requires Pass(db, dir, enc, order, tags, listing, db', back)
    ensures Reflected(db', dir, enc) && Reflected(db', back.dir, enc) && EvolvedDir(db', dir, back.dir)
  {
    hide CleanTables, CleanDir, R.NoTagMoved, S.ProcessAll, SyncBack, ParseDir, EvolvedDir, R.Structured, R.TidyInbounds,
         CleanParsed, Answer, Mirrors, Orderly, R.Enumerates;
    CleanDirParses(dir, enc);
    CleanIsOrderly(dir);
    CleanAfterSync(db, ParseDir(dir, enc), order);
    MirrorsAfterSync(db, ParseDir(dir, enc), order);
    WriteBackReflects(db', dir, enc, tags, listing);
  }

  /** And so it stays over every further pass, whatever the users are called. */
  lemma StaysReflected(db: S.Tables, dir: seq<Named>, enc: map<string, string>, order: seq<string>, tags: seq<string>,
                       listing: map<string, seq<Row>>, db': S.Tables, back: Back)
    requires Reflected(db, dir, enc) && Pass(db, dir, enc, order, tags, listing, db', back)
    ensures Reflected(db', dir, enc) && Reflected(db', back.dir, enc) && EvolvedDir(db', dir, back.dir)
  {
    hide CleanTables, S.ProcessAll, SyncBack, ParseDir, EvolvedDir, R.Structured, Answer, Mirrors, Orderly, R.Enumerates;
    OrderlyParses(dir, enc);
    CleanAfterSync(db, ParseDir(dir, enc), order);
    ReferentialOf(db);
    MirrorsAgain(db, ParseDir(dir, enc), order);
    WriteBackReflects(db', dir, enc, tags, listing);
  }

  lemma ReferentialOf(db: S.Tables)
    requires CleanTables(db)
    ensures Resync.Referential(db)
  {
  }
}
