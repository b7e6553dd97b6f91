/** What a sync does whatever the files call their clients: which accounts it creates, and what it makes of the
    enrolments of everybody who has an account already. */
module Accounts {
  import opened Credentials
  import opened Options
  import opened Sync
  import opened SyncResults
  import opened Text
  import Resync

  // ----- accounts -----

  /** A client of this identity creates an account. */
  predicate CreatesName(users: map<string, User>, identity: string) {
    var name := Sanitize(identity);
    name != "" && name !in users && Trim(name) !in users
  }

  predicate Creates(users: map<string, User>, c: Parsed) {
    CreatesName(users, c.identity)
  }

  ghost predicate NoneCreates(users: map<string, User>, cs: seq<Parsed>) {
    forall c :: c in cs ==> !Creates(users, c)
  }

  ghost predicate NoneCreatesIn(users: map<string, User>, ibs: seq<ParsedInbound>) {
    forall ib :: ib in ibs ==> NoneCreates(users, ib.clients)
  }

  /** The old accounts are there as they were; new ones are enabled, with a trimmed name as email. */
  ghost predicate Grown(users: map<string, User>, users': map<string, User>) {
    && (forall n :: n in users ==> n in users' && users'[n] == users[n])
    && forall n :: n in users' && n !in users ==> users'[n] == User(n, true) && Trim(n) == n
  }

  ghost predicate Kept(db: Tables, db': Tables) {
    Grown(db.users, db'.users) && (Resync.Referential(db) ==> Resync.Referential(db'))
  }

  lemma KeptTwice(a: Tables, b: Tables, c: Tables)
    requires Kept(a, b) && Kept(b, c)
    ensures Kept(a, c)
    ensures c.users == a.users <==> b.users == a.users && c.users == b.users
  {
    hide Trim, Resync.Referential;
    if c.users == a.users {
      assert b.users == a.users;
    }
  }

  // ----- rows -----

  function At(clients: map<string, Enrolment>, u: string): Option<Enrolment> {
    if u in clients then Some(clients[u]) else None
  }

  predicate SameShape(a: Row, b: Row) {
    a.protocol == b.protocol && a.port == b.port && a.file == b.file && a.raw == b.raw
  }

  /** The rows agree except on enrolments of names that are not among the users. */
  ghost predicate Alike(users: set<string>, a: Option<Row>, b: Option<Row>) {
    && a.Some? == b.Some?
    && (a.Some? ==> SameShape(a.value, b.value) && forall u :: u in users ==> At(a.value.clients, u) == At(b.value.clients, u))
  }

  lemma AlikeTwice(users: set<string>, users': set<string>, a: Option<Row>, b: Option<Row>, c: Option<Row>)
    requires Alike(users', a, b) && Alike(users, b, c) && users <= users'
    ensures Alike(users, a, c)
  {
  }

  /** What a client list leaves of a user's enrolment depends on that enrolment alone, and not on how often the
      list is read. */
  lemma ClientsAfterAt(a: map<string, Enrolment>, b: map<string, Enrolment>, cs: seq<Parsed>, u: string)
    requires At(a, u) == At(b, u)
    ensures At(ClientsAfter(a, cs), u) == At(ClientsAfter(b, cs), u)
    ensures At(ClientsAfter(ClientsAfter(a, cs), cs), u) == At(ClientsAfter(a, cs), u)
  {
    hide ClientsAfter, Users;
    EnrolmentsKept(a, cs, u);
    EnrolmentsKept(b, cs, u);
    EnrolmentsKept(ClientsAfter(a, cs), cs, u);
    if u in Users(cs) {
      StoredFromTheFile(a, b, cs, u);
      StoredFromTheFile(a, ClientsAfter(a, cs), cs, u);
    }
  }

  lemma AlikeSynced(users: set<string>, file: string, ib: ParsedInbound, a: Option<Row>, b: Option<Row>)
    requires Alike(users, a, b)
    ensures Alike(users, Some(Synced(file, ib, a)), Some(Synced(file, ib, b)))
  {
    hide ClientsAfter;
    var x: map<string, Enrolment> := if a.Some? then a.value.clients else map[];
    var y: map<string, Enrolment> := if b.Some? then b.value.clients else map[];
    forall u | u in users
      ensures At(ClientsAfter(x, ib.clients), u) == At(ClientsAfter(y, ib.clients), u)
    {
      ClientsAfterAt(x, y, ib.clients, u);
    }
  }

  lemma AlikeEffect(users: set<string>, file: string, ibs: seq<ParsedInbound>, t: string, a: Option<Row>, b: Option<Row>)
    requires Alike(users, a, b)
    ensures Alike(users, Effect(file, ibs, t, a), Effect(file, ibs, t, b))
  {
    hide Synced, Tags;
    if t in Tags(ibs) {
      AlikeSynced(users, file, InboundOf(ibs, t), a, b);
    }
  }

  lemma {:induction false} AlikeEffects(users: set<string>, files: Files, order: seq<string>, t: string, a: Option<Row>, b: Option<Row>)
    requires Alike(users, a, b) && forall f :: f in order ==> f in files
    ensures Alike(users, Effects(files, order, t, a), Effects(files, order, t, b))
    decreases |order|
  {
    hide Effect, Alike;
    if order != [] {
      var f, rest := order[0], order[1..];
      assert f in order && order == [f] + rest;
      AlikeEffect(users, f, files[f], t, a, b);
      AlikeEffects(users, files, rest, t, Effect(f, files[f], t, a), Effect(f, files[f], t, b));
    }
  }

  // ----- one client list -----

  function WithList(row: Row, cs: seq<Parsed>): Row {
    row.(clients := ClientsAfter(row.clients, cs))
  }

  lemma SyncClientAlike(db: Tables, tag: string, c: Parsed)
    requires tag in db.inbounds
    ensures var db' := SyncClient(db, tag, c);
            && Kept(db, db') && (db'.users == db.users <==> !Creates(db.users, c))
            && Alike(db.users.Keys, RowOf(db', tag), Some(WithList(db.inbounds[tag], [c])))
            && forall t :: t != tag ==> RowOf(db', t) == RowOf(db, t)
  {
    hide Sanitize, Trim;
    var name := Sanitize(c.identity);
    assert [c][1..] == [];
    Text.TrimIdempotent(name);
    var row, db' := db.inbounds[tag], SyncClient(db, tag, c);
    assert ClientsAfter(row.clients, [c]) == if name == "" then row.clients else Enrol(row.clients, name, c.stored);
    if Creates(db.users, c) {
      assert Trim(name) in db'.users;
    }
  }

  lemma {:induction false} SyncClientsAlike(db: Tables, tag: string, cs: seq<Parsed>)
    requires tag in db.inbounds
    ensures var db' := SyncClients(db, tag, cs);
            && Kept(db, db') && (db'.users == db.users <==> NoneCreates(db.users, cs))
            && Alike(db.users.Keys, RowOf(db', tag), Some(WithList(db.inbounds[tag], cs)))
            && forall t :: t != tag ==> RowOf(db', t) == RowOf(db, t)
    decreases |cs|
  {
    hide SyncClient, Sanitize, Trim, Creates, Kept, Alike, WithList;
    var row := db.inbounds[tag];
    if cs == [] {
      NothingRead(db, row, cs);
    } else {
      var c, rest := cs[0], cs[1..];
      assert cs == [c] + rest && c in cs;
      var mid := SyncClient(db, tag, c);
      var db' := SyncClients(mid, tag, rest);
      SyncClientAlike(db, tag, c);
      SyncClientsAlike(mid, tag, rest);
      KeptTwice(db, mid, db');
      WithListTwice(db, row, mid.inbounds[tag], c, rest);
      UsersWithin(db, mid);
      AlikeTwice(db.users.Keys, mid.users.Keys, RowOf(db', tag), Some(WithList(mid.inbounds[tag], rest)), Some(WithList(row, cs)));
    }
  }

  lemma NothingRead(db: Tables, row: Row, cs: seq<Parsed>)
    requires cs == []
    ensures Kept(db, db) && Alike(db.users.Keys, Some(row), Some(WithList(row, cs)))
  {
  }

  lemma UsersWithin(a: Tables, b: Tables)
    requires Kept(a, b)
    ensures a.users.Keys <= b.users.Keys
  {
  }

  lemma WithListTwice(db: Tables, row: Row, mid: Row, c: Parsed, rest: seq<Parsed>)
    requires Alike(db.users.Keys, Some(mid), Some(WithList(row, [c])))
    ensures Alike(db.users.Keys, Some(WithList(mid, rest)), Some(WithList(row, [c] + rest)))
  {
    hide Sanitize;
    assert [c][1..] == [] && ([c] + rest)[1..] == rest;
    assert ClientsAfter(row.clients, [c] + rest) == ClientsAfter(ClientsAfter(row.clients, [c]), rest);
    forall u | u in db.users
      ensures At(ClientsAfter(mid.clients, rest), u) == At(ClientsAfter(row.clients, [c] + rest), u)
    {
      ClientsAfterAt(mid.clients, ClientsAfter(row.clients, [c]), rest, u);
    }
  }

  // ----- files -----

  function RowAfter(file: string, ib: ParsedInbound, t: string, was: Option<Row>): Option<Row> {
    if t == ib.tag then Some(Synced(file, ib, was)) else was
  }

  lemma SyncInboundAlike(db: Tables, file: string, ib: ParsedInbound, t: string)
    ensures var db' := SyncInbound(db, file, ib);
            && Kept(db, db') && (db'.users == db.users <==> NoneCreates(db.users, ib.clients))
            && Alike(db.users.Keys, RowOf(db', t), RowAfter(file, ib, t, RowOf(db, t)))
  {
    hide SyncClients, ClientsAfter, NoneCreates, Trim;
    var row := Upserted(file, ib, RowOf(db, ib.tag));
    var mid := db.(inbounds := db.inbounds[ib.tag := row]);
    SyncClientsAlike(mid, ib.tag, ib.clients);
    assert RowOf(mid, t) == if t == ib.tag then Some(row) else RowOf(db, t);
    assert Resync.Referential(db) ==> Resync.Referential(mid);
  }

  function RowAfterAll(file: string, ibs: seq<ParsedInbound>, t: string, was: Option<Row>): Option<Row> {
    if t in Tags(ibs) then Some(Synced(file, InboundOf(ibs, t), was)) else was
  }

  lemma {:induction false} SyncInboundsAlike(db: Tables, file: string, ibs: seq<ParsedInbound>, t: string)
    requires DistinctTags(ibs)
    ensures var db' := SyncInbounds(db, file, ibs);
            && Kept(db, db') && (db'.users == db.users <==> NoneCreatesIn(db.users, ibs))
            && Alike(db.users.Keys, RowOf(db', t), RowAfterAll(file, ibs, t, RowOf(db, t)))
    decreases |ibs|
  {
    hide SyncInbound, Synced, Kept, Alike, NoneCreates, DistinctTags;
    if ibs == [] {
      NoRowChanged(db, t);
    } else {
      hide Tags;
      var ib, rest := ibs[0], ibs[1..];
      TagsHead(ibs);
      assert ib in ibs && ibs == [ib] + rest;
      var mid := SyncInbound(db, file, ib);
      var db' := SyncInbounds(mid, file, rest);
      SyncInboundAlike(db, file, ib, t);
      SyncInboundsAlike(mid, file, rest, t);
      KeptTwice(db, mid, db');
      UsersWithin(db, mid);
      if t in Tags(rest) {
        AlikeSynced(db.users.Keys, file, InboundOf(rest, t), RowOf(mid, t), RowOf(db, t));
      }
      AlikeTwice(db.users.Keys, mid.users.Keys, RowOf(db', t), RowAfterAll(file, rest, t, RowOf(mid, t)),
                 RowAfterAll(file, ibs, t, RowOf(db, t)));
    }
  }

  lemma NoRowChanged(db: Tables, t: string)
    ensures Kept(db, db) && Alike(db.users.Keys, RowOf(db, t), RowOf(db, t))
  {
  }

  lemma ProcessFileAlike(db: Tables, file: string, ibs: seq<ParsedInbound>, t: string)
    requires DistinctTags(ibs)
    ensures var db' := ProcessFile(db, file, ibs);
            && Kept(db, db') && (db'.users == db.users <==> NoneCreatesIn(db.users, ibs))
            && Alike(db.users.Keys, RowOf(db', t), Effect(file, ibs, t, RowOf(db, t)))
  {
    hide SyncInbounds, Synced, DistinctTags, Tags, NoneCreates, Trim;
    var mid := db.(inbounds := db.inbounds - Stale(db, file, Tags(ibs)));
    SyncInboundsAlike(mid, file, ibs, t);
    assert t in Tags(ibs) ==> RowOf(mid, t) == RowOf(db, t);
  }

  ghost predicate NoCreationIn(users: map<string, User>, files: Files, order: seq<string>)
    requires forall f :: f in order ==> f in files
  {
    forall f :: f in order ==> NoneCreatesIn(users, files[f])
  }

  lemma {:induction false} ProcessAllAlike(db: Tables, files: Files, order: seq<string>, t: string)
    requires Structured(files) && forall f :: f in order ==> f in files
    ensures var db' := ProcessAll(db, files, order);
            && Kept(db, db') && (db'.users == db.users <==> NoCreationIn(db.users, files, order))
            && Alike(db.users.Keys, RowOf(db', t), Effects(files, order, t, RowOf(db, t)))
    decreases |order|
  {
    hide ProcessFile, Effect, DistinctTags, Tags, Kept, Alike, NoneCreatesIn;
    if order == [] {
      NoRowChanged(db, t);
    } else {
      var f, rest := order[0], order[1..];
      assert f in order && order == [f] + rest;
      var mid := ProcessFile(db, f, files[f]);
      var db' := ProcessAll(mid, files, rest);
      ProcessFileAlike(db, f, files[f], t);
      ProcessAllAlike(mid, files, rest, t);
      KeptTwice(db, mid, db');
      UsersWithin(db, mid);
      AlikeEffects(db.users.Keys, files, rest, t, RowOf(mid, t), Effect(f, files[f], t, RowOf(db, t)));
      AlikeTwice(db.users.Keys, mid.users.Keys, RowOf(db', t), Effects(files, rest, t, RowOf(mid, t)),
                 Effects(files, order, t, RowOf(db, t)));
    }
  }

  /** No client of the files creates an account. */
  ghost predicate NoCreation(users: map<string, User>, files: Files) {
    forall f :: f in files ==> NoneCreatesIn(users, files[f])
  }

  /** Main result: a sync, in any order, creates no account exactly when no client of the files would by itself. */
  lemma NobodyNewExactly(db: Tables, files: Files, order: seq<string>)
    requires Structured(files) && Enumerates(order, files)
    ensures ProcessAll(db, files, order).users == db.users <==> NoCreation(db.users, files)
  {
    hide ProcessAll, NoneCreatesIn, Structured;
    ProcessAllAlike(db, files, order, "");
  }

  /** What a sync makes of the row of a tag. */
  function Result(db: Tables, files: Files, t: string, g: string): Row
    requires g in files && t in Tags(files[g])
  {
    Synced(g, InboundOf(files[g], t), RowOf(db, t))
  }

  /** Main result: in any order, and whatever the clients are called, a sync removes or leaves the rows no file
      lists, and for everybody who had an account it leaves the enrolments of a listed inbound as reading its client
      list alone would. */
  lemma OutcomeAlike(db: Tables, files: Files, order: seq<string>, t: string)
    requires Structured(files) && NoTagMoved(db, files) && Enumerates(order, files)
    ensures var db' := ProcessAll(db, files, order);
            && Kept(db, db')
            && (forall g :: g in files && t in Tags(files[g]) ==>
                  Alike(db.users.Keys, RowOf(db', t), Some(Result(db, files, t, g))))
            && (!Listed(files, t) ==>
                  Alike(db.users.Keys, RowOf(db', t),
                        if t in db.inbounds && db.inbounds[t].file in files then None else RowOf(db, t)))
  {
    hide ProcessAll, Effects, Synced, Tags, Alike, Kept;
    ProcessAllAlike(db, files, order, t);
    if Listed(files, t) {
      forall g | g in files && t in Tags(files[g])
        ensures Alike(db.users.Keys, RowOf(ProcessAll(db, files, order), t), Some(Result(db, files, t, g)))
      {
        EffectsListed(files, order, t, RowOf(db, t), g);
      }
    } else {
      EffectsUnlisted(files, order, t, RowOf(db, t));
    }
  }

  /** Afterwards the files own exactly the inbounds they have. */
  lemma SyncOwns(db: Tables, files: Files, order: seq<string>)
    requires Structured(files) && NoTagMoved(db, files) && Enumerates(order, files)
    ensures Resync.Owned(ProcessAll(db, files, order), files)
  {
    hide ProcessAll, Tags, ClientsAfter, Structured, NoTagMoved, InboundOf;
    var db' := ProcessAll(db, files, order);
    forall g, t | g in files && t in Tags(files[g])
      ensures t in db'.inbounds && db'.inbounds[t].file == g
    {
      OutcomeAlike(db, files, order, t);
    }
    forall t | t in db'.inbounds && db'.inbounds[t].file in files
      ensures t in Tags(files[db'.inbounds[t].file])
    {
      OutcomeAlike(db, files, order, t);
      if g :| g in files && t in Tags(files[g]) {
        assert db'.inbounds[t].file == g;
      }
    }
  }

  /** A user's enrolment in a listed inbound after a sync. */
  lemma EnrolmentAfter(db: Tables, files: Files, order: seq<string>, g: string, t: string, u: string)
    requires Structured(files) && NoTagMoved(db, files) && Enumerates(order, files)
    requires g in files && t in Tags(files[g]) && u in db.users
    ensures var db' := ProcessAll(db, files, order);
            && t in db'.inbounds && SameShape(db'.inbounds[t], Result(db, files, t, g))
            && At(db'.inbounds[t].clients, u) == At(Result(db, files, t, g).clients, u)
  {
    hide ProcessAll, Tags, Synced, Structured, NoTagMoved, InboundOf;
    OutcomeAlike(db, files, order, t);
  }

  /** The row of an inbound no file lists. */
  lemma UnlistedAfter(db: Tables, files: Files, order: seq<string>, t: string)
    requires Structured(files) && Enumerates(order, files) && Resync.Owned(db, files) && !Listed(files, t)
    ensures Alike(db.users.Keys, RowOf(ProcessAll(db, files, order), t), RowOf(db, t))
  {
    hide ProcessAll, Tags, Structured, Alike, NoTagMoved;
    Resync.OwnedNoMove(db, files);
    OutcomeAlike(db, files, order, t);
  }

  /** Rows whose enrolments are all of users are determined by those. */
  lemma AlikeIsSame(users: set<string>, a: Row, b: Row)
    requires Alike(users, Some(a), Some(b)) && a.clients.Keys <= users && b.clients.Keys <= users
    ensures a == b
  {
    forall u
      ensures u in a.clients <==> u in b.clients
      ensures u in a.clients && u in b.clients ==> a.clients[u] == b.clients[u]
    {
      assert u in users ==> At(a.clients, u) == At(b.clients, u);
    }
    assert a.clients == b.clients;
  }

  lemma ResultTwice(users: set<string>, db: Tables, db': Tables, files: Files, t: string, g: string)
    requires g in files && t in Tags(files[g]) && t in db'.inbounds
    requires Alike(users, RowOf(db', t), Some(Result(db, files, t, g)))
    ensures Alike(users, Some(Result(db', files, t, g)), Some(Result(db, files, t, g)))
  {
    hide ClientsAfter, Tags, InboundOf;
    var cs := InboundOf(files[g], t).clients;
    var was: map<string, Enrolment> := if t in db.inbounds then db.inbounds[t].clients else map[];
    forall u | u in users
      ensures At(ClientsAfter(db'.inbounds[t].clients, cs), u) == At(ClientsAfter(was, cs), u)
    {
      ClientsAfterAt(db'.inbounds[t].clients, ClientsAfter(was, cs), cs, u);
      ClientsAfterAt(was, was, cs, u);
    }
  }

  /** Main result: syncing twice from the same files, in whatever orders, is syncing once, when that creates no
      account. */
  lemma SyncTwice(db: Tables, files: Files, order: seq<string>, again: seq<string>)
    requires Structured(files) && NoTagMoved(db, files) && Enumerates(order, files) && Enumerates(again, files)
    requires Resync.Referential(db) && NoCreation(db.users, files)
    ensures ProcessAll(ProcessAll(db, files, order), files, again) == ProcessAll(db, files, order)
  {
    hide ProcessAll, Tags, Structured, NoTagMoved, Alike, NoCreation, Synced, InboundOf, Trim;
    var db1 := ProcessAll(db, files, order);
    NobodyNewExactly(db, files, order);
    SyncOwns(db, files, order);
    Resync.OwnedNoMove(db1, files);
    var db2 := ProcessAll(db1, files, again);
    NobodyNewExactly(db1, files, again);
    OutcomeAlike(db, files, order, "");
    OutcomeAlike(db1, files, again, "");
    forall t
      ensures RowOf(db2, t) == RowOf(db1, t)
    {
      if Listed(files, t) {
        var g :| g in files && t in Tags(files[g]);
        ListedTwice(db, files, order, again, g, t);
      } else {
        UnlistedAfter(db1, files, again, t);
      }
      assert Alike(db.users.Keys, RowOf(db2, t), RowOf(db1, t));
      SomeAlike(db.users.Keys, RowOf(db2, t), RowOf(db1, t));
      if t in db1.inbounds {
        AlikeIsSame(db.users.Keys, db2.inbounds[t], db1.inbounds[t]);
      }
    }
    SameRows(db2, db1);
  }

  lemma SomeAlike(users: set<string>, a: Option<Row>, b: Option<Row>)
    requires Alike(users, a, b)
    ensures a.Some? == b.Some? && Alike(users, b, a)
  {
  }

  lemma ListedTwice(db: Tables, files: Files, order: seq<string>, again: seq<string>, g: string, t: string)
    requires Structured(files) && NoTagMoved(db, files) && Enumerates(order, files) && Enumerates(again, files)
    requires Resync.Owned(ProcessAll(db, files, order), files) && g in files && t in Tags(files[g])
    ensures var db1 := ProcessAll(db, files, order);
            Alike(db.users.Keys, RowOf(ProcessAll(db1, files, again), t), RowOf(db1, t))
  {
    hide ProcessAll, Tags, Structured, NoTagMoved, Alike, Synced, InboundOf;
    var db1 := ProcessAll(db, files, order);
    Resync.OwnedNoMove(db1, files);
    OutcomeAlike(db, files, order, t);
    OutcomeAlike(db1, files, again, t);
    UsersWithin(db, db1);
    var U, a, b := db.users.Keys, RowOf(ProcessAll(db1, files, again), t), Some(Result(db1, files, t, g));
    ResultTwice(U, db, db1, files, t, g);
    AlikeTwice(U, db1.users.Keys, a, b, Some(Result(db, files, t, g)));
    SomeAlike(U, RowOf(db1, t), Some(Result(db, files, t, g)));
    AlikeTwice(U, U, a, Some(Result(db, files, t, g)), RowOf(db1, t));
  }
}
