/** What a sync does for names that had no account before: the moment the inbound of a tag is read, and what its
    client list leaves there. */
module Newcomers {
  import opened Accounts
  import opened Credentials
  import opened Options
  import opened Sync
  import opened SyncResults
  import opened Text
  import Resync

  // ----- rows of other inbounds -----

  lemma SyncInboundElsewhere(db: Tables, file: string, ib: ParsedInbound, t: string)
    requires t != ib.tag
    ensures RowOf(SyncInbound(db, file, ib), t) == RowOf(db, t)
  {
    hide SyncClients, Kept, Alike;
    SyncClientsAlike(db.(inbounds := db.inbounds[ib.tag := Upserted(file, ib, RowOf(db, ib.tag))]), ib.tag, ib.clients);
  }

  lemma {:induction false} SyncInboundsElsewhere(db: Tables, file: string, ibs: seq<ParsedInbound>, t: string)
    requires t !in Tags(ibs)
    ensures RowOf(SyncInbounds(db, file, ibs), t) == RowOf(db, t)
    decreases |ibs|
  {
    hide SyncInbound;
    if ibs != [] {
      hide Tags;
      TagsHead(ibs);
      SyncInboundElsewhere(db, file, ibs[0], t);
      SyncInboundsElsewhere(SyncInbound(db, file, ibs[0]), file, ibs[1..], t);
    }
  }

  lemma ProcessFileElsewhere(db: Tables, file: string, ibs: seq<ParsedInbound>, t: string)
    requires t !in Tags(ibs) && (t in db.inbounds ==> db.inbounds[t].file != file)
    ensures RowOf(ProcessFile(db, file, ibs), t) == RowOf(db, t)
  {
    hide SyncInbounds, Tags;
    SyncInboundsElsewhere(db.(inbounds := db.inbounds - Stale(db, file, Tags(ibs))), file, ibs, t);
  }

  lemma {:induction false} ProcessAllElsewhere(db: Tables, files: Files, order: seq<string>, t: string)
    requires forall f :: f in order ==> f in files && t !in Tags(files[f])
    requires t in db.inbounds ==> db.inbounds[t].file !in order
    ensures RowOf(ProcessAll(db, files, order), t) == RowOf(db, t)
    decreases |order|
  {
    hide ProcessFile, Tags;
    if order != [] {
      var f, rest := order[0], order[1..];
      assert f in order && order == [f] + rest;
      ProcessFileElsewhere(db, f, files[f], t);
      ProcessAllElsewhere(ProcessFile(db, f, files[f]), files, rest, t);
    }
  }

  // ----- the moment the inbound of a tag is read -----

  /** before and after are the tables around reading the inbound of t, on the way from db to db'. */
  ghost predicate Around(db: Tables, before: Tables, after: Tables, db': Tables, t: string) {
    Kept(db, before) && RowOf(before, t) == RowOf(db, t) && Kept(after, db') && RowOf(db', t) == RowOf(after, t)
  }

  lemma KeptSelf(db: Tables)
    ensures Kept(db, db)
  {
  }

  lemma KeptMore(a: Tables, b: Tables, c: Tables)
    requires Kept(a, b) && Kept(b, c)
    ensures Kept(a, c)
  {
    hide Kept;
    KeptTwice(a, b, c);
  }

  lemma {:induction false} MomentInFile(db: Tables, file: string, ibs: seq<ParsedInbound>, t: string) returns (before: Tables)
    requires DistinctTags(ibs) && t in Tags(ibs)
    ensures Around(db, before, SyncInbound(before, file, InboundOf(ibs, t)), SyncInbounds(db, file, ibs), t)
    decreases |ibs|
  {
    hide SyncInbound, Kept, DistinctTags;
    var ib, rest := ibs[0], ibs[1..];
    var mid := SyncInbound(db, file, ib);
    TagsHead(ibs);
    SyncInboundAlike(db, file, ib, t);
    hide Tags;
    if ib.tag == t {
      before := db;
      KeptSelf(db);
      SyncInboundsAlike(mid, file, rest, t);
      SyncInboundsElsewhere(mid, file, rest, t);
    } else {
      before := MomentInFile(mid, file, rest, t);
      SyncInboundElsewhere(db, file, ib, t);
      KeptMore(db, mid, before);
    }
  }

  lemma MomentOfFile(db: Tables, file: string, ibs: seq<ParsedInbound>, t: string) returns (before: Tables)
    requires DistinctTags(ibs) && t in Tags(ibs)
    ensures Around(db, before, SyncInbound(before, file, InboundOf(ibs, t)), ProcessFile(db, file, ibs), t)
  {
    hide SyncInbound, SyncInbounds, DistinctTags, Tags, Trim;
    var mid := db.(inbounds := db.inbounds - Stale(db, file, Tags(ibs)));
    before := MomentInFile(mid, file, ibs, t);
    assert Kept(db, mid);
    KeptMore(db, mid, before);
  }

  lemma {:induction false} MomentOf(db: Tables, files: Files, order: seq<string>, g: string, t: string) returns (before: Tables)
    requires Structured(files) && (forall f :: f in order ==> f in files)
    requires forall i, j :: 0 <= i < j < |order| ==> order[i] != order[j]
    requires g in order && t in Tags(files[g]) && (t in db.inbounds ==> db.inbounds[t].file == g)
    ensures Around(db, before, SyncInbound(before, g, InboundOf(files[g], t)), ProcessAll(db, files, order), t)
    decreases |order|
  {
    hide SyncInbound, ProcessFile, Kept, Tags, DistinctTags, InboundOf;
    var f, rest := order[0], order[1..];
    assert f in order && order == [f] + rest;
    var mid := ProcessFile(db, f, files[f]);
    ProcessFileAlike(db, f, files[f], t);
    if f == g {
      assert g !in rest;
      before := MomentOfFile(db, g, files[g], t);
      var after := SyncInbound(before, g, InboundOf(files[g], t));
      ProcessAllAlike(mid, files, rest, t);
      KeptMore(after, mid, ProcessAll(mid, files, rest));
      RowFile(before, g, InboundOf(files[g], t));
      assert InboundOf(files[g], t).tag == t;
      ProcessAllElsewhere(mid, files, rest, t);
    } else {
      assert t !in Tags(files[f]);
      ProcessFileElsewhere(db, f, files[f], t);
      before := MomentOf(mid, files, rest, g, t);
      KeptMore(db, mid, before);
    }
  }

  lemma RowFile(db: Tables, file: string, ib: ParsedInbound)
    ensures RowOf(SyncInbound(db, file, ib), ib.tag).Some? && RowOf(SyncInbound(db, file, ib), ib.tag).value.file == file
  {
    hide SyncClients, Kept;
    var mid := db.(inbounds := db.inbounds[ib.tag := Upserted(file, ib, RowOf(db, ib.tag))]);
    SyncClientsAlike(mid, ib.tag, ib.clients);
  }

  // ----- what its client list leaves -----

  /** No client of the list makes an account any more; whoever the list stands for and has an account is enrolled
      with a credential from the list; and nobody else is enrolled but those who were before and those under whose
      trimmed name an account was made. */
  ghost predicate Entered(was: set<string>, cs: seq<Parsed>, users: map<string, User>, clients: map<string, Enrolment>) {
    && NoneCreates(users, cs)
    && (forall v :: v in Users(cs) && v in users ==> v in clients && exists c :: c in cs && clients[v].stored == c.stored)
    && forall u :: u in clients ==> u in was || u in Users(cs) || exists v :: v in Users(cs) && Trim(v) == u
  }

  /** The same for a single client. */
  lemma OneEntered(db: Tables, tag: string, c: Parsed)
    requires tag in db.inbounds
    ensures var db', v := SyncClient(db, tag, c), Sanitize(c.identity);
            && tag in db'.inbounds && !Creates(db'.users, c)
            && (v != "" && v in db'.users ==>
                  v in db'.inbounds[tag].clients && db'.inbounds[tag].clients[v].stored == c.stored)
            && forall u :: u in db'.inbounds[tag].clients ==> u in db.inbounds[tag].clients || (v != "" && (u == v || u == Trim(v)))
  {
    hide Sanitize, Trim;
  }

  lemma UsersHead(c: Parsed, rest: seq<Parsed>)
    ensures Users([c] + rest) == Users(rest) + if Sanitize(c.identity) == "" then {} else {Sanitize(c.identity)}
  {
    hide Sanitize;
  }

  /** A name that has an account in the end had one when a client standing for it was read. */
  lemma HadAccount(users: map<string, User>, users': map<string, User>, c: Parsed)
    requires Grown(users, users') && !Creates(users, c)
    ensures !Creates(users', c)
    ensures Sanitize(c.identity) != "" && Sanitize(c.identity) in users' ==> Sanitize(c.identity) in users
  {
    hide Sanitize, Trim;
  }

  lemma EnteredMore(was: set<string>, c: Parsed, rest: seq<Parsed>, mid: set<string>, users: map<string, User>,
                    clients: map<string, Enrolment>)
    requires Entered(mid, rest, users, clients) && !Creates(users, c)
    requires var v := Sanitize(c.identity);
             && (v != "" && v in users && v !in Users(rest) ==> v in clients && clients[v].stored == c.stored)
             && forall u :: u in mid ==> u in was || (v != "" && (u == v || u == Trim(v)))
    ensures Entered(was, [c] + rest, users, clients)
  {
    hide Sanitize, Trim, Users, Creates;
    UsersHead(c, rest);
    assert c in [c] + rest;
    forall v | v in Users([c] + rest) && v in users
      ensures v in clients && exists d :: d in [c] + rest && clients[v].stored == d.stored
    {
      if v in Users(rest) {
        var d :| d in rest && clients[v].stored == d.stored;
        assert d in [c] + rest;
      }
    }
  }

  /** An entry the rest of the list does not mention stays as it was made. */
  lemma LaterStored(mid: Tables, tag: string, rest: seq<Parsed>, v: string)
    requires tag in mid.inbounds && v in mid.inbounds[tag].clients && v in mid.users && v !in Users(rest)
    ensures var db' := SyncClients(mid, tag, rest);
            tag in db'.inbounds && v in db'.inbounds[tag].clients
            && db'.inbounds[tag].clients[v] == mid.inbounds[tag].clients[v]
  {
    hide SyncClients, Users, ClientsAfter, Kept, NoneCreates;
    SyncClientsAlike(mid, tag, rest);
    EnrolmentsKept(mid.inbounds[tag].clients, rest, v);
    assert At(SyncClients(mid, tag, rest).inbounds[tag].clients, v) == At(ClientsAfter(mid.inbounds[tag].clients, rest), v);
  }

  lemma {:induction false} ClientsEntered(db: Tables, tag: string, cs: seq<Parsed>)
    requires tag in db.inbounds
    ensures var db' := SyncClients(db, tag, cs);
            tag in db'.inbounds && Entered(db.inbounds[tag].clients.Keys, cs, db'.users, db'.inbounds[tag].clients)
    decreases |cs|
  {
    hide SyncClient, Sanitize, Trim;
    if cs != [] {
      hide Users, ClientsAfter, Creates, Entered, Alike, NoneCreates, Grown;
      var c, rest := cs[0], cs[1..];
      assert cs == [c] + rest;
      var v := Sanitize(c.identity);
      var mid := SyncClient(db, tag, c);
      var db' := SyncClients(mid, tag, rest);
      OneEntered(db, tag, c);
      SyncClientsAlike(mid, tag, rest);
      ClientsEntered(mid, tag, rest);
      HadAccount(mid.users, db'.users, c);
      if v != "" && v in db'.users && v !in Users(rest) {
        LaterStored(mid, tag, rest, v);
      }
      EnteredMore(db.inbounds[tag].clients.Keys, c, rest, mid.inbounds[tag].clients.Keys, db'.users, db'.inbounds[tag].clients);
    }
  }

  function EnrolledIn(row: Option<Row>): set<string> {
    if row.Some? then row.value.clients.Keys else {}
  }

  lemma InboundEntered(db: Tables, file: string, ib: ParsedInbound)
    ensures var db' := SyncInbound(db, file, ib);
            ib.tag in db'.inbounds
            && Entered(EnrolledIn(RowOf(db, ib.tag)), ib.clients, db'.users, db'.inbounds[ib.tag].clients)
  {
    hide SyncClients, Entered;
    var row := Upserted(file, ib, RowOf(db, ib.tag));
    assert row.clients.Keys == EnrolledIn(RowOf(db, ib.tag));
    ClientsEntered(db.(inbounds := db.inbounds[ib.tag := row]), ib.tag, ib.clients);
  }

  lemma EnteredStays(was: set<string>, cs: seq<Parsed>, after: Tables, db': Tables, t: string)
    requires t in after.inbounds && Entered(was, cs, after.users, after.inbounds[t].clients)
    requires Kept(after, db') && RowOf(db', t) == RowOf(after, t)
    ensures t in db'.inbounds && Entered(was, cs, db'.users, db'.inbounds[t].clients)
  {
    hide Sanitize, Trim, Creates;
    forall c | c in cs
      ensures !Creates(db'.users, c)
      ensures Sanitize(c.identity) != "" && Sanitize(c.identity) in db'.users ==> Sanitize(c.identity) in after.users
    {
      HadAccount(after.users, db'.users, c);
    }
  }

  /** Main result: a sync, in any order, leaves no client in a listed inbound that would make an account; whoever the
      inbound's client list stands for and has an account is enrolled there with a credential from the list; and
      nobody is enrolled otherwise who was not before, except under the trimmed name of an account made for a client
      of the list. */
  lemma SyncEnters(db: Tables, files: Files, order: seq<string>, g: string, t: string)
    requires Structured(files) && Enumerates(order, files) && Resync.Owned(db, files) && g in files && t in Tags(files[g])
    ensures var db' := ProcessAll(db, files, order);
            t in db.inbounds && t in db'.inbounds
            && Entered(db.inbounds[t].clients.Keys, InboundOf(files[g], t).clients, db'.users, db'.inbounds[t].clients)
  {
    hide ProcessAll, SyncInbound, Tags, Structured, Entered, Kept;
    var ib := InboundOf(files[g], t);
    assert ib.tag == t;
    hide InboundOf;
    var before := MomentOf(db, files, order, g, t);
    InboundEntered(before, g, ib);
    EnteredStays(db.inbounds[t].clients.Keys, ib.clients, SyncInbound(before, g, ib), ProcessAll(db, files, order), t);
  }
}
