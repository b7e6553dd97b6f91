/** Syncing from files the database already reflects. */
module Resync {
  import opened Credentials
  import opened Options
  import opened Sync
  import opened SyncResults

  /** Every inbound of the files is recorded under its file, and the files own no other row. */
  ghost predicate Owned(db: Tables, files: Files) {
    && (forall g, t :: g in files && t in Tags(files[g]) ==> t in db.inbounds && db.inbounds[t].file == g)
    && (forall t :: t in db.inbounds && db.inbounds[t].file in files ==> t in Tags(files[db.inbounds[t].file]))
  }

  /** Moreover, the users of every inbound are enrolled. */
  ghost predicate UpToDate(db: Tables, files: Files) {
    && Owned(db, files)
    && (forall g, t :: g in files && t in Tags(files[g]) ==>
          t in db.inbounds && Users(InboundOf(files[g], t).clients) <= db.inbounds[t].clients.Keys)
  }

  /** Enrolments refer to users. */
  ghost predicate Referential(db: Tables) {
    forall t, u :: t in db.inbounds && u in db.inbounds[t].clients ==> u in db.users
  }

  lemma OwnedNoMove(db: Tables, files: Files)
    requires Owned(db, files)
    ensures NoTagMoved(db, files)
  {
  }

  /** The row of a listed tag after a sync, and of an unlisted one. */
  lemma RowAfterSync(db: Tables, files: Files, order: seq<string>, g: string, t: string)
    requires WellFormed(files) && NoTagMoved(db, files) && Enumerates(order, files)
    requires g in files && t in Tags(files[g])
    ensures RowOf(ProcessAll(db, files, order), t) == Some(Synced(g, InboundOf(files[g], t), RowOf(db, t)))
    ensures ProcessAll(db, files, order).users == WithAccounts(db.users, UsersOf(files, order))
  {
    hide ProcessAll, Synced, InboundOf, WellFormed, NoTagMoved, Tags;
    OutcomeOfAnyOrder(db, files, order, t);
  }

  lemma UnlistedAfterSync(db: Tables, files: Files, order: seq<string>, t: string)
    requires WellFormed(files) && NoTagMoved(db, files) && Enumerates(order, files) && !Listed(files, t)
    ensures RowOf(ProcessAll(db, files, order), t) ==
            if t in db.inbounds && db.inbounds[t].file in files then None else RowOf(db, t)
    ensures ProcessAll(db, files, order).users == WithAccounts(db.users, UsersOf(files, order))
  {
    hide ProcessAll, Synced, InboundOf, WellFormed, NoTagMoved, Tags;
    OutcomeOfAnyOrder(db, files, order, t);
  }

  /** One sync brings the database up to date. */
  lemma SyncBringsUpToDate(db: Tables, files: Files, order: seq<string>)
    requires WellFormed(files) && NoTagMoved(db, files) && Enumerates(order, files) && Referential(db)
    ensures UpToDate(ProcessAll(db, files, order), files)
    ensures Referential(ProcessAll(db, files, order))
  {
    hide ProcessAll, Tags, Synced, WellFormed, NoTagMoved, Users, InboundOf, UsersOf, Referential;
    var db' := ProcessAll(db, files, order);
    forall g, t | g in files && t in Tags(files[g])
      ensures t in db'.inbounds && db'.inbounds[t].file == g
      ensures Users(InboundOf(files[g], t).clients) <= db'.inbounds[t].clients.Keys
    {
      RowAfterSync(db, files, order, g, t);
      SyncedFile(g, InboundOf(files[g], t), RowOf(db, t));
      EnrolmentsOfRow(g, InboundOf(files[g], t), RowOf(db, t));
    }
    forall t | t in db'.inbounds && db'.inbounds[t].file in files
      ensures t in Tags(files[db'.inbounds[t].file])
    {
      if g :| g in files && t in Tags(files[g]) {
        assert db'.inbounds[t].file == g;
      } else {
        UnlistedAfterSync(db, files, order, t);
      }
    }
    ReferentialAfterSync(db, files, order);
  }

  lemma ReferentialAfterSync(db: Tables, files: Files, order: seq<string>)
    requires WellFormed(files) && NoTagMoved(db, files) && Enumerates(order, files) && Referential(db)
    ensures Referential(ProcessAll(db, files, order))
  {
    hide ProcessAll, Tags, Synced, WellFormed, NoTagMoved, Users, InboundOf, UsersOf;
    var db' := ProcessAll(db, files, order);
    forall t, u | t in db'.inbounds && u in db'.inbounds[t].clients
      ensures u in db'.users
    {
      if Listed(files, t) {
        var g :| g in files && t in Tags(files[g]);
        RowAfterSync(db, files, order, g, t);
        EnrolmentsOfRow(g, InboundOf(files[g], t), RowOf(db, t));
        UsersListed(files, order, g, t);
      } else {
        UnlistedAfterSync(db, files, order, t);
      }
    }
  }

  lemma UsersListed(files: Files, order: seq<string>, g: string, t: string)
    requires Enumerates(order, files) && g in files && t in Tags(files[g])
    ensures Users(InboundOf(files[g], t).clients) <= UsersOf(files, order)
  {
    hide Users;
    var ib := InboundOf(files[g], t);
    forall u | u in Users(ib.clients)
      ensures u in UsersOf(files, order)
    {
      assert ib in files[g] && u in UsersOfFile(files[g]) && g in order;
    }
  }

  lemma EnrolmentsOfRow(g: string, ib: ParsedInbound, was: Option<Row>)
    ensures Synced(g, ib, was).clients.Keys ==
            (if was.Some? then was.value.clients.Keys else {}) + Users(ib.clients)
  {
    hide ClientsAfter, Users;
    var clients: map<string, Enrolment> := if was.Some? then was.value.clients else map[];
    forall u
      ensures u in ClientsAfter(clients, ib.clients) <==> u in clients || u in Users(ib.clients)
    {
      EnrolmentsKept(clients, ib.clients, u);
    }
  }

  /** now has the enrolments of was with their flags, and the credentials of users the list does not mention. */
  ghost predicate SameEnrolments(was: Row, now: Row, cs: seq<Parsed>) {
    && now.clients.Keys == was.clients.Keys
    && forall u :: u in was.clients ==>
         && now.clients[u].enabled == was.clients[u].enabled
         && (u !in Users(cs) ==> now.clients[u] == was.clients[u])
  }

  lemma SyncedAgain(g: string, ib: ParsedInbound, was: Row)
    requires Users(ib.clients) <= was.clients.Keys
    ensures SameEnrolments(was, Synced(g, ib, Some(was)), ib.clients)
    ensures Synced(g, ib, Some(Synced(g, ib, Some(was)))) == Synced(g, ib, Some(was))
  {
    hide ClientsAfter, Users;
    var cs := ib.clients;
    var now := ClientsAfter(was.clients, cs);
    var again := ClientsAfter(now, cs);
    forall u
      ensures u in now <==> u in was.clients
      ensures u in was.clients ==> now[u].enabled == was.clients[u].enabled
      ensures u in was.clients && u !in Users(cs) ==> now[u] == was.clients[u]
      ensures u in again <==> u in now
      ensures u in now ==> again[u] == now[u]
    {
      EnrolmentsKept(was.clients, cs, u);
      EnrolmentsKept(now, cs, u);
      if u in Users(cs) {
        StoredFromTheFile(now, was.clients, cs, u);
      }
    }
    assert again == now;
  }

  lemma WithAccountsKnown(users: map<string, User>, names: set<string>)
    requires names <= users.Keys
    ensures WithAccounts(users, names) == users
  {
  }

  /** No user, inbound or enrolment comes or goes; enabled flags and unlisted credentials stay. */
  ghost predicate Resynced(db: Tables, db': Tables, files: Files) {
    && db'.users == db.users && db'.inbounds.Keys == db.inbounds.Keys
    && (forall t :: t in db.inbounds && !Listed(files, t) ==> db'.inbounds[t] == db.inbounds[t])
    && forall g, t :: g in files && t in Tags(files[g]) ==>
         t in db.inbounds && SameEnrolments(db.inbounds[t], db'.inbounds[t], InboundOf(files[g], t).clients)
  }

  lemma ResyncedRows(db: Tables, files: Files, order: seq<string>)
    requires WellFormed(files) && Enumerates(order, files)
    requires UpToDate(db, files) && Referential(db)
    ensures var db' := ProcessAll(db, files, order);
            && (forall g, t :: g in files && t in Tags(files[g]) ==>
                  && t in db.inbounds && t in db'.inbounds
                  && SameEnrolments(db.inbounds[t], db'.inbounds[t], InboundOf(files[g], t).clients)
                  && Synced(g, InboundOf(files[g], t), Some(db'.inbounds[t])) == db'.inbounds[t])
            && forall t :: !Listed(files, t) ==> RowOf(db', t) == RowOf(db, t)
  {
    hide ProcessAll, Tags, WellFormed, Users, Synced, SameEnrolments, InboundOf, NoTagMoved, UsersOf, Referential;
    OwnedNoMove(db, files);
    var db' := ProcessAll(db, files, order);
    forall g, t | g in files && t in Tags(files[g])
      ensures t in db.inbounds && t in db'.inbounds
      ensures SameEnrolments(db.inbounds[t], db'.inbounds[t], InboundOf(files[g], t).clients)
      ensures Synced(g, InboundOf(files[g], t), Some(db'.inbounds[t])) == db'.inbounds[t]
    {
      RowAfterSync(db, files, order, g, t);
      SyncedAgain(g, InboundOf(files[g], t), db.inbounds[t]);
    }
    forall t | !Listed(files, t)
      ensures RowOf(db', t) == RowOf(db, t)
    {
      UnlistedAfterSync(db, files, order, t);
    }
  }

  lemma UpToDateNoMove(db: Tables, files: Files)
    requires UpToDate(db, files)
    ensures NoTagMoved(db, files)
  {
    hide NoTagMoved, Users, InboundOf;
    OwnedNoMove(db, files);
  }

  lemma ResyncedTables(db: Tables, files: Files, order: seq<string>)
    requires WellFormed(files) && Enumerates(order, files)
    requires UpToDate(db, files) && Referential(db)
    ensures Resynced(db, ProcessAll(db, files, order), files)
  {
    hide ProcessAll, Tags, WellFormed, Users, Synced, SameEnrolments, InboundOf, NoTagMoved, UsersOf, Referential, UpToDate;
    var db' := ProcessAll(db, files, order);
    UpToDateNoMove(db, files);
    UsersUnchanged(db, files, order);
    OutcomeOfAnyOrder(db, files, order, "");
    ResyncedRows(db, files, order);
    forall t
      ensures t in db'.inbounds <==> t in db.inbounds
      ensures t in db.inbounds && !Listed(files, t) ==> db'.inbounds[t] == db.inbounds[t]
    {
      assert !Listed(files, t) ==> RowOf(db', t) == RowOf(db, t);
    }
  }

  /** Main result: a sync from files the database is up to date with creates no user and adds or drops no inbound
      and no enrolment; enabled flags and unlisted credentials stay; and a further sync changes nothing. */
  lemma ResyncKeeps(db: Tables, files: Files, order: seq<string>, order': seq<string>)
    requires WellFormed(files) && Enumerates(order, files) && Enumerates(order', files)
    requires UpToDate(db, files) && Referential(db)
    ensures Resynced(db, ProcessAll(db, files, order), files)
    ensures ProcessAll(ProcessAll(db, files, order), files, order') == ProcessAll(db, files, order)
  {
    hide ProcessAll, Tags, WellFormed, Users, Synced, SameEnrolments, InboundOf, NoTagMoved, Referential, UpToDate, Resynced;
    ResyncedTables(db, files, order);
    ResyncedRows(db, files, order);
    UpToDateNoMove(db, files);
    SyncBringsUpToDate(db, files, order);
    Fixed(ProcessAll(db, files, order), files, order');
  }

  lemma {:induction false} InboundIs(ibs: seq<ParsedInbound>, ib: ParsedInbound)
    requires DistinctTags(ibs) && ib in ibs
    ensures ib.tag in Tags(ibs) && InboundOf(ibs, ib.tag) == ib
  {
    var i :| 0 <= i < |ibs| && ibs[i] == ib;
    assert ibs[i].tag in Tags(ibs);
    var k :| 0 <= k < |ibs| && ibs[k] == InboundOf(ibs, ib.tag);
  }

  lemma ListedUserKnown(db: Tables, files: Files, g: string, ib: ParsedInbound, u: string)
    requires WellFormed(files) && UpToDate(db, files) && Referential(db)
    requires g in files && ib in files[g] && u in Users(ib.clients)
    ensures u in db.users
  {
    hide Users, TidyInbounds, Tags;
    InboundIs(files[g], ib);
    assert u in db.inbounds[ib.tag].clients.Keys;
  }

  lemma UsersUnchanged(db: Tables, files: Files, order: seq<string>)
    requires WellFormed(files) && Enumerates(order, files) && UpToDate(db, files) && Referential(db)
    ensures WithAccounts(db.users, UsersOf(files, order)) == db.users
  {
    hide Users, WellFormed, UpToDate, Referential;
    forall u | u in UsersOf(files, order)
      ensures u in db.users
    {
      var f :| f in order && u in UsersOfFile(files[f]);
      var ib :| ib in files[f] && u in Users(ib.clients);
      ListedUserKnown(db, files, f, ib, u);
    }
    WithAccountsKnown(db.users, UsersOf(files, order));
  }

  /** A database whose listed rows are what a sync makes of them is left alone. */
  lemma Fixed(db: Tables, files: Files, order: seq<string>)
    requires WellFormed(files) && Enumerates(order, files) && UpToDate(db, files) && Referential(db)
    requires forall g, t :: g in files && t in Tags(files[g]) ==>
               Synced(g, InboundOf(files[g], t), Some(db.inbounds[t])) == db.inbounds[t]
    ensures ProcessAll(db, files, order) == db
  {
    hide ProcessAll, Tags, WellFormed, Users, Synced, InboundOf, NoTagMoved, UsersOf, Referential;
    OwnedNoMove(db, files);
    var db' := ProcessAll(db, files, order);
    forall t
      ensures RowOf(db', t) == RowOf(db, t)
    {
      if g :| g in files && t in Tags(files[g]) {
        RowAfterSync(db, files, order, g, t);
      } else {
        UnlistedAfterSync(db, files, order, t);
      }
    }
    SameRows(db', db);
    UsersUnchanged(db, files, order);
    OutcomeOfAnyOrder(db, files, order, "");
  }
}
