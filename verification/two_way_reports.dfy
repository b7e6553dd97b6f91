/** What a write-back reports: how many users and identities it saw, who could not be written, and whether all went
    well, told from the tables and files before it. */
module TwoWayReports {
  import opened ConfigFile
  import opened Credentials
  import opened Options
  import opened Restore
  import opened RestoreResults
  import opened Settling
  import opened Text
  import opened TwoWay
  import E = ErrorRing
  import S = Sync

  // ----- who cannot be written -----

  predicate CanWrite(ibs: seq<Inbound>, t: string, r: Row) {
    Writable(r.stored) && Accepts(ibs, t)
  }

  /** The i-th listed is the first of this name, or comes after others who could not be written either, and cannot be. */
  ghost predicate RefusedFirst(ibs: seq<Inbound>, t: string, rows: seq<Row>, name: string, i: nat) {
    && i < |rows| && Trim(rows[i].username) == name
    && forall j :: 0 <= j <= i && Trim(rows[j].username) == name ==> !CanWrite(ibs, t, rows[j])
  }

  /** Somebody of this name is listed, is not known yet, and cannot be written, and nobody of the name could before. */
  ghost predicate Refused(ibs: seq<Inbound>, t: string, rows: seq<Row>, known: set<string>, name: string) {
    name != "" && name !in known && exists i: nat :: RefusedFirst(ibs, t, rows, name, i)
  }

  lemma RefusedFirstHead(ibs: seq<Inbound>, t: string, r: Row, rest: seq<Row>, name: string, i: nat)
    ensures RefusedFirst(ibs, t, [r] + rest, name, i + 1) <==>
            (Trim(r.username) == name ==> !CanWrite(ibs, t, r)) && RefusedFirst(ibs, t, rest, name, i)
    ensures RefusedFirst(ibs, t, [r] + rest, name, 0) <==> Trim(r.username) == name && !CanWrite(ibs, t, r)
  {
    hide Trim, CanWrite;
    var rows := [r] + rest;
    assert rows[0] == r && forall j :: 0 <= j < |rest| ==> rows[j + 1] == rest[j];
    if RefusedFirst(ibs, t, rows, name, i + 1) {
      forall j | 0 <= j <= i && Trim(rest[j].username) == name
        ensures !CanWrite(ibs, t, rest[j])
      {
        assert rows[j + 1] == rest[j];
      }
    }
    if (Trim(r.username) == name ==> !CanWrite(ibs, t, r)) && RefusedFirst(ibs, t, rest, name, i) {
      forall j | 0 <= j <= i + 1 && Trim(rows[j].username) == name
        ensures !CanWrite(ibs, t, rows[j])
      {
        assert j > 0 ==> rows[j] == rest[j - 1];
      }
    }
  }

  lemma RefusedHead(ibs: seq<Inbound>, t: string, r: Row, rest: seq<Row>, known: set<string>, name: string)
    ensures Refused(ibs, t, [r] + rest, known, name) <==>
            && name != "" && name !in known
            && if Trim(r.username) == name then !CanWrite(ibs, t, r) else Refused(ibs, t, rest, known, name)
  {
    hide Trim, CanWrite, RefusedFirst;
    RefusedFirstHead(ibs, t, r, rest, name, 0);
    if i: nat :| RefusedFirst(ibs, t, [r] + rest, name, i) {
      if i > 0 {
        RefusedFirstHead(ibs, t, r, rest, name, i - 1);
      }
    }
    if i: nat :| RefusedFirst(ibs, t, rest, name, i) {
      RefusedFirstHead(ibs, t, r, rest, name, i);
    }
  }

  lemma RefusedAlike(a: seq<Inbound>, b: seq<Inbound>, t: string, rows: seq<Row>, known: set<string>, more: set<string>,
                     name: string)
    requires Accepts(a, t) == Accepts(b, t) && name !in more
    ensures Refused(a, t, rows, known, name) <==> Refused(b, t, rows, known + more, name)
  {
    hide Trim, Writable, Accepts;
    assert forall i: nat :: RefusedFirst(a, t, rows, name, i) <==> RefusedFirst(b, t, rows, name, i);
  }

  /** Reported as failed are exactly those who are refused. */
  lemma {:induction false} FailedExactly(dir: seq<Named>, t: string, rows: seq<Row>, known: set<string>, name: string)
    ensures name in SyncUsers(dir, t, rows, known).failed <==> Refused(Flat(dir), t, rows, known, name)
    decreases |rows|
  {
    hide Trim, Flat, AddExisting, AppendedAt, Accepts, ToItem, Writable, Refused;
    if rows == [] {
      NobodyRefused(Flat(dir), t, known, name);
    } else {
      var r, rest := rows[0], rows[1..];
      var u := Trim(r.username);
      assert rows == [r] + rest;
      Text.TrimIdempotent(r.username);
      AddExistingFlat(dir, t, u, r.stored);
      RefusedHead(Flat(dir), t, r, rest, known, name);
      if u != "" && u !in known && AddExisting(dir, t, u, r.stored).Ok? {
        var d := AddExisting(dir, t, u, r.stored).value;
        AppendedKeepsPlaces(Flat(dir), t, ToItem(r.stored, u).value, t);
        FailedExactly(d, t, rest, known + {u}, name);
        KnownNotRefused(Flat(d), t, rest, known + {u}, name);
        if name != u {
          RefusedAlike(Flat(dir), Flat(d), t, rest, known, {u}, name);
        }
      } else {
        FailedExactly(dir, t, rest, known, name);
        KnownNotRefused(Flat(dir), t, rest, known, name);
      }
    }
  }

  lemma NobodyRefused(ibs: seq<Inbound>, t: string, known: set<string>, name: string)
    ensures !Refused(ibs, t, [], known, name)
  {
  }

  lemma KnownNotRefused(ibs: seq<Inbound>, t: string, rows: seq<Row>, known: set<string>, name: string)
    ensures name == "" || name in known ==> !Refused(ibs, t, rows, known, name)
  {
  }

  // ----- the reports of a write-back -----

  /** Refused by the inbound of a tag that is to be found in the files. */
  ghost predicate RefusedAt(ibs: seq<Inbound>, t: string, rows: seq<Row>, name: string) {
    t != "" && ExistingIdentities(ibs, t).Some? && Refused(ibs, t, rows, ExistingIdentities(ibs, t).value, name)
  }

  function Listed(tags: seq<string>, listing: map<string, seq<Row>>): nat
    requires forall t :: t in tags ==> t in listing
  {
    if tags == [] then 0 else |listing[tags[0]]| + Listed(tags[1..], listing)
  }

  /** The identities of the inbounds that somebody is listed for. */
  function FoundIn(ibs: seq<Inbound>, tags: seq<string>, listing: map<string, seq<Row>>): nat
    requires forall t :: t in tags ==> t in listing
    decreases |tags|
  {
    if tags == [] then 0
    else
      (if listing[tags[0]] != [] && ExistingIdentities(ibs, tags[0]).Some? then |ExistingIdentities(ibs, tags[0]).value| else 0)
      + FoundIn(ibs, tags[1..], listing)
  }

  /** Somebody is listed for an inbound that is not to be found in the files. */
  predicate Unserved(ibs: seq<Inbound>, t: string, rows: seq<Row>) {
    rows != [] && ExistingIdentities(ibs, t).None?
  }

  ghost predicate SomeUnserved(ibs: seq<Inbound>, tags: seq<string>, listing: map<string, seq<Row>>)
    requires forall t :: t in tags ==> t in listing
  {
    exists t :: t in tags && Unserved(ibs, t, listing[t])
  }

  lemma SomeUnservedHead(ibs: seq<Inbound>, x: string, rest: seq<string>, listing: map<string, seq<Row>>)
    requires forall t :: t in [x] + rest ==> t in listing
    ensures x in listing && forall t :: t in rest ==> t in listing
    ensures SomeUnserved(ibs, [x] + rest, listing) <==> Unserved(ibs, x, listing[x]) || SomeUnserved(ibs, rest, listing)
  {
    hide Unserved;
    assert x in [x] + rest && forall t :: t in rest ==> t in [x] + rest;
  }

  lemma {:induction false} FirstErrorKnown(dir: seq<Named>, t: string, rows: seq<Row>, known: set<string>)
    ensures SyncUsers(dir, t, rows, known).firstError.Some? <==> SyncUsers(dir, t, rows, known).failed != []
    decreases |rows|
  {
    hide Trim, AddExisting;
    if rows != [] {
      var u := Trim(rows[0].username);
      if u == "" || u in known || AddExisting(dir, t, u, rows[0].stored).Err? {
        FirstErrorKnown(dir, t, rows[1..], known);
      } else {
        FirstErrorKnown(AddExisting(dir, t, u, rows[0].stored).value, t, rows[1..], known + {u});
      }
    }
  }

  lemma OneTagReports(dir: seq<Named>, t: string, rows: seq<Row>)
    ensures var one, ibs := OneTag(dir, t, rows), Flat(dir);
            && one.dbUsers == |rows|
            && one.configUsers == (if rows != [] && ExistingIdentities(ibs, t).Some? then |ExistingIdentities(ibs, t).value| else 0)
            && (forall d :: d in one.drift <==> d.inboundTag == t && RefusedAt(ibs, t, rows, d.username))
            && (one.firstError.Some? <==> Unserved(ibs, t, rows) || one.drift != [])
  {
    hide Flat, ExistingIdentities, SyncUsers, Refused;
    var ibs := Flat(dir);
    if rows == [] {
      forall name: string, known: set<string>
        ensures !Refused(ibs, t, rows, known, name)
      {
        NobodyRefused(ibs, t, known, name);
      }
    } else if ExistingIdentities(ibs, t).Some? && t != "" {
      var o := SyncUsers(dir, t, rows, ExistingIdentities(ibs, t).value);
      FirstErrorKnown(dir, t, rows, ExistingIdentities(ibs, t).value);
      DriftMembers(o.failed, t);
      forall name
        ensures name in o.failed <==> RefusedAt(ibs, t, rows, name)
      {
        FailedExactly(dir, t, rows, ExistingIdentities(ibs, t).value, name);
      }
    }
  }

  lemma DriftMembers(users: seq<string>, t: string)
    ensures forall d :: d in Drift(users, t) <==> d.inboundTag == t && d.username in users
    ensures |Drift(users, t)| == |users|
  {
    forall u | u in users
      ensures E.Drift(u, t) in Drift(users, t)
    {
      var i :| 0 <= i < |users| && users[i] == u;
      assert Drift(users, t)[i] == E.Drift(u, t);
    }
  }

  lemma RefusedAtView(a: seq<Inbound>, b: seq<Inbound>, t: string, rows: seq<Row>, name: string)
    requires SameView(a, b, t)
    ensures RefusedAt(a, t, rows, name) <==> RefusedAt(b, t, rows, name)
    ensures Unserved(a, t, rows) <==> Unserved(b, t, rows)
  {
    hide Trim, Writable, ExistingIdentities, Position;
    assert Accepts(a, t) <==> Entry(a, t).Some? && Entry(a, t).value.settings.Settings?;
    assert Accepts(b, t) <==> Entry(b, t).Some? && Entry(b, t).value.settings.Settings?;
    hide Accepts, Entry, Refused;
    if ExistingIdentities(a, t).Some? {
      var known := ExistingIdentities(a, t).value;
      RefusedAlike(a, b, t, rows, known, {}, name);
      assert known + {} == known;
    }
  }

  lemma {:induction false} FoundView(a: seq<Inbound>, b: seq<Inbound>, tags: seq<string>, listing: map<string, seq<Row>>)
    requires forall t :: t in tags ==> t in listing && SameView(a, b, t)
    ensures FoundIn(a, tags, listing) == FoundIn(b, tags, listing)
    decreases |tags|
  {
    hide ExistingIdentities, Entry;
    if tags != [] {
      assert tags[0] in tags && tags == [tags[0]] + tags[1..];
      FoundView(a, b, tags[1..], listing);
    }
  }

  /** Main result: what a write-back over distinct tags reports can be told from the files before it. It counts every
      listed user, and the identities of every inbound found that users are listed for; as drift it lists exactly the
      users whom the inbound they are listed for refuses; and it reports an error exactly when there is drift or an
      inbound with users is not found. */
  lemma {:induction false} ReportsExactly(dir: seq<Named>, tags: seq<string>, listing: map<string, seq<Row>>)
    requires (forall i, j :: 0 <= i < j < |tags| ==> tags[i] != tags[j]) && forall t :: t in tags ==> t in listing
    ensures var back, ibs := SyncBack(dir, tags, listing), Flat(dir);
            && back.dbUsers == Listed(tags, listing)
            && back.configUsers == FoundIn(ibs, tags, listing)
            && (forall d :: d in back.drift <==> d.inboundTag in tags && RefusedAt(ibs, d.inboundTag, listing[d.inboundTag], d.username))
            && (back.firstError.Some? <==> back.drift != [] || SomeUnserved(ibs, tags, listing))
    decreases |tags|
  {
    hide OneTag, Flat, RefusedAt, Unserved, SomeUnserved, ExistingIdentities, SameView;
    NobodyUnserved(Flat(dir), listing);
    if tags != [] {
      var x, rest := tags[0], tags[1..];
      assert x in tags && tags == [x] + rest && x !in rest;
      var d := OneTag(dir, x, listing[x]).dir;
      OneTagReports(dir, x, listing[x]);
      ReportsExactly(d, rest, listing);
      forall t | t in rest
        ensures SameView(Flat(dir), Flat(d), t)
      {
        OneTagElsewhere(dir, x, listing[x], t);
      }
      FoundView(Flat(dir), Flat(d), rest, listing);
      forall t, name | t in rest
        ensures RefusedAt(Flat(dir), t, listing[t], name) <==> RefusedAt(Flat(d), t, listing[t], name)
      {
        RefusedAtView(Flat(dir), Flat(d), t, listing[t], name);
      }
      forall t | t in rest
        ensures Unserved(Flat(dir), t, listing[t]) <==> Unserved(Flat(d), t, listing[t])
      {
        RefusedAtView(Flat(dir), Flat(d), t, listing[t], "");
      }
      SomeUnservedHead(Flat(dir), x, rest, listing);
      SomeUnservedAlike(Flat(dir), Flat(d), rest, listing);
    }
  }

  lemma NobodyUnserved(ibs: seq<Inbound>, listing: map<string, seq<Row>>)
    ensures !SomeUnserved(ibs, [], listing)
  {
  }

  lemma SomeUnservedAlike(a: seq<Inbound>, b: seq<Inbound>, tags: seq<string>, listing: map<string, seq<Row>>)
    requires forall t :: t in tags ==> t in listing && (Unserved(a, t, listing[t]) <==> Unserved(b, t, listing[t]))
    ensures SomeUnserved(a, tags, listing) <==> SomeUnserved(b, tags, listing)
  {
    hide Unserved;
  }

  /** A pass is recorded as fine exactly when every inbound with active users is found and refuses none of them. */
  lemma FineExactly(dir: seq<Named>, tags: seq<string>, listing: map<string, seq<Row>>)
    requires (forall i, j :: 0 <= i < j < |tags| ==> tags[i] != tags[j]) && forall t :: t in tags ==> t in listing
    ensures var back, ibs := SyncBack(dir, tags, listing), Flat(dir);
            (back.firstError.None? && back.drift == []) <==>
            forall t :: t in tags ==> !Unserved(ibs, t, listing[t]) && forall name :: !RefusedAt(ibs, t, listing[t], name)
  {
    hide SyncBack, Flat, RefusedAt, Unserved;
    ReportsExactly(dir, tags, listing);
    var back := SyncBack(dir, tags, listing);
    if back.drift != [] {
      assert back.drift[0] in back.drift;
    }
    forall t, name | t in tags && RefusedAt(Flat(dir), t, listing[t], name)
      ensures back.drift != []
    {
      assert E.Drift(name, t) in back.drift;
    }
  }

  // ----- names and messages -----

  /** The name a user has in Xray: the email, or the username when that is blank. */
  lemma XrayEmailIs(u: S.User, username: string)
    ensures XrayEmail(u, username) == Trim(if Trim(u.email) != "" then u.email else username)
  {
    hide Trim;
  }

  /** This user is enabled, enrolled and enabled in the inbound with this credential, and called this in Xray. */
  predicate Serves(db: S.Tables, t: string, u: string, name: string, s: Stored) {
    && u in db.users && db.users[u] == S.User(db.users[u].email, true)
    && t in db.inbounds && u in db.inbounds[t].clients && db.inbounds[t].clients[u] == S.Enrolment(s, true)
    && name == Trim(if Trim(db.users[u].email) != "" then db.users[u].email else u)
  }

  /** What the database answers for an inbound, row by row. */
  lemma AnswerExactly(db: S.Tables, t: string, rows: seq<Row>)
    requires Answer(db, t, rows)
    ensures forall r :: r in rows <==> exists u :: Serves(db, t, u, r.username, r.stored)
  {
    hide Trim, XrayEmail;
    forall u | u in db.users
      ensures XrayEmail(db.users[u], u) == Trim(if Trim(db.users[u].email) != "" then db.users[u].email else u)
    {
      XrayEmailIs(db.users[u], u);
    }
    forall r
      ensures r in rows <==> exists u :: Serves(db, t, u, r.username, r.stored)
    {
      if r in rows {
        var u :| Active(db, t, u) && r == RowFor(db, t, u);
        assert Serves(db, t, u, r.username, r.stored);
      }
      if u :| Serves(db, t, u, r.username, r.stored) {
        assert Active(db, t, u) && RowFor(db, t, u) == r;
      }
    }
  }

  /** The message is blank exactly without an error, and otherwise tells the inbound and the error. */
  lemma MessageTells(e: Option<(string, Error)>, f: Option<(string, Error)>)
    ensures Message(e) == "" <==> e == None
    ensures e.Some? && f.Some? && e.value.0 == f.value.0 && Message(e) == Message(f) ==> e == f
  {
    if e.Some? {
      assert Message(e)[0] == 'i';
      if f.Some? && e.value.0 == f.value.0 && Message(e) == Message(f) {
        var head := "inbound " + e.value.0 + ": ";
        assert Message(e) == head + Reason(e.value.1) && Message(f) == head + Reason(f.value.1);
        assert Message(e)[|head|..] == Reason(e.value.1) && Message(f)[|head|..] == Reason(f.value.1);
        ReasonsDiffer(e.value.1, f.value.1);
      }
    }
  }

  lemma ReasonsDiffer(e: Error, f: Error)
    ensures Reason(e) == Reason(f) ==> e == f
  {
    assert "inbound not found"[0] != "username required"[0];
  }

  lemma MessageExample()
    ensures Message(Some(("in", NoSuchInbound))) == "inbound in: inbound not found" && forall e :: Reason(e) != ""
  {
  }
}
