/** What the file-to-database direction guarantees: the outcome per tag, independence of the order in which the
    files are processed, framing, and the exact effect of a tag that moved between files. */
module SyncResults {
  import opened Credentials
  import opened Options
  import opened Sync
  import opened Text
  import Lists

  // ----- closed form of one file -----

  /** Sanitising leaves nothing to trim, so that user creation stores the name it was asked for. */
  predicate Tidy(c: Parsed) {
    Trim(Sanitize(c.identity)) == Sanitize(c.identity)
  }

  ghost predicate AllTidy(cs: seq<Parsed>) {
    forall c :: c in cs ==> Tidy(c)
  }

  ghost predicate TidyInbounds(ibs: seq<ParsedInbound>) {
    forall ib :: ib in ibs ==> AllTidy(ib.clients)
  }

  /** Without vertical tabs and form feeds every identity is tidy. */
  lemma TidyUnlessOddSpace(c: Parsed)
    requires forall i :: 0 <= i < |c.identity| ==> c.identity[i] != '\U{b}' && c.identity[i] != '\U{c}'
    ensures Tidy(c)
  {
    var t := Trim(c.identity);
    TrimChars(c.identity);
    ScrubChars(t);
    NoSpaceNoTrim(Sanitize(c.identity));
  }

  lemma {:induction false} TrimLeftChars(s: string)
    ensures forall i :: 0 <= i < |TrimLeft(s)| ==> TrimLeft(s)[i] in s
  {
    if s != [] && IsSpace(s[0]) {
      TrimLeftChars(s[1..]);
    }
  }

  lemma TrimChars(s: string)
    ensures forall i :: 0 <= i < |Trim(s)| ==> Trim(s)[i] in s
  {
    TrimLeftChars(s);
    var l := TrimLeft(s);
    forall i | 0 <= i < |Trim(s)|
      ensures Trim(s)[i] in s
    {
      assert Trim(s)[i] == l[i];
    }
  }

  lemma {:induction false} ScrubChars(s: string)
    requires forall i :: 0 <= i < |s| ==> s[i] != '\U{b}' && s[i] != '\U{c}'
    ensures forall i :: 0 <= i < |Scrub(s)| ==> !IsSpace(Scrub(s)[i])
  {
    if s != [] {
      if s[0] == ' ' || s[0] == '\t' {
        ScrubChars(s[1..]);
      } else if s[0] in "\n\r'\";" {
        ScrubChars(s[1..]);
      } else if |s| > 1 && s[0] == '-' && s[1] == '-' {
        ScrubChars(s[2..]);
      } else {
        ScrubChars(s[1..]);
        assert s[0] != '\n' && s[0] != '\r' by {
          assert '\n' in "\n\r'\";" && '\r' in "\n\r'\";";
        }
      }
    }
  }

  lemma NoSpaceNoTrim(s: string)
    requires forall i :: 0 <= i < |s| ==> !IsSpace(s[i])
    ensures Trim(s) == s
  {
  }

  /** The user names a client list stands for. */
  function Users(cs: seq<Parsed>): set<string> {
    set c | c in cs && Sanitize(c.identity) != "" :: Sanitize(c.identity)
  }

  function UsersOfFile(ibs: seq<ParsedInbound>): set<string> {
    set ib, u | ib in ibs && u in Users(ib.clients) :: u
  }

  /** users with a new enabled account for every name that has none. */
  function WithAccounts(users: map<string, User>, names: set<string>): map<string, User> {
    users + map n | n in names && n !in users :: User(n, true)
  }

  lemma WithAccountsTwice(users: map<string, User>, a: set<string>, b: set<string>)
    ensures WithAccounts(WithAccounts(users, a), b) == WithAccounts(users, a + b)
  {
  }

  function ClientsAfter(clients: map<string, Enrolment>, cs: seq<Parsed>): map<string, Enrolment>
    decreases |cs|
  {
    if cs == [] then clients
    else if Sanitize(cs[0].identity) == "" then ClientsAfter(clients, cs[1..])
    else ClientsAfter(Enrol(clients, Sanitize(cs[0].identity), cs[0].stored), cs[1..])
  }

  lemma SyncClientClosed(db: Tables, tag: string, c: Parsed)
    requires tag in db.inbounds && Tidy(c)
    ensures SyncClient(db, tag, c) ==
            Tables(db.inbounds[tag := db.inbounds[tag].(clients := ClientsAfter(db.inbounds[tag].clients, [c]))],
                   WithAccounts(db.users, Users([c])))
  {
    hide Sanitize, Trim;
    var name := Sanitize(c.identity);
    assert [c][1..] == [];
    assert Users([c]) == if name == "" then {} else {name};
    var r, row := SyncClient(db, tag, c), db.inbounds[tag];
    if name == "" {
      assert db.inbounds[tag := row] == db.inbounds;
      assert WithAccounts(db.users, {}) == db.users;
    } else {
      assert WithAccounts(db.users, {name}) == if name in db.users then db.users else db.users[name := User(name, true)];
    }
  }

  lemma {:induction false} SyncClientsClosed(db: Tables, tag: string, cs: seq<Parsed>)
    requires tag in db.inbounds && AllTidy(cs)
    ensures SyncClients(db, tag, cs) ==
            Tables(db.inbounds[tag := db.inbounds[tag].(clients := ClientsAfter(db.inbounds[tag].clients, cs))],
                   WithAccounts(db.users, Users(cs)))
    decreases |cs|
  {
    hide SyncClient, Sanitize, Tidy;
    if cs == [] {
      assert Users(cs) == {} && WithAccounts(db.users, {}) == db.users;
      assert db.inbounds[tag := db.inbounds[tag]] == db.inbounds;
    } else {
      var c, rest := cs[0], cs[1..];
      assert c in cs;
      var db' := SyncClient(db, tag, c);
      SyncClientClosed(db, tag, c);
      SyncClientsClosed(db', tag, rest);
      assert [c][1..] == [];
      assert ClientsAfter(db.inbounds[tag].clients, cs) == ClientsAfter(ClientsAfter(db.inbounds[tag].clients, [c]), rest);
      assert cs == [c] + rest;
      assert Users(cs) == Users([c]) + Users(rest);
      WithAccountsTwice(db.users, Users([c]), Users(rest));
      assert db.inbounds[tag := db'.inbounds[tag]][tag := SyncClients(db', tag, rest).inbounds[tag]]
          == db.inbounds[tag := SyncClients(db', tag, rest).inbounds[tag]];
    }
  }

  /** The row an inbound of a file ends up with, given the row of its tag before. */
  function Synced(file: string, ib: ParsedInbound, was: Option<Row>): Row {
    var row := Upserted(file, ib, was);
    row.(clients := ClientsAfter(row.clients, ib.clients))
  }

  lemma SyncInboundClosed(db: Tables, file: string, ib: ParsedInbound)
    requires AllTidy(ib.clients)
    ensures SyncInbound(db, file, ib) ==
            Tables(db.inbounds[ib.tag := Synced(file, ib, RowOf(db, ib.tag))], WithAccounts(db.users, Users(ib.clients)))
  {
    hide ClientsAfter, SyncClients, Users, WithAccounts, AllTidy;
    var row := Upserted(file, ib, RowOf(db, ib.tag));
    var db' := db.(inbounds := db.inbounds[ib.tag := row]);
    SyncClientsClosed(db', ib.tag, ib.clients);
    assert db'.inbounds[ib.tag := Synced(file, ib, RowOf(db, ib.tag))] == db.inbounds[ib.tag := Synced(file, ib, RowOf(db, ib.tag))];
  }

  ghost predicate DistinctTags(ibs: seq<ParsedInbound>) {
    forall i, j :: 0 <= i < j < |ibs| ==> ibs[i].tag != ibs[j].tag
  }

  /** The inbound with this tag. */
  function InboundOf(ibs: seq<ParsedInbound>, tag: string): (ib: ParsedInbound)
    requires tag in Tags(ibs)
    ensures ib in ibs && ib.tag == tag
  {
    if ibs[0].tag == tag then ibs[0]
    else
      assert tag in Tags(ibs[1..]) by {
        var i :| 0 <= i < |ibs| && ibs[i].tag == tag;
        assert ibs[1..][i - 1] == ibs[i];
      }
      InboundOf(ibs[1..], tag)
  }

  lemma TagsHead(ibs: seq<ParsedInbound>)
    requires ibs != []
    ensures Tags(ibs) == {ibs[0].tag} + Tags(ibs[1..])
    ensures DistinctTags(ibs) ==> DistinctTags(ibs[1..]) && ibs[0].tag !in Tags(ibs[1..])
  {
    assert ibs == [ibs[0]] + ibs[1..];
    forall t
      ensures t in Tags(ibs) <==> t == ibs[0].tag || t in Tags(ibs[1..])
    {
      if t in Tags(ibs) {
        var i :| 0 <= i < |ibs| && ibs[i].tag == t;
        assert i > 0 ==> ibs[1..][i - 1].tag == t;
      }
      if t in Tags(ibs[1..]) {
        var i :| 0 <= i < |ibs| - 1 && ibs[1..][i].tag == t;
        assert ibs[i + 1].tag == t;
      }
    }
  }

  lemma {:induction false} SyncInboundsClosed(db: Tables, file: string, ibs: seq<ParsedInbound>, t: string)
    requires TidyInbounds(ibs) && DistinctTags(ibs)
    ensures RowOf(SyncInbounds(db, file, ibs), t) ==
            if t in Tags(ibs) then Some(Synced(file, InboundOf(ibs, t), RowOf(db, t))) else RowOf(db, t)
    ensures SyncInbounds(db, file, ibs).users == WithAccounts(db.users, UsersOfFile(ibs))
    decreases |ibs|
  {
    hide SyncInbound, Synced, Users, AllTidy, DistinctTags;
    if ibs == [] {
      assert WithAccounts(db.users, UsersOfFile(ibs)) == db.users;
    } else {
      hide Tags;
      var ib, rest := ibs[0], ibs[1..];
      TagsHead(ibs);
      assert ib in ibs && ibs == [ib] + rest;
      SyncInboundClosed(db, file, ib);
      SyncInboundsClosed(SyncInbound(db, file, ib), file, rest, t);
      assert UsersOfFile(ibs) == Users(ib.clients) + UsersOfFile(rest);
      WithAccountsTwice(db.users, Users(ib.clients), UsersOfFile(rest));
    }
  }

  /** What processing a file does to the row of a tag. */
  function Effect(file: string, ibs: seq<ParsedInbound>, t: string, was: Option<Row>): Option<Row> {
    if t in Tags(ibs) then Some(Synced(file, InboundOf(ibs, t), was))
    else if was.Some? && was.value.file == file then None
    else was
  }

  lemma ProcessFileClosed(db: Tables, file: string, ibs: seq<ParsedInbound>, t: string)
    requires TidyInbounds(ibs) && DistinctTags(ibs)
    ensures RowOf(ProcessFile(db, file, ibs), t) == Effect(file, ibs, t, RowOf(db, t))
    ensures ProcessFile(db, file, ibs).users == WithAccounts(db.users, UsersOfFile(ibs))
  {
    hide SyncInbounds, Synced, TidyInbounds, DistinctTags, Tags, UsersOfFile, WithAccounts;
    var db' := db.(inbounds := db.inbounds - Stale(db, file, Tags(ibs)));
    SyncInboundsClosed(db', file, ibs, t);
  }

  // ----- all files -----

  type Files = map<string, seq<ParsedInbound>>

  /** Tags are distinct within a file and no two files share one. */
  ghost predicate Structured(files: Files) {
    && (forall f :: f in files ==> DistinctTags(files[f]))
    && forall f, g, t :: f in files && g in files && t in Tags(files[f]) && t in Tags(files[g]) ==> f == g
  }

  /** Moreover, identities are tidy. */
  ghost predicate WellFormed(files: Files) {
    Structured(files) && forall f :: f in files ==> TidyInbounds(files[f])
  }

  ghost predicate Enumerates(order: seq<string>, files: Files) {
    && (forall f :: f in order <==> f in files)
    && forall i, j :: 0 <= i < j < |order| ==> order[i] != order[j]
  }

  function Effects(files: Files, order: seq<string>, t: string, was: Option<Row>): Option<Row>
    requires forall f :: f in order ==> f in files
    decreases |order|
  {
    if order == [] then was else Effects(files, order[1..], t, Effect(order[0], files[order[0]], t, was))
  }

  function UsersOf(files: Files, order: seq<string>): set<string>
    requires forall f :: f in order ==> f in files
  {
    set f, u | f in order && u in UsersOfFile(files[f]) :: u
  }

  lemma {:induction false} ProcessAllClosed(db: Tables, files: Files, order: seq<string>, t: string)
    requires WellFormed(files) && forall f :: f in order ==> f in files
    ensures RowOf(ProcessAll(db, files, order), t) == Effects(files, order, t, RowOf(db, t))
    ensures ProcessAll(db, files, order).users == WithAccounts(db.users, UsersOf(files, order))
    decreases |order|
  {
    hide ProcessFile, Effect, UsersOfFile, TidyInbounds, DistinctTags, Tags;
    if order == [] {
      assert WithAccounts(db.users, UsersOf(files, order)) == db.users;
    } else {
      var f, rest := order[0], order[1..];
      assert f in order && order == [f] + rest;
      ProcessFileClosed(db, f, files[f], t);
      ProcessAllClosed(ProcessFile(db, f, files[f]), files, rest, t);
      assert UsersOf(files, order) == UsersOfFile(files[f]) + UsersOf(files, rest);
      WithAccountsTwice(db.users, UsersOfFile(files[f]), UsersOf(files, rest));
    }
  }

  /** A tag that none of the files has: its row goes when its file is among them, and stays otherwise. */
  lemma {:induction false} EffectsUnlisted(files: Files, order: seq<string>, t: string, was: Option<Row>)
    requires forall f :: f in order ==> f in files && t !in Tags(files[f])
    ensures Effects(files, order, t, was) == if was.Some? && was.value.file in order then None else was
    decreases |order|
  {
    if order != [] {
      hide Tags;
      var f, rest := order[0], order[1..];
      assert f in order && order == [f] + rest;
      EffectsUnlisted(files, rest, t, Effect(f, files[f], t, was));
    }
  }

  /** f comes before g. */
  predicate Before(order: seq<string>, f: string, g: string) {
    order != [] && (order[0] == f || (order[0] != g && Before(order[1..], f, g)))
  }

  /** The row of a tag that file g has. When the tag moved here from another parsed file x, the old row and its
      enrolments are lost if x comes first, and taken over if g comes first. */
  lemma {:induction false} EffectsListed(files: Files, order: seq<string>, t: string, was: Option<Row>, g: string)
    requires Structured(files) && (forall f :: f in order ==> f in files)
    requires forall i, j :: 0 <= i < j < |order| ==> order[i] != order[j]
    requires g in order && t in Tags(files[g])
    ensures var moved := was.Some? && was.value.file != g && was.value.file in order && Before(order, was.value.file, g);
            Effects(files, order, t, was) == Some(Synced(g, InboundOf(files[g], t), if moved then None else was))
    decreases |order|
  {
    hide Tags, Synced, TidyInbounds, DistinctTags;
    var f, rest := order[0], order[1..];
    assert f in order && order == [f] + rest;
    var next := Effect(f, files[f], t, was);
    if f == g {
      assert g !in rest;
      EffectsUnlisted(files, rest, t, next);
      SyncedFile(g, InboundOf(files[g], t), was);
    } else {
      assert t !in Tags(files[f]);
      EffectsListed(files, rest, t, next, g);
    }
  }

  lemma SyncedFile(g: string, ib: ParsedInbound, was: Option<Row>)
    ensures Synced(g, ib, was).file == g
  {
  }

  /** No tag of the files is recorded under another of the files. */
  ghost predicate NoTagMoved(db: Tables, files: Files) {
    forall g, t :: g in files && t in Tags(files[g]) && t in db.inbounds && db.inbounds[t].file in files ==> db.inbounds[t].file == g
  }

  ghost predicate Listed(files: Files, t: string) {
    exists g :: g in files && t in Tags(files[g])
  }

  /** The outcome for a tag, without mention of any order. */
  ghost predicate Outcome(db: Tables, files: Files, t: string, now: Option<Row>) {
    && (forall g :: g in files && t in Tags(files[g]) ==> now == Some(Synced(g, InboundOf(files[g], t), RowOf(db, t))))
    && (!Listed(files, t) ==>
          now == if t in db.inbounds && db.inbounds[t].file in files then None else RowOf(db, t))
  }

  lemma OutcomeOfAnyOrder(db: Tables, files: Files, order: seq<string>, t: string)
    requires WellFormed(files) && NoTagMoved(db, files) && Enumerates(order, files)
    ensures Outcome(db, files, t, RowOf(ProcessAll(db, files, order), t))
    ensures ProcessAll(db, files, order).users == WithAccounts(db.users, UsersOf(files, order))
  {
    hide ProcessAll, Effects, Synced, Tags;
    ProcessAllClosed(db, files, order, t);
    if Listed(files, t) {
      var g :| g in files && t in Tags(files[g]);
      EffectsListed(files, order, t, RowOf(db, t), g);
    } else {
      EffectsUnlisted(files, order, t, RowOf(db, t));
    }
  }

  lemma SameRows(a: Tables, b: Tables)
    requires forall t :: RowOf(a, t) == RowOf(b, t)
    ensures a.inbounds == b.inbounds
  {
    forall t
      ensures t in a.inbounds <==> t in b.inbounds
      ensures t in a.inbounds && t in b.inbounds ==> a.inbounds[t] == b.inbounds[t]
    {
      assert RowOf(a, t) == RowOf(b, t);
    }
  }

  // ----- enrolments -----

  lemma {:induction false} EnrolmentsKept(clients: map<string, Enrolment>, cs: seq<Parsed>, u: string)
    ensures var now := ClientsAfter(clients, cs);
            && (u in now <==> u in clients || u in Users(cs))
            && (u in now ==> now[u].enabled == if u in clients then clients[u].enabled else true)
            && (u in now && u !in Users(cs) ==> now[u] == clients[u])
    decreases |cs|
  {
    hide Sanitize;
    if cs != [] {
      var c, rest := cs[0], cs[1..];
      assert cs == [c] + rest;
      var name := Sanitize(c.identity);
      assert u in Users(cs) <==> (name != "" && u == name) || u in Users(rest);
      EnrolmentsKept(if name == "" then clients else Enrol(clients, name, c.stored), rest, u);
    }
  }

  lemma {:induction false} StoredFromTheFile(a: map<string, Enrolment>, b: map<string, Enrolment>, cs: seq<Parsed>, u: string)
    requires u in Users(cs) || (u in a && u in b && a[u].stored == b[u].stored)
    ensures u in ClientsAfter(a, cs) && u in ClientsAfter(b, cs)
    ensures ClientsAfter(a, cs)[u].stored == ClientsAfter(b, cs)[u].stored
    decreases |cs|
  {
    hide Sanitize;
    if cs != [] {
      var c, rest := cs[0], cs[1..];
      assert cs == [c] + rest;
      var name := Sanitize(c.identity);
      assert u in Users(cs) <==> (name != "" && u == name) || u in Users(rest);
      if name == "" {
        StoredFromTheFile(a, b, rest, u);
      } else {
        StoredFromTheFile(Enrol(a, name, c.stored), Enrol(b, name, c.stored), rest, u);
      }
    }
  }

  /** The credential a listed user ends up with is that of one of the entries naming the user. */
  lemma {:induction false} StoredFromEntry(clients: map<string, Enrolment>, cs: seq<Parsed>, u: string) returns (p: Parsed)
    requires u in Users(cs)
    ensures p in cs && Sanitize(p.identity) == u
    ensures u in ClientsAfter(clients, cs) && ClientsAfter(clients, cs)[u].stored == p.stored
    decreases |cs|
  {
    hide Sanitize;
    var c, rest := cs[0], cs[1..];
    assert cs == [c] + rest;
    var name := Sanitize(c.identity);
    assert u in Users(cs) <==> (name != "" && u == name) || u in Users(rest);
    var next := if name == "" then clients else Enrol(clients, name, c.stored);
    if u in Users(rest) {
      p := StoredFromEntry(next, rest, u);
    } else {
      p := c;
      EnrolmentsKept(next, rest, u);
    }
  }

  /** Starting afresh makes no difference exactly when every old enrolment is enabled and listed again. */
  lemma FreshStart(clients: map<string, Enrolment>, cs: seq<Parsed>)
    ensures ClientsAfter(clients, cs) == ClientsAfter(map[], cs) <==>
            forall u :: u in clients ==> u in Users(cs) && clients[u].enabled
  {
    hide ClientsAfter, Users;
    var a, b := ClientsAfter(clients, cs), ClientsAfter(map[], cs);
    forall u
      ensures u in a <==> u in clients || u in Users(cs)
      ensures u in b <==> u in Users(cs)
      ensures u in a ==> a[u].enabled == if u in clients then clients[u].enabled else true
      ensures u in b ==> b[u].enabled
      ensures u in Users(cs) ==> u in a && u in b && a[u].stored == b[u].stored
    {
      EnrolmentsKept(clients, cs, u);
      EnrolmentsKept(map[], cs, u);
      if u in Users(cs) {
        StoredFromTheFile(clients, map[], cs, u);
      }
    }
    if forall u :: u in clients ==> u in Users(cs) && clients[u].enabled {
      assert a == b;
    }
    if a == b {
      forall u | u in clients
        ensures u in Users(cs) && clients[u].enabled
      {
        assert u in b;
      }
    }
  }

  /** For a tag that did move, from x to g, the two kinds of order differ exactly by the old enrolments: with g
      first they are kept, with x first the inbound starts afresh. */
  lemma MovedTag(db: Tables, files: Files, order: seq<string>, t: string, x: string, g: string)
    requires WellFormed(files) && Enumerates(order, files)
    requires x in files && g in files && x != g && t in Tags(files[g])
    requires t in db.inbounds && db.inbounds[t].file == x
    ensures RowOf(ProcessAll(db, files, order), t) ==
            Some(Synced(g, InboundOf(files[g], t), if Before(order, x, g) then None else RowOf(db, t)))
  {
    hide ProcessAll, Effects, Synced, Tags;
    ProcessAllClosed(db, files, order, t);
    EffectsListed(files, order, t, RowOf(db, t), g);
  }

  /** Main result: so the order of the two files shows in the moved inbound unless every old enrolment is enabled
      and listed in the new file. */
  lemma MovedTagOrder(db: Tables, files: Files, order: seq<string>, order': seq<string>, t: string, x: string, g: string)
    requires WellFormed(files) && Enumerates(order, files) && Enumerates(order', files)
    requires x in files && g in files && x != g && t in Tags(files[g])
    requires t in db.inbounds && db.inbounds[t].file == x
    requires Before(order, x, g) && !Before(order', x, g)
    ensures RowOf(ProcessAll(db, files, order), t) == RowOf(ProcessAll(db, files, order'), t) <==>
            forall u :: u in db.inbounds[t].clients ==>
                          u in Users(InboundOf(files[g], t).clients) && db.inbounds[t].clients[u].enabled
  {
    hide ProcessAll, Tags, ClientsAfter, Users, WellFormed, Enumerates, Before;
    MovedTag(db, files, order, t, x, g);
    MovedTag(db, files, order', t, x, g);
    FreshStart(db.inbounds[t].clients, InboundOf(files[g], t).clients);
  }

  /** The old enrolments of a tag now in file g are enabled and listed there. */
  ghost predicate Covered(row: Row, cs: seq<Parsed>) {
    forall u :: u in row.clients ==> u in Users(cs) && row.clients[u].enabled
  }

  /** That holds for every tag that moved between the files. */
  ghost predicate MovesCovered(db: Tables, files: Files) {
    forall g, t :: g in files && t in Tags(files[g]) && t in db.inbounds && db.inbounds[t].file in files && db.inbounds[t].file != g ==>
      Covered(db.inbounds[t], InboundOf(files[g], t).clients)
  }

  lemma SyncedAfresh(g: string, ib: ParsedInbound, was: Row)
    ensures Covered(was, ib.clients) <==> Synced(g, ib, None) == Synced(g, ib, Some(was))
  {
    hide ClientsAfter, Users;
    FreshStart(was.clients, ib.clients);
  }

  /** A row does not depend on the order then. */
  lemma RowOfAnyOrder(db: Tables, files: Files, order: seq<string>, order': seq<string>, t: string)
    requires WellFormed(files) && Enumerates(order, files) && Enumerates(order', files) && MovesCovered(db, files)
    ensures RowOf(ProcessAll(db, files, order), t) == RowOf(ProcessAll(db, files, order'), t)
  {
    hide ProcessAll, Effects, Synced, Tags, Covered, TidyInbounds, DistinctTags, InboundOf;
    ProcessAllClosed(db, files, order, t);
    ProcessAllClosed(db, files, order', t);
    if Listed(files, t) {
      var g :| g in files && t in Tags(files[g]);
      EffectsListed(files, order, t, RowOf(db, t), g);
      EffectsListed(files, order', t, RowOf(db, t), g);
      if t in db.inbounds {
        SyncedAfresh(g, InboundOf(files[g], t), db.inbounds[t]);
      }
    } else {
      EffectsUnlisted(files, order, t, RowOf(db, t));
      EffectsUnlisted(files, order', t, RowOf(db, t));
    }
  }

  /** An order of the files that starts with this one. */
  lemma OrderFrom(files: Files, x: string) returns (order: seq<string>)
    requires x in files
    ensures Enumerates(order, files) && order != [] && order[0] == x
  {
    var rest := Lists.SomeOrder(files.Keys - {x});
    order := [x] + rest;
  }

  /** Main result: all orders of the files lead to the same tables exactly when for every tag that moved between the
      files every old enrolment is enabled and listed in the new file. */
  lemma OrderMattersExactly(db: Tables, files: Files)
    requires WellFormed(files)
    ensures (forall order, order' :: Enumerates(order, files) && Enumerates(order', files) ==>
               ProcessAll(db, files, order) == ProcessAll(db, files, order')) <==>
            MovesCovered(db, files)
  {
    hide ProcessAll, Tags, WellFormed, InboundOf, Users, TidyInbounds;
    if MovesCovered(db, files) {
      forall order, order' | Enumerates(order, files) && Enumerates(order', files)
        ensures ProcessAll(db, files, order) == ProcessAll(db, files, order')
      {
        forall t
          ensures RowOf(ProcessAll(db, files, order), t) == RowOf(ProcessAll(db, files, order'), t)
        {
          RowOfAnyOrder(db, files, order, order', t);
        }
        SameRows(ProcessAll(db, files, order), ProcessAll(db, files, order'));
        ProcessAllClosed(db, files, order, "");
        ProcessAllClosed(db, files, order', "");
        assert UsersOf(files, order) == UsersOf(files, order');
      }
    } else {
      var g, t :| g in files && t in Tags(files[g]) && t in db.inbounds && db.inbounds[t].file in files && db.inbounds[t].file != g
                  && !Covered(db.inbounds[t], InboundOf(files[g], t).clients);
      var order := OrderFrom(files, db.inbounds[t].file);
      var order' := OrderFrom(files, g);
      MovedTagOrder(db, files, order, order', t, db.inbounds[t].file, g);
    }
  }

  /** In particular the order does not matter when no tag moved. */
  lemma OrderDoesNotMatter(db: Tables, files: Files, order: seq<string>, order': seq<string>)
    requires WellFormed(files) && NoTagMoved(db, files)
    requires Enumerates(order, files) && Enumerates(order', files)
    ensures ProcessAll(db, files, order) == ProcessAll(db, files, order')
  {
    hide ProcessAll, Tags, WellFormed, Covered;
    OrderMattersExactly(db, files);
    assert MovesCovered(db, files);
  }

  /** A tag that moved from file x to file y, with one enrolment, which is disabled and not in y. */
  const MOVED := Tables(map["in" := Row("vless", 443, "x", Junk(""), map["bob" := Enrolment(BLANK, false)])],
                        map["bob" := User("bob", true)])
  const XY: Files := map["x" := [], "y" := [ParsedInbound("in", "vless", 443, Junk(""), [])]]

  lemma TwoFiles()
    ensures WellFormed(XY) && "in" in Tags(XY["y"]) && InboundOf(XY["y"], "in") == XY["y"][0]
    ensures Enumerates(["x", "y"], XY) && Enumerates(["y", "x"], XY)
    ensures Before(["x", "y"], "x", "y") && !Before(["y", "x"], "x", "y")
  {
    assert "x"[0] != "y"[0];
    assert XY["y"][0].tag in Tags(XY["y"]);
  }

  /** The enrolment survives the one order of the files and not the other. */
  lemma MovedTagExample()
    ensures WellFormed(XY) && Enumerates(["x", "y"], XY) && Enumerates(["y", "x"], XY)
    ensures RowOf(ProcessAll(MOVED, XY, ["x", "y"]), "in") == Some(Row("vless", 443, "y", Junk(""), map[]))
    ensures RowOf(ProcessAll(MOVED, XY, ["y", "x"]), "in") ==
            Some(Row("vless", 443, "y", Junk(""), map["bob" := Enrolment(BLANK, false)]))
  {
    hide ProcessAll, WellFormed, Before, Tags, InboundOf;
    TwoFiles();
    assert "x"[0] != "y"[0];
    MovedTag(MOVED, XY, ["x", "y"], "in", "x", "y");
    MovedTag(MOVED, XY, ["y", "x"], "in", "x", "y");
  }

  // ----- framing -----

  /** Main result: after a sync each parsed file owns exactly the tags it has; rows of other owners, such as
      "api-managed", whose tag no file has are untouched; enrolments of an inbound that is still there are kept
      with their enabled flag, users are kept as they were, and new ones are enabled. */
  lemma SyncIsFramed(db: Tables, files: Files, order: seq<string>)
    requires WellFormed(files) && NoTagMoved(db, files) && Enumerates(order, files)
    ensures var db' := ProcessAll(db, files, order);
            && (forall g, t :: g in files ==> (t in db'.inbounds && db'.inbounds[t].file == g <==> t in Tags(files[g])))
            && (forall t :: !Listed(files, t) && t in db.inbounds && db.inbounds[t].file !in files ==>
                  t in db'.inbounds && db'.inbounds[t] == db.inbounds[t])
            && (forall t, u :: Listed(files, t) && t in db.inbounds && u in db.inbounds[t].clients ==>
                  t in db'.inbounds && u in db'.inbounds[t].clients
                  && db'.inbounds[t].clients[u].enabled == db.inbounds[t].clients[u].enabled)
            && (forall n :: n in db.users ==> n in db'.users && db'.users[n] == db.users[n])
            && (forall n :: n in db'.users && n !in db.users ==> db'.users[n] == User(n, true))
  {
    hide ProcessAll, Tags, ClientsAfter, WellFormed;
    var db' := ProcessAll(db, files, order);
    OutcomeOfAnyOrder(db, files, order, "");
    forall t
      ensures Outcome(db, files, t, RowOf(db', t))
    {
      OutcomeOfAnyOrder(db, files, order, t);
    }
    forall g, t | g in files
      ensures t in db'.inbounds && db'.inbounds[t].file == g <==> t in Tags(files[g])
    {
      assert Outcome(db, files, t, RowOf(db', t));
      if t in Tags(files[g]) {
        assert RowOf(db', t) == Some(Synced(g, InboundOf(files[g], t), RowOf(db, t)));
      } else if h :| h in files && t in Tags(files[h]) {
        assert RowOf(db', t) == Some(Synced(h, InboundOf(files[h], t), RowOf(db, t)));
      }
    }
    forall t, u | Listed(files, t) && t in db.inbounds && u in db.inbounds[t].clients
      ensures t in db'.inbounds && u in db'.inbounds[t].clients
      ensures db'.inbounds[t].clients[u].enabled == db.inbounds[t].clients[u].enabled
    {
      assert Outcome(db, files, t, RowOf(db', t));
      var g :| g in files && t in Tags(files[g]);
      EnrolmentsKept(db.inbounds[t].clients, InboundOf(files[g], t).clients, u);
    }
    forall t | !Listed(files, t) && t in db.inbounds && db.inbounds[t].file !in files
      ensures t in db'.inbounds && db'.inbounds[t] == db.inbounds[t]
    {
      assert Outcome(db, files, t, RowOf(db', t));
    }
  }
}
