/** From the configuration files to the database: each parsed file replaces the inbounds it owns and enrols the
    clients it lists. The files come in no particular order. */
module Sync {
  import opened ConfigFile
  import opened Credentials
  import opened Options
  import opened Text

  // ----- tables -----

  datatype User = User(email: string, enabled: bool)

  datatype Enrolment = Enrolment(stored: Stored, enabled: bool)

  /** One row of the inbounds table, keyed by its unique tag. clients holds the enrolments of the inbound, keyed
      by user; they disappear with the row, as the cascading foreign key makes them. */
  datatype Row = Row(protocol: string, port: int, file: string, raw: Inbound, clients: map<string, Enrolment>)

  datatype Tables = Tables(inbounds: map<string, Row>, users: map<string, User>)

  function RowOf(db: Tables, tag: string): Option<Row> {
    if tag in db.inbounds then Some(db.inbounds[tag]) else None
  }

  // ----- parsed files -----

  datatype ParsedInbound = ParsedInbound(tag: string, protocol: string, port: int, raw: Inbound, clients: seq<Parsed>)

  function ParseInbound(ib: Inbound, enc: map<string, string>): ParsedInbound
    requires ib.Inbound? && ib.port.Some?
  {
    ParsedInbound(ib.tag, Lower(ib.protocol), ib.port.value, ib, Extract(ib, enc))
  }

  /** Elements that are not objects and inbounds without a readable port are skipped. */
  function Parse(ibs: seq<Inbound>, enc: map<string, string>): seq<ParsedInbound> {
    if ibs == [] then []
    else if ibs[0].Inbound? && ibs[0].port.Some? then [ParseInbound(ibs[0], enc)] + Parse(ibs[1..], enc)
    else Parse(ibs[1..], enc)
  }

  method ParseConfigFile(f: File, enc: map<string, string>) returns (result: seq<ParsedInbound>)
    ensures result == Parse(f.inbounds, enc)
  {
    hide Extract, Lower;
    result := [];
    for i := 0 to |f.inbounds|
      invariant result + Parse(f.inbounds[i..], enc) == Parse(f.inbounds, enc)
    {
      var ib := f.inbounds[i];
      assert f.inbounds[i..][1..] == f.inbounds[i + 1..];
      if ib.Inbound? && ib.port.Some? {
        var clients := ExtractClients(ib, enc);
        result := result + [ParsedInbound(ib.tag, Lower(ib.protocol), ib.port.value, ib, clients)];
      }
    }
  }

  function Tags(ibs: seq<ParsedInbound>): set<string> {
    set i | 0 <= i < |ibs| :: ibs[i].tag
  }

  // ----- user names -----

  /** The replacements, scanning from the left; a pair of hyphens goes as a pair. */
  function Scrub(s: string): (r: string)
    ensures |r| <= |s|
  {
    if s == [] then []
    else if s[0] == ' ' || s[0] == '\t' then "_" + Scrub(s[1..])
    else if s[0] in "\n\r'\";" then Scrub(s[1..])
    else if |s| > 1 && s[0] == '-' && s[1] == '-' then Scrub(s[2..])
    else [s[0]] + Scrub(s[1..])
  }

  function Sanitize(s: string): string {
    var r := Scrub(Trim(s));
    if |r| > 64 then r[..64] else r
  }

  // ----- one client -----

  function Enrol(clients: map<string, Enrolment>, user: string, s: Stored): map<string, Enrolment> {
    clients[user := Enrolment(s, if user in clients then clients[user].enabled else true)]
  }

  function Enrolled(db: Tables, tag: string, user: string, s: Stored): Tables
    requires tag in db.inbounds
  {
    db.(inbounds := db.inbounds[tag := db.inbounds[tag].(clients := Enrol(db.inbounds[tag].clients, user, s))])
  }

  /** Creating the user trims the name once more, and fails when the trimmed name is taken. */
  function SyncClient(db: Tables, tag: string, c: Parsed): (r: Tables)
    requires tag in db.inbounds
    ensures r.inbounds.Keys == db.inbounds.Keys
  {
    var name := Sanitize(c.identity);
    if name == "" then db
    else if name in db.users then Enrolled(db, tag, name, c.stored)
    else if Trim(name) in db.users then db
    else Enrolled(db.(users := db.users[Trim(name) := User(Trim(name), true)]), tag, Trim(name), c.stored)
  }

  function SyncClients(db: Tables, tag: string, cs: seq<Parsed>): (r: Tables)
    requires tag in db.inbounds
    ensures r.inbounds.Keys == db.inbounds.Keys
    decreases |cs|
  {
    if cs == [] then db else SyncClients(SyncClient(db, tag, cs[0]), tag, cs[1..])
  }

  // ----- one file -----

  function Upserted(file: string, ib: ParsedInbound, was: Option<Row>): Row {
    Row(ib.protocol, ib.port, file, ib.raw, if was.Some? then was.value.clients else map[])
  }

  function SyncInbound(db: Tables, file: string, ib: ParsedInbound): Tables {
    SyncClients(db.(inbounds := db.inbounds[ib.tag := Upserted(file, ib, RowOf(db, ib.tag))]), ib.tag, ib.clients)
  }

  function SyncInbounds(db: Tables, file: string, ibs: seq<ParsedInbound>): Tables
    decreases |ibs|
  {
    if ibs == [] then db else SyncInbounds(SyncInbound(db, file, ibs[0]), file, ibs[1..])
  }

  function Stale(db: Tables, file: string, present: set<string>): set<string> {
    set t | t in db.inbounds && db.inbounds[t].file == file && t !in present
  }

  function ProcessFile(db: Tables, file: string, ibs: seq<ParsedInbound>): Tables {
    SyncInbounds(db.(inbounds := db.inbounds - Stale(db, file, Tags(ibs))), file, ibs)
  }

  function ProcessAll(db: Tables, files: map<string, seq<ParsedInbound>>, order: seq<string>): Tables
    requires forall f :: f in order ==> f in files
    decreases |order|
  {
    if order == [] then db else ProcessAll(ProcessFile(db, order[0], files[order[0]]), files, order[1..])
  }

  class Database {
    var inbounds: map<string, Row>
    var users: map<string, User>

    function View(): Tables
      reads this
    {
      Tables(inbounds, users)
    }

    method UpsertInbound(file: string, ib: ParsedInbound)
      modifies this`inbounds
      ensures inbounds == old(inbounds)[ib.tag := Upserted(file, ib, RowOf(old(View()), ib.tag))]
    {
      if ib.tag in inbounds {
        inbounds := inbounds[ib.tag := inbounds[ib.tag].(protocol := ib.protocol, port := ib.port, file := file, raw := ib.raw)];
      } else {
        inbounds := inbounds[ib.tag := Row(ib.protocol, ib.port, file, ib.raw, map[])];
      }
    }

    method UpsertUserClient(tag: string, user: string, s: Stored)
      requires tag in inbounds
      modifies this`inbounds
      ensures View() == Enrolled(old(View()), tag, user, s)
    {
      var clients := inbounds[tag].clients;
      if user in clients {
        clients := clients[user := clients[user].(stored := s)];
      } else {
        clients := clients[user := Enrolment(s, true)];
      }
      inbounds := inbounds[tag := inbounds[tag].(clients := clients)];
    }

    method SyncOneClient(tag: string, c: Parsed)
      requires tag in inbounds
      modifies this
      ensures View() == SyncClient(old(View()), tag, c)
    {
      var name := Sanitize(c.identity);
      if name == "" {
        return;
      }
      if name !in users {
        name := Trim(name);
        if name in users {
          return;
        }
        users := users[name := User(name, true)];
      }
      UpsertUserClient(tag, name, c.stored);
    }

    method RemoveStale(file: string, presentTags: set<string>)
      modifies this`inbounds
      ensures inbounds == old(inbounds) - Stale(old(View()), file, presentTags)
    {
      var removed := set t | t in inbounds && inbounds[t].file == file && t !in presentTags;
      var left := removed;
      while left != {}
        invariant left <= removed
        invariant inbounds == old(inbounds) - (removed - left)
        decreases |left|
      {
        var t :| t in left;
        left := left - {t};
        inbounds := inbounds - {t};
      }
    }

    method SyncFile(file: string, ibs: seq<ParsedInbound>)
      modifies this
      ensures View() == ProcessFile(old(View()), file, ibs)
    {
      hide SyncClient;
      var presentTags: set<string> := {};
      for i := 0 to |ibs|
        invariant presentTags == Tags(ibs[..i]) && View() == old(View())
      {
        assert Tags(ibs[..i + 1]) == Tags(ibs[..i]) + {ibs[i].tag} by {
          assert forall k :: 0 <= k < i ==> ibs[..i][k] == ibs[..i + 1][k];
          assert ibs[..i + 1][i] == ibs[i];
        }
        presentTags := presentTags + {ibs[i].tag};
      }
      assert ibs[..|ibs|] == ibs;
      RemoveStale(file, presentTags);
      for i := 0 to |ibs|
        invariant SyncInbounds(View(), file, ibs[i..]) == ProcessFile(old(View()), file, ibs)
      {
        var ib := ibs[i];
        assert ibs[i..][1..] == ibs[i + 1..];
        ghost var after := SyncInbound(View(), file, ib);
        UpsertInbound(file, ib);
        for k := 0 to |ib.clients|
          invariant ib.tag in inbounds
          invariant SyncClients(View(), ib.tag, ib.clients[k..]) == after
        {
          assert ib.clients[k..][1..] == ib.clients[k + 1..];
          SyncOneClient(ib.tag, ib.clients[k]);
        }
      }
    }

    method SyncFiles(files: map<string, seq<ParsedInbound>>, order: seq<string>)
      requires forall f :: f in order ==> f in files
      modifies this
      ensures View() == ProcessAll(old(View()), files, order)
    {
      for i := 0 to |order|
        invariant ProcessAll(View(), files, order[i..]) == ProcessAll(old(View()), files, order)
      {
        assert order[i..][1..] == order[i + 1..];
        SyncFile(order[i], files[order[i]]);
      }
    }
  }
}
