/** What a sync records of an inbound and of a client, field by field. */
module SyncRows {
  import opened Credentials
  import opened Lists
  import opened Options
  import opened Text
  import S = Sync

  // ----- reading a file -----

  predicate HasPort(ib: Inbound) {
    ib.Inbound? && ib.port.Some?
  }

  /** What is read of an inbound. */
  ghost predicate IsForm(p: S.ParsedInbound, ib: Inbound, enc: map<string, string>) {
    && ib.Inbound? && ib.port.Some?
    && p.tag == ib.tag && p.protocol == Lower(ib.protocol) && p.port == ib.port.value && p.raw == ib
    && p.clients == Extract(ib, enc)
  }

  /** A file is read inbound by inbound, passing over elements that are no objects and ports that cannot be read. */
  lemma {:induction false} ParsedExactly(ibs: seq<Inbound>, enc: map<string, string>)
    ensures var kept, read := Filter(HasPort, ibs), S.Parse(ibs, enc);
            && |read| == |kept|
            && forall i :: 0 <= i < |kept| ==> IsForm(read[i], kept[i], enc)
  {
    hide Lower, Extract;
    if ibs != [] {
      ParsedExactly(ibs[1..], enc);
    }
  }

  // ----- one inbound -----

  lemma {:induction false} ClientsKeepRow(db: S.Tables, tag: string, cs: seq<Parsed>)
    requires tag in db.inbounds
    ensures var row := S.SyncClients(db, tag, cs).inbounds[tag];
            && row.protocol == db.inbounds[tag].protocol && row.port == db.inbounds[tag].port
            && row.file == db.inbounds[tag].file && row.raw == db.inbounds[tag].raw
    decreases |cs|
  {
    hide S.Sanitize, Trim;
    if cs != [] {
      ClientsKeepRow(S.SyncClient(db, tag, cs[0]), tag, cs[1..]);
    }
  }

  /** The row of an inbound just synced has its protocol, port and text, and belongs to the file. */
  lemma RowOfInbound(db: S.Tables, file: string, ib: S.ParsedInbound)
    ensures var after := S.SyncInbound(db, file, ib);
            && ib.tag in after.inbounds
            && var row := after.inbounds[ib.tag];
               row.protocol == ib.protocol && row.port == ib.port && row.file == file && row.raw == ib.raw
  {
    hide S.SyncClient;
    var row := S.Upserted(file, ib, S.RowOf(db, ib.tag));
    ClientsKeepRow(db.(inbounds := db.inbounds[ib.tag := row]), ib.tag, ib.clients);
  }

  // ----- one client -----

  /** Main result: what one client does to the tables. Nothing when its sanitised name is blank, or unknown and its
      trimmed form is known; otherwise the user of the sanitised name, or a new and enabled one of the trimmed form
      whose email is the name, is enrolled with the credential, enabled unless already enrolled as disabled. */
  lemma ClientExactly(db: S.Tables, tag: string, c: Parsed)
    requires tag in db.inbounds
    ensures var name, after := S.Sanitize(c.identity), S.SyncClient(db, tag, c);
            var known := name in db.users;
            var user := if known then name else Trim(name);
            if name == "" || (!known && user in db.users) then after == db
            else
              && after.users == (if known then db.users else db.users[user := S.User(user, true)])
              && after.inbounds.Keys == db.inbounds.Keys
              && (forall t :: t in db.inbounds && t != tag ==> after.inbounds[t] == db.inbounds[t])
              && var was, now := db.inbounds[tag].clients, after.inbounds[tag].clients;
                 && after.inbounds[tag].(clients := was) == db.inbounds[tag]
                 && now.Keys == was.Keys + {user}
                 && (forall u :: u in was && u != user ==> now[u] == was[u])
                 && now[user].stored == c.stored
                 && (now[user].enabled <==> user in was ==> was[user].enabled)
  {
    hide S.Sanitize, Trim;
  }
}
