/** How the files evolve when users are written back, and what directories parse to. */
module TwoWayResults {
  import opened ConfigFile
  import opened Credentials
  import opened Options
  import opened Restore
  import opened RestoreResults
  import opened Text
  import opened TwoWay
  import S = Sync
  import R = SyncResults

  // ----- how files evolve -----

  /** c is the written form of an enrolment of the inbound. */
  predicate Written(db: S.Tables, t: string, c: Item) {
    && c.Item? && c.email != ""
    && t in db.inbounds && c.email in db.inbounds[t].clients
    && ToItem(db.inbounds[t].clients[c.email].stored, c.email) == Some(c)
  }

  /** ib' is ib, or ib with written enrolments appended to its clients. */
  predicate Evolved(db: S.Tables, ib: Inbound, ib': Inbound) {
    ib' == ib ||
    (&& ib.Inbound? && ib.settings.Settings? && ib'.Inbound? && ib'.settings.Settings?
     && ib' == WithClients(ib, ib'.settings.clients)
     && ClientsOf(ib.settings) <= ClientsOf(ib'.settings)
     && forall c :: c in ClientsOf(ib'.settings)[|ClientsOf(ib.settings)|..] ==> Written(db, Trim(ib.tag), c))
  }

  lemma EvolvedTwice(db: S.Tables, a: Inbound, b: Inbound, c: Inbound)
    requires Evolved(db, a, b) && Evolved(db, b, c)
    ensures Evolved(db, a, c)
  {
    hide Written, Trim;
    if a != b && b != c {
      var x, y, z := ClientsOf(a.settings), ClientsOf(b.settings), ClientsOf(c.settings);
      assert z[|x|..] == y[|x|..] + z[|y|..];
    }
  }

  ghost predicate EvolvedList(db: S.Tables, a: seq<Inbound>, b: seq<Inbound>) {
    |b| == |a| && forall i :: 0 <= i < |a| ==> Evolved(db, a[i], b[i])
  }

  ghost predicate EvolvedDir(db: S.Tables, a: seq<Named>, b: seq<Named>) {
    |b| == |a| && forall k :: 0 <= k < |a| ==> b[k].name == a[k].name && EvolvedList(db, a[k].file.inbounds, b[k].file.inbounds)
  }

  lemma EvolvedDirTwice(db: S.Tables, a: seq<Named>, b: seq<Named>, c: seq<Named>)
    requires EvolvedDir(db, a, b) && EvolvedDir(db, b, c)
    ensures EvolvedDir(db, a, c)
  {
    hide Evolved;
    forall k, i | 0 <= k < |a| && 0 <= i < |a[k].file.inbounds|
      ensures Evolved(db, a[k].file.inbounds[i], c[k].file.inbounds[i])
    {
      EvolvedTwice(db, a[k].file.inbounds[i], b[k].file.inbounds[i], c[k].file.inbounds[i]);
    }
  }

  lemma EvolvedDirSelf(db: S.Tables, a: seq<Named>)
    ensures EvolvedDir(db, a, a)
  {
  }

  lemma AddEvolves(db: S.Tables, f: File, tag: string, c: Item)
    requires Written(db, tag, c) && Add(f, tag, c).Ok?
    ensures EvolvedList(db, f.inbounds, Add(f, tag, c).value.inbounds)
  {
    hide Trim, Position, Written;
    var p := Position(f.inbounds, tag);
    var ib := f.inbounds[p];
    assert HasTag(ib, tag);
    var items := ClientsOf(ib.settings);
    assert (items + [c])[|items|..] == [c];
    assert Evolved(db, ib, Appended(ib, c));
  }

  lemma {:induction false} AddInEvolves(db: S.Tables, dir: seq<Named>, tag: string, c: Item)
    requires Written(db, tag, c) && AddIn(dir, tag, c).Ok?
    ensures EvolvedDir(db, dir, AddIn(dir, tag, c).value)
  {
    hide Written, Holds, Add, Evolved;
    var d := AddIn(dir, tag, c).value;
    if Holds(dir[0].file, tag) {
      AddEvolves(db, dir[0].file, tag, c);
      EvolvedDirSelf(db, dir);
    } else {
      AddInEvolves(db, dir[1..], tag, c);
      EvolvedDirSelf(db, dir);
      var rest := AddIn(dir[1..], tag, c).value;
      forall k | 0 <= k < |dir|
        ensures d[k].name == dir[k].name && EvolvedList(db, dir[k].file.inbounds, d[k].file.inbounds)
      {
        assert k > 0 ==> d[k] == rest[k - 1] && dir[k] == dir[1..][k - 1];
      }
    }
  }

  /** A listed user as the database lists it: named by the user name, with the enrolment's credential. */
  predicate Genuine(db: S.Tables, t: string, r: Row) {
    && Trim(r.username) == r.username
    && t in db.inbounds && r.username in db.inbounds[t].clients
    && r.stored == db.inbounds[t].clients[r.username].stored
  }

  lemma AnswersAreGenuine(db: S.Tables, t: string, rows: seq<Row>)
    requires CleanTables(db) && Answer(db, t, rows)
    ensures forall r :: r in rows ==> Genuine(db, t, r)
  {
    hide Trim, S.Sanitize;
    forall r | r in rows
      ensures Genuine(db, t, r)
    {
      var u :| Active(db, t, u) && r == RowFor(db, t, u);
    }
  }

  lemma {:induction false} SyncUsersEvolves(db: S.Tables, dir: seq<Named>, t: string, rows: seq<Row>, identities: set<string>)
    requires forall r :: r in rows ==> Genuine(db, t, r)
    ensures EvolvedDir(db, dir, SyncUsers(dir, t, rows, identities).dir)
    decreases |rows|
  {
    hide Trim, AddExisting, AddIn, EvolvedDir, Flat, AppendedAt, Accepts, Writable, ToItem;
    EvolvedDirSelf(db, dir);
    if rows != [] {
      var r, rest := rows[0], rows[1..];
      assert rows == [r] + rest;
      assert r in rows;
      AddExistingFlat(dir, t, r.username, r.stored);
      if r.username !in identities && AddExisting(dir, t, r.username, r.stored).Ok? {
        var c := ToItem(r.stored, r.username).value;
        assert Written(db, t, c);
        AddInEvolves(db, dir, t, c);
        var d := AddExisting(dir, t, r.username, r.stored).value;
        SyncUsersEvolves(db, d, t, rest, identities + {r.username});
        EvolvedDirTwice(db, dir, d, SyncUsers(d, t, rest, identities + {r.username}).dir);
      } else {
        SyncUsersEvolves(db, dir, t, rest, identities);
      }
    }
  }

  lemma OneTagEvolves(db: S.Tables, dir: seq<Named>, t: string, rows: seq<Row>)
    requires forall r :: r in rows ==> Genuine(db, t, r)
    ensures EvolvedDir(db, dir, OneTag(dir, t, rows).dir)
  {
    hide Genuine, EvolvedDir, SyncUsers, Skipped, Flat, ExistingIdentities, OneTag;
    EvolvedDirSelf(db, dir);
    OneTagCases(dir, t, rows);
    if !Skipped(dir, t, rows) {
      SyncUsersEvolves(db, dir, t, rows, ExistingIdentities(Flat(dir), t).value);
    }
  }

  lemma {:induction false} SyncBackEvolves(db: S.Tables, dir: seq<Named>, tags: seq<string>, listing: map<string, seq<Row>>)
    requires forall t :: t in tags ==> t in listing && forall r :: r in listing[t] ==> Genuine(db, t, r)
    ensures EvolvedDir(db, dir, SyncBack(dir, tags, listing).dir)
    decreases |tags|
  {
    hide Genuine, EvolvedDir, OneTag;
    EvolvedDirSelf(db, dir);
    if tags != [] {
      var t, rest := tags[0], tags[1..];
      assert t in tags && tags == [t] + rest;
      var d := OneTag(dir, t, listing[t]).dir;
      OneTagEvolves(db, dir, t, listing[t]);
      SyncBackEvolves(db, d, rest, listing);
      EvolvedDirTwice(db, dir, d, SyncBack(d, rest, listing).dir);
    }
  }

  // ----- what evolved files say -----

  /** The clients an evolved inbound shows: those it showed, then the written ones; or only written ones, or none. */
  lemma EvolvedExtract(db: S.Tables, ib: Inbound, ib': Inbound, enc: map<string, string>)
    returns (more: seq<Item>)
    requires Evolved(db, ib, ib') && ib.Inbound?
    ensures ib'.Inbound? && ib'.tag == ib.tag && ib'.port == ib.port && ib'.protocol == ib.protocol
    ensures more != [] ==> ib.settings.Settings? && HasClients(Lower(ib.protocol))
    ensures forall c :: c in more ==> Written(db, Trim(ib.tag), c)
    ensures forall c :: c in more ==> c.Item?
    ensures var enc' := ClientEncryptionOf(ib, enc);
            var added := ReadItems(ib, enc', more);
            Extract(ib', enc) == Extract(ib, enc) + added || Extract(ib', enc) == added
  {
    hide Trim, Lower;
    if ib' == ib {
      more := [];
      assert Extract(ib, enc) + [] == Extract(ib, enc);
    } else {
      hide Written, Read;
      SocksHasNoClients();
      var x, z := ClientsOf(ib.settings), ClientsOf(ib'.settings);
      assert z == x + z[|x|..];
      if HasClients(Lower(ib.protocol)) && !HasAlien(z) {
        assert forall i :: 0 <= i < |x| ==> x[i] == z[i];
        assert forall i :: 0 <= i < |z| - |x| ==> z[|x|..][i] == z[i + |x|];
        more := z[|x|..];
        WrittenItems(db, Trim(ib.tag), more);
        ExtractEvolved(ib, ib', enc, more);
      } else {
        more := [];
        if HasClients(Lower(ib.protocol)) || Lower(ib.protocol) != "socks" {
          assert Extract(ib', enc) == [];
        } else {
          assert Extract(ib', enc) == Extract(ib, enc) + [];
        }
      }
    }
  }

  lemma WrittenItems(db: S.Tables, t: string, items: seq<Item>)
    requires forall c :: c in items ==> Written(db, t, c)
    ensures forall c :: c in items ==> c.Item?
  {
  }

  function ClientEncryptionOf(ib: Inbound, enc: map<string, string>): string
    requires ib.Inbound?
  {
    if ib.settings.Settings? then ClientEncryption(ib.settings, ib.tag, enc) else ""
  }

  function ReadItems(ib: Inbound, encryption: string, items: seq<Item>): (ps: seq<Parsed>)
    requires ib.Inbound? && (items != [] ==> ib.settings.Settings?) && forall c :: c in items ==> c.Item?
    ensures |ps| == |items|
    ensures forall i :: 0 <= i < |items| ==> ps[i] == Read(Lower(ib.protocol), ib.settings, encryption, items[i])
  {
    seq(|items|, i requires 0 <= i < |items| => Read(Lower(ib.protocol), ib.settings, encryption, items[i]))
  }

  lemma ExtractEvolved(ib: Inbound, ib': Inbound, enc: map<string, string>, more: seq<Item>)
    requires ib.Inbound? && ib.settings.Settings? && ib'.Inbound? && ib'.settings.Settings?
    requires ib' == WithClients(ib, ib'.settings.clients) && ClientsOf(ib'.settings) == ClientsOf(ib.settings) + more
    requires HasClients(Lower(ib.protocol)) && !HasAlien(ClientsOf(ib'.settings)) && !HasAlien(ClientsOf(ib.settings))
    requires forall c :: c in more ==> c.Item?
    ensures var added := ReadItems(ib, ClientEncryptionOf(ib, enc), more);
            Extract(ib', enc) == Extract(ib, enc) + added || Extract(ib', enc) == added
  {
    hide Trim, Lower, Read;
    SocksHasNoClients();
    var x, e := ClientsOf(ib.settings), ClientEncryptionOf(ib, enc);
    ReadOtherSettings(ib, ib', x + more);
    if x == [] {
      assert x + more == more;
      AllRead(ib, ib', e, [], more);
      assert [] + more == more;
    } else {
      AllRead(ib, ib', e, x, more);
    }
  }

  lemma AllRead(ib: Inbound, ib': Inbound, e: string, x: seq<Item>, more: seq<Item>)
    requires ib.Inbound? && ib.settings.Settings? && ib'.Inbound? && ib'.settings.Settings?
    requires !HasAlien(x + more) && !HasAlien(x) && forall c :: c in more ==> c.Item?
    requires forall i :: 0 <= i < |x + more| ==>
               Read(Lower(ib.protocol), ib'.settings, e, (x + more)[i]) == Read(Lower(ib.protocol), ib.settings, e, (x + more)[i])
    ensures ReadAll(Lower(ib.protocol), ib'.settings, e, x + more)
         == ReadAll(Lower(ib.protocol), ib.settings, e, x) + ReadItems(ib, e, more)
  {
    hide Lower, Read;
    var all := ReadAll(Lower(ib.protocol), ib'.settings, e, x + more);
    forall i | 0 <= i < |all|
      ensures all[i] == (ReadAll(Lower(ib.protocol), ib.settings, e, x) + ReadItems(ib, e, more))[i]
    {
      assert (x + more)[i] == if i < |x| then x[i] else more[i - |x|];
    }
  }

  lemma ReadOtherSettings(ib: Inbound, ib': Inbound, items: seq<Item>)
    requires ib.Inbound? && ib.settings.Settings? && ib'.Inbound? && ib'.settings.Settings?
    requires ib' == WithClients(ib, ib'.settings.clients) && !HasAlien(items)
    ensures forall protocol, e, i :: 0 <= i < |items| ==>
              Read(protocol, ib'.settings, e, items[i]) == Read(protocol, ib.settings, e, items[i])
  {
  }

  /** Identities shown by an evolved inbound: the old ones and names of enrolled users. */
  lemma EvolvedIdentities(db: S.Tables, ib: Inbound, ib': Inbound, enc: map<string, string>)
    requires Evolved(db, ib, ib') && ib.Inbound?
    ensures ib'.Inbound?
    ensures forall id :: id in IdentitySet(Extract(ib', enc)) ==>
              id in IdentitySet(Extract(ib, enc)) || (Trim(ib.tag) in db.inbounds && id in db.inbounds[Trim(ib.tag)].clients)
  {
    hide Evolved, Extract, Read, Lower, Trim;
    var more := EvolvedExtract(db, ib, ib', enc);
    var added := ReadItems(ib, ClientEncryptionOf(ib, enc), more);
    forall p | p in added
      ensures Trim(ib.tag) in db.inbounds && p.identity in db.inbounds[Trim(ib.tag)].clients
    {
      var i :| 0 <= i < |added| && added[i] == p;
      assert Written(db, Trim(ib.tag), more[i]);
      ReadIdentity(Lower(ib.protocol), ib.settings, ClientEncryptionOf(ib, enc), more[i]);
    }
    forall id | id in IdentitySet(Extract(ib', enc))
      ensures id in IdentitySet(Extract(ib, enc)) || (Trim(ib.tag) in db.inbounds && id in db.inbounds[Trim(ib.tag)].clients)
    {
      var p :| p in Extract(ib', enc) && p.identity == id;
      assert p in Extract(ib, enc) || p in added;
    }
  }

  lemma {:induction false} EvolvedFlat(db: S.Tables, a: seq<Named>, b: seq<Named>)
    requires EvolvedDir(db, a, b)
    ensures EvolvedList(db, Flat(a), Flat(b))
  {
    hide Evolved;
    if a != [] {
      assert forall k :: 0 <= k < |a| - 1 ==> a[1..][k] == a[k + 1] && b[1..][k] == b[k + 1];
      EvolvedFlat(db, a[1..], b[1..]);
      assert EvolvedList(db, a[0].file.inbounds, b[0].file.inbounds);
    }
  }

  lemma EvolvedTags(db: S.Tables, ib: Inbound, ib': Inbound)
    requires Evolved(db, ib, ib')
    ensures ib'.Inbound? == ib.Inbound?
    ensures ib.Inbound? ==> ib'.tag == ib.tag && ib'.port == ib.port && ib'.protocol == ib.protocol
  {
  }

  lemma CleanInboundEvolved(db: S.Tables, ib: Inbound, ib': Inbound)
    requires CleanTables(db) && CleanNames(db) && CleanInbound(ib) && Evolved(db, ib, ib')
    ensures CleanInbound(ib')
  {
    hide Evolved, Extract, Clean, Trim;
    EvolvedTags(db, ib, ib');
    if ib.Inbound? {
      EvolvedIdentities(db, ib, ib', map[]);
    }
  }

  lemma CleanDirEvolved(db: S.Tables, dir: seq<Named>, dir': seq<Named>)
    requires CleanTables(db) && CleanNames(db) && CleanDir(dir) && EvolvedDir(db, dir, dir')
    ensures CleanDir(dir')
  {
    hide Evolved, CleanInbound, Flat, CleanTables, CleanNames, Trim;
    EvolvedFlat(db, dir, dir');
    var a, b := Flat(dir), Flat(dir');
    forall i | 0 <= i < |a|
      ensures b[i].Inbound? == a[i].Inbound? && (a[i].Inbound? ==> b[i].tag == a[i].tag)
      ensures CleanInbound(b[i])
    {
      assert a[i] in a;
      EvolvedTags(db, a[i], b[i]);
      CleanInboundEvolved(db, a[i], b[i]);
    }
  }

  lemma OrderlyInboundEvolved(db: S.Tables, ib: Inbound, ib': Inbound)
    requires OrderlyInbound(ib) && Evolved(db, ib, ib')
    ensures OrderlyInbound(ib')
  {
    hide Evolved, Extract, Clean, Trim, Lower;
    EvolvedTags(db, ib, ib');
    if ib.Inbound? {
      var more := EvolvedExtract(db, ib, ib', map[]);
    }
  }

  lemma OrderlyEvolved(db: S.Tables, dir: seq<Named>, dir': seq<Named>)
    requires Orderly(dir) && EvolvedDir(db, dir, dir')
    ensures Orderly(dir')
  {
    hide Evolved, OrderlyInbound, Flat, Trim;
    EvolvedFlat(db, dir, dir');
    var a, b := Flat(dir), Flat(dir');
    forall i | 0 <= i < |a|
      ensures b[i].Inbound? == a[i].Inbound? && (a[i].Inbound? ==> b[i].tag == a[i].tag)
      ensures OrderlyInbound(b[i])
    {
      assert a[i] in a;
      EvolvedTags(db, a[i], b[i]);
      OrderlyInboundEvolved(db, a[i], b[i]);
    }
  }

  // ----- parsed files -----

  /** y is what x became: the same tag and protocol, read from an evolved inbound. */
  ghost predicate ParsedEvolved(db: S.Tables, enc: map<string, string>, x: S.ParsedInbound, y: S.ParsedInbound) {
    && x.raw.Inbound? && x.raw.port.Some? && x == S.ParseInbound(x.raw, enc)
    && y.raw.Inbound? && y.raw.port.Some? && y == S.ParseInbound(y.raw, enc)
    && Evolved(db, x.raw, y.raw) && y.tag == x.tag && y.protocol == x.protocol
  }

  ghost predicate ParsedEvolvedList(db: S.Tables, enc: map<string, string>, xs: seq<S.ParsedInbound>, ys: seq<S.ParsedInbound>) {
    |ys| == |xs| && forall i :: 0 <= i < |xs| ==> ParsedEvolved(db, enc, xs[i], ys[i])
  }

  lemma {:induction false} ParseEvolved(db: S.Tables, enc: map<string, string>, a: seq<Inbound>, b: seq<Inbound>)
    requires EvolvedList(db, a, b)
    ensures ParsedEvolvedList(db, enc, S.Parse(a, enc), S.Parse(b, enc))
  {
    hide Evolved, Extract, Lower;
    if a != [] {
      assert forall i :: 0 <= i < |a| - 1 ==> a[1..][i] == a[i + 1] && b[1..][i] == b[i + 1];
      ParseEvolved(db, enc, a[1..], b[1..]);
      EvolvedTags(db, a[0], b[0]);
    }
  }

  lemma {:induction false} ParseDirAt(dir: seq<Named>, enc: map<string, string>)
    requires forall i, j :: 0 <= i < j < |dir| ==> dir[i].name != dir[j].name
    ensures forall g :: g in ParseDir(dir, enc) <==> exists k :: 0 <= k < |dir| && dir[k].name == g
    ensures forall k :: 0 <= k < |dir| ==>
              dir[k].name in ParseDir(dir, enc) && ParseDir(dir, enc)[dir[k].name] == S.Parse(dir[k].file.inbounds, enc)
  {
    hide S.Parse;
    if dir != [] {
      var rest := dir[1..];
      assert forall k :: 0 <= k < |rest| ==> rest[k] == dir[k + 1];
      ParseDirAt(rest, enc);
      forall g
        ensures g in ParseDir(dir, enc) <==> exists k :: 0 <= k < |dir| && dir[k].name == g
      {
        assert g in ParseDir(dir, enc) <==> g == dir[0].name || g in ParseDir(rest, enc);
        if k :| 0 <= k < |dir| && dir[k].name == g {
          assert k > 0 ==> rest[k - 1].name == g;
        }
        if k :| 0 <= k < |rest| && rest[k].name == g {
          assert dir[k + 1].name == g;
        }
      }
      forall k | 0 <= k < |dir|
        ensures dir[k].name in ParseDir(dir, enc) && ParseDir(dir, enc)[dir[k].name] == S.Parse(dir[k].file.inbounds, enc)
      {
        assert k > 0 ==> rest[k - 1] == dir[k] && dir[0].name != dir[k].name;
      }
    }
  }

  ghost predicate FilesEvolved(db: S.Tables, enc: map<string, string>, files: R.Files, files': R.Files) {
    && files'.Keys == files.Keys
    && forall g :: g in files ==> ParsedEvolvedList(db, enc, files[g], files'[g])
  }

  lemma ParseDirEvolved(db: S.Tables, enc: map<string, string>, dir: seq<Named>, dir': seq<Named>)
    requires Orderly(dir) && EvolvedDir(db, dir, dir')
    ensures FilesEvolved(db, enc, ParseDir(dir, enc), ParseDir(dir', enc))
  {
    hide ParsedEvolvedList, EvolvedList, OrderlyInbound, Unique, S.Parse, ParseDir, Flat;
    ParseDirAt(dir, enc);
    assert forall i :: 0 <= i < |dir| ==> dir'[i].name == dir[i].name;
    ParseDirAt(dir', enc);
    var P, P' := ParseDir(dir, enc), ParseDir(dir', enc);
    forall g
      ensures g in P <==> g in P'
      ensures g in P && g in P' ==> ParsedEvolvedList(db, enc, P[g], P'[g])
    {
      if k :| 0 <= k < |dir| && dir[k].name == g {
        assert dir'[k].name == g;
        ParseEvolved(db, enc, dir[k].file.inbounds, dir'[k].file.inbounds);
      }
    }
  }

  // ----- what directories parse to -----

  lemma {:induction false} InFlat(dir: seq<Named>, k: nat, ib: Inbound)
    requires k < |dir| && ib in dir[k].file.inbounds
    ensures ib in Flat(dir)
  {
    if k > 0 {
      InFlat(dir[1..], k - 1, ib);
    }
  }

  lemma {:induction false} ParseMembers(ibs: seq<Inbound>, enc: map<string, string>)
    ensures forall pi :: pi in S.Parse(ibs, enc) ==>
              pi.raw in ibs && pi.raw.Inbound? && pi.raw.port.Some? && pi == S.ParseInbound(pi.raw, enc)
    ensures forall ib :: ib in ibs && ib.Inbound? && ib.port.Some? ==> S.ParseInbound(ib, enc) in S.Parse(ibs, enc)
  {
    hide Extract, Lower;
    if ibs != [] {
      ParseMembers(ibs[1..], enc);
      assert ibs == [ibs[0]] + ibs[1..];
    }
  }

  lemma {:induction false} ParseDistinct(ibs: seq<Inbound>, enc: map<string, string>)
    requires Unique(ibs)
    ensures R.DistinctTags(S.Parse(ibs, enc))
  {
    hide Extract, Lower, Trim;
    if ibs != [] {
      var rest := ibs[1..];
      assert forall i :: 0 <= i < |rest| ==> rest[i] == ibs[i + 1];
      ParseDistinct(rest, enc);
      ParseMembers(rest, enc);
      var ps := S.Parse(rest, enc);
      if ibs[0].Inbound? && ibs[0].port.Some? {
        forall i | 0 <= i < |ps|
          ensures ps[i].tag != ibs[0].tag
        {
          assert ps[i] in ps;
          var j :| 0 <= j < |rest| && rest[j] == ps[i].raw;
          assert ibs[j + 1] == ps[i].raw;
        }
      }
    }
  }

  lemma UniqueParts(a: seq<Inbound>, b: seq<Inbound>)
    requires Unique(a + b)
    ensures Unique(a) && Unique(b)
    ensures forall x, y :: x in a && y in b && x.Inbound? && y.Inbound? ==> Trim(x.tag) != Trim(y.tag)
  {
    hide Trim;
    assert forall i :: 0 <= i < |a| ==> (a + b)[i] == a[i];
    assert forall j :: 0 <= j < |b| ==> (a + b)[|a| + j] == b[j];
  }

  lemma {:induction false} UniqueAcross(dir: seq<Named>, k: nat, m: nat, x: Inbound, y: Inbound)
    requires Unique(Flat(dir)) && k < m < |dir|
    requires x in dir[k].file.inbounds && y in dir[m].file.inbounds && x.Inbound? && y.Inbound?
    ensures Trim(x.tag) != Trim(y.tag)
  {
    hide Trim, Unique;
    UniqueParts(dir[0].file.inbounds, Flat(dir[1..]));
    if k == 0 {
      InFlat(dir[1..], m - 1, y);
    } else {
      UniqueAcross(dir[1..], k - 1, m - 1, x, y);
    }
  }

  lemma {:induction false} UniqueWithin(dir: seq<Named>, k: nat)
    requires Unique(Flat(dir)) && k < |dir|
    ensures Unique(dir[k].file.inbounds)
  {
    hide Trim, Unique;
    UniqueParts(dir[0].file.inbounds, Flat(dir[1..]));
    if k > 0 {
      UniqueWithin(dir[1..], k - 1);
    }
  }

  /** Every parsed inbound comes from a readable one of the directory. */
  ghost predicate Sourced(files: R.Files, dir: seq<Named>, enc: map<string, string>) {
    forall g, pi :: g in files && pi in files[g] ==>
      && pi.raw in Flat(dir) && pi.raw.Inbound? && pi.raw.port.Some? && pi == S.ParseInbound(pi.raw, enc)
      && Trim(pi.tag) == pi.tag
  }

  lemma OrderlyParses(dir: seq<Named>, enc: map<string, string>)
    requires Orderly(dir)
    ensures R.Structured(ParseDir(dir, enc)) && Sourced(ParseDir(dir, enc), dir, enc)
  {
    hide ParseDir, S.Parse, Extract, Lower, Trim, Clean, Unique, Flat, R.DistinctTags;
    var files := ParseDir(dir, enc);
    ParseDirAt(dir, enc);
    forall k | 0 <= k < |dir|
      ensures R.DistinctTags(files[dir[k].name])
      ensures forall pi: S.ParsedInbound :: pi in files[dir[k].name] ==>
                && pi.raw in dir[k].file.inbounds && pi.raw in Flat(dir) && Trim(pi.tag) == pi.tag
                && pi.raw.Inbound? && pi.raw.port.Some? && pi == S.ParseInbound(pi.raw, enc)
    {
      UniqueWithin(dir, k);
      ParseDistinct(dir[k].file.inbounds, enc);
      ParseMembers(dir[k].file.inbounds, enc);
      forall pi: S.ParsedInbound | pi in files[dir[k].name]
        ensures pi.raw in dir[k].file.inbounds && pi.raw in Flat(dir) && pi.raw.Inbound? && Trim(pi.tag) == pi.tag
      {
        InFlat(dir, k, pi.raw);
        assert OrderlyInbound(pi.raw);
      }
    }
    forall f | f in files
      ensures R.DistinctTags(files[f])
    {
      var k :| 0 <= k < |dir| && dir[k].name == f;
    }
    forall f, g, t | f in files && g in files && t in S.Tags(files[f]) && t in S.Tags(files[g])
      ensures f == g
    {
      var k :| 0 <= k < |dir| && dir[k].name == f;
      var m :| 0 <= m < |dir| && dir[m].name == g;
      NotShared(dir, k, m, R.InboundOf(files[f], t).raw, R.InboundOf(files[g], t).raw);
    }
  }

  lemma NotShared(dir: seq<Named>, k: nat, m: nat, x: Inbound, y: Inbound)
    requires Unique(Flat(dir)) && k < |dir| && m < |dir|
    requires x in dir[k].file.inbounds && y in dir[m].file.inbounds && x.Inbound? && y.Inbound? && x.tag == y.tag
    ensures k == m
  {
    hide Trim, Unique, Flat;
    if k < m {
      UniqueAcross(dir, k, m, x, y);
    } else if m < k {
      UniqueAcross(dir, m, k, y, x);
    }
  }

  ghost predicate CleanParsed(files: R.Files) {
    forall g, pi :: g in files && pi in files[g] ==>
      Trim(pi.tag) == pi.tag && forall id :: id in IdentitySet(pi.clients) ==> Clean(id)
  }

  /** With clean identities the parsed files are well-formed. */
  lemma CleanDirParses(dir: seq<Named>, enc: map<string, string>)
    requires CleanDir(dir)
    ensures R.WellFormed(ParseDir(dir, enc)) && CleanParsed(ParseDir(dir, enc))
  {
    hide ParseDir, Extract, Lower, Trim, Clean, Unique, Flat, R.Structured, R.AllTidy, IdentitySet;
    CleanIsOrderly(dir);
    OrderlyParses(dir, enc);
    forall g, pi | g in ParseDir(dir, enc) && pi in ParseDir(dir, enc)[g]
      ensures Trim(pi.tag) == pi.tag && forall id :: id in IdentitySet(pi.clients) ==> Clean(id)
      ensures R.AllTidy(pi.clients)
    {
      assert CleanInbound(pi.raw);
      EncryptionLeavesIdentities(pi.raw, enc, map[]);
      CleanUsers(pi.clients);
    }
  }
}
