/** The two-way pass: files into the database, then database users missing from the files back into them. */
module TwoWay {
  import opened ConfigFile
  import opened Credentials
  import opened Options
  import opened Restore
  import opened RestoreResults
  import opened Text
  import E = ErrorRing
  import S = Sync
  import R = SyncResults
  import Resync

  // ----- one pass -----

  function ParseDir(dir: seq<Named>, enc: map<string, string>): R.Files {
    if dir == [] then map[] else ParseDir(dir[1..], enc)[dir[0].name := S.Parse(dir[0].file.inbounds, enc)]
  }

  /** The identity a user has in Xray: the email, or the name when that is blank. */
  function XrayEmail(u: S.User, username: string): string {
    var email := if Trim(u.email) == "" then username else u.email;
    if Trim(email) != "" then Trim(email) else Trim(username)
  }

  predicate Active(db: S.Tables, t: string, u: string) {
    && t in db.inbounds && u in db.inbounds[t].clients && db.inbounds[t].clients[u].enabled
    && u in db.users && db.users[u].enabled
  }

  function RowFor(db: S.Tables, t: string, u: string): Row
    requires Active(db, t, u)
  {
    Row(XrayEmail(db.users[u], u), db.inbounds[t].clients[u].stored)
  }

  /** rows is what the database answers for the users of an inbound. */
  ghost predicate Answer(db: S.Tables, t: string, rows: seq<Row>) {
    && (forall r :: r in rows ==> exists u :: Active(db, t, u) && r == RowFor(db, t, u))
    && forall u :: Active(db, t, u) ==> RowFor(db, t, u) in rows
  }

  /** The inbounds of the database in some order, and the users of each. */
  ghost predicate Answers(db: S.Tables, tags: seq<string>, listing: map<string, seq<Row>>) {
    && (forall t :: t in tags <==> t in db.inbounds)
    && (forall i, j :: 0 <= i < j < |tags| ==> tags[i] != tags[j])
    && forall t :: t in tags ==> t in listing && Answer(db, t, listing[t])
  }

  /** added counts the clients written, drift lists user and inbound of every failed write, firstError says which
      inbound failed first and why; the last two count the listed users and the identities found. */
  datatype Back = Back(
    dir: seq<Named>, added: nat, drift: seq<E.Drift>, firstError: Option<(string, Error)>, dbUsers: nat, configUsers: nat)

  function Drift(users: seq<string>, t: string): seq<E.Drift> {
    seq(|users|, i requires 0 <= i < |users| => E.Drift(users[i], t))
  }

  predicate Skipped(dir: seq<Named>, t: string, rows: seq<Row>) {
    rows == [] || t == "" || ExistingIdentities(Flat(dir), t).None?
  }

  /** The write-back for one inbound. */
  function OneTag(dir: seq<Named>, t: string, rows: seq<Row>): Back {
    if rows == [] then Back(dir, 0, [], None, 0, 0)
    else
      match ExistingIdentities(Flat(dir), t)
      case None => Back(dir, 0, [], Some((t, NoSuchInbound)), |rows|, 0)
      case Some(ids) =>
        if t == "" then Back(dir, 0, [], None, |rows|, |ids|)
        else
          var o := SyncUsers(dir, t, rows, ids);
          Back(o.dir, o.added, Drift(o.failed, t), if o.firstError.Some? then Some((t, o.firstError.value)) else None, |rows|, |ids|)
  }

  function Then(a: Back, b: Back): Back {
    Back(b.dir, a.added + b.added, a.drift + b.drift, if a.firstError.Some? then a.firstError else b.firstError,
         a.dbUsers + b.dbUsers, a.configUsers + b.configUsers)
  }

  function SyncBack(dir: seq<Named>, tags: seq<string>, listing: map<string, seq<Row>>): Back
    requires forall t :: t in tags ==> t in listing
    decreases |tags|
  {
    if tags == [] then Back(dir, 0, [], None, 0, 0)
    else
      var one := OneTag(dir, tags[0], listing[tags[0]]);
      Then(one, SyncBack(one.dir, tags[1..], listing))
  }

  lemma OneTagCases(dir: seq<Named>, t: string, rows: seq<Row>)
    ensures Skipped(dir, t, rows) ==> OneTag(dir, t, rows).dir == dir && OneTag(dir, t, rows).added == 0
    ensures !Skipped(dir, t, rows) ==>
              var ids := ExistingIdentities(Flat(dir), t);
              && ids.Some? && t != ""
              && OneTag(dir, t, rows).dir == SyncUsers(dir, t, rows, ids.value).dir
              && OneTag(dir, t, rows).added == SyncUsers(dir, t, rows, ids.value).added
  {
  }

  /** The message of the health record. */
  function Message(e: Option<(string, Error)>): string {
    if e.None? then "" else "inbound " + e.value.0 + ": " + Reason(e.value.1)
  }

  function Reason(e: Error): string {
    match e
    case NotParsed => "parse config"
    case NoSuchInbound => "inbound not found"
    case InboundWithoutSettings => "inbound has no settings"
    case NoIdentity => "username required"
    case NotWritable => "unsupported protocol"
  }

  /** One pass: the files into the database in some order, then the answers of the database into the files. */
  ghost predicate Pass(db: S.Tables, dir: seq<Named>, enc: map<string, string>, order: seq<string>, tags: seq<string>,
                       listing: map<string, seq<Row>>, db': S.Tables, back: Back) {
    && R.Enumerates(order, ParseDir(dir, enc))
    && db' == S.ProcessAll(db, ParseDir(dir, enc), order)
    && Answers(db', tags, listing)
    && back == SyncBack(dir, tags, listing)
  }

  lemma ParseDirStep(dir: seq<Named>, enc: map<string, string>, i: nat, files: R.Files)
    requires i < |dir| && dir[i].name !in files
    ensures ParseDir(dir[i..], enc) + files
         == ParseDir(dir[i + 1..], enc) + files[dir[i].name := S.Parse(dir[i].file.inbounds, enc)]
  {
    hide S.Parse;
    assert dir[i..][1..] == dir[i + 1..];
  }

  lemma ParseDirNone(dir: seq<Named>, enc: map<string, string>)
    requires dir == []
    ensures ParseDir(dir, enc) == map[]
  {
  }

  class Syncer {
    const dir: ConfigDir
    const database: S.Database
    const status: E.StatusState

    constructor (dir: ConfigDir, database: S.Database, status: E.StatusState)
      ensures this.dir == dir && this.database == database && this.status == status
    {
      this.dir, this.database, this.status := dir, database, status;
    }

    /** All files of the directory, parsed. */
    method ParseConfigDir(enc: map<string, string>) returns (files: R.Files)
      requires forall i, j :: 0 <= i < j < |dir.files| ==> dir.files[i].name != dir.files[j].name
      ensures files == ParseDir(dir.files, enc)
    {
      hide S.Parse, ParseDir;
      files := map[];
      var named := dir.files;
      for i := 0 to |named|
        invariant forall k :: i <= k < |named| ==> named[k].name !in files
        invariant ParseDir(named[i..], enc) + files == ParseDir(named, enc)
      {
        var parsed := S.ParseConfigFile(named[i].file, enc);
        ParseDirStep(named, enc, i, files);
        files := files[named[i].name := parsed];
      }
      ParseDirNone(named[|named|..], enc);
    }

    /** A whole pass, at time now. The order of the files is that of a map iteration; tags and listing are what the
        database answers once the files are in. Without gRPC nothing is written back. When the directory cannot be
        read the pass fails before it does or records anything. */
    method SyncXray(enc: map<string, string>, readable: bool, order: seq<string>, grpc: bool, tags: seq<string>,
                    listing: map<string, seq<Row>>, now: int)
      returns (result: Option<Back>)
      requires forall i, j :: 0 <= i < j < |dir.files| ==> dir.files[i].name != dir.files[j].name
      requires R.Enumerates(order, ParseDir(dir.files, enc))
      requires Answers(S.ProcessAll(database.View(), ParseDir(dir.files, enc), order), tags, listing)
      requires status.Valid()
      modifies dir, database, status, status.errors, status.errors.buf
      ensures result.Some? <==> readable
      ensures !readable ==> dir.files == old(dir.files) && database.View() == old(database.View())
                            && unchanged(status) && unchanged(status.errors) && unchanged(status.errors.buf)
      ensures readable && grpc ==> Pass(old(database.View()), old(dir.files), enc, order, tags, listing, database.View(), result.value)
      ensures readable && !grpc ==> database.View() == S.ProcessAll(old(database.View()), ParseDir(old(dir.files), enc), order)
                                    && result.value == Back(old(dir.files), 0, [], None, 0, 0)
      ensures status.Valid()
      ensures readable ==>
                var back := result.value;
                && dir.files == back.dir
                && status.lastAt == now && status.lastOK == (back.firstError.None? && back.drift == [])
                && status.lastError == Message(back.firstError) && status.drift == back.drift
                && status.dbUsers == back.dbUsers && status.configUsers == back.configUsers
                && status.history == old(status.history) + if status.lastOK then [] else [now]
    {
      hide ParseDir, S.ProcessAll, SyncBack, Answer, Message, E.Agrees;
      if !readable {
        return None;
      }
      var files := ParseConfigDir(enc);
      database.SyncFiles(files, order);
      var back := Back(dir.files, 0, [], None, 0, 0);
      if grpc {
        back := SyncUsersToFiles(tags, listing);
      }
      status.Record(now, back.firstError.None? && back.drift == [], Message(back.firstError), back.dbUsers, back.configUsers,
                    back.drift);
      result := Some(back);
    }

    /** The write-back for one inbound. */
    method SyncOneInbound(t: string, rows: seq<Row>) returns (one: Back)
      modifies dir
      ensures one == OneTag(old(dir.files), t, rows) && dir.files == one.dir
    {
      hide Flat, ExistingIdentities, SyncUsers;
      if rows == [] {
        return Back(dir.files, 0, [], None, 0, 0);
      }
      var identities := dir.GetExistingIdentitiesInInbound(t);
      if identities.None? {
        return Back(dir.files, 0, [], Some((t, NoSuchInbound)), |rows|, 0);
      }
      var n, failed, error, _ := dir.SyncDBToConfig(t, rows, identities.value);
      one := Back(dir.files, n, Drift(failed, t), if error.Some? then Some((t, error.value)) else None, |rows|, |identities.value|);
    }

    /** The second half of a pass, over the answers of the database. */
    method SyncUsersToFiles(tags: seq<string>, listing: map<string, seq<Row>>) returns (back: Back)
      requires forall t :: t in tags ==> t in listing
      modifies dir
      ensures back == SyncBack(old(dir.files), tags, listing) && dir.files == back.dir
    {
      hide OneTag, Then;
      back := Back(dir.files, 0, [], None, 0, 0);
      ThenUnit(SyncBack(dir.files, tags, listing), dir.files);
      for i := 0 to |tags|
        invariant dir.files == back.dir
        invariant SyncBack(old(dir.files), tags, listing) == Then(back, SyncBack(dir.files, tags[i..], listing))
      {
        assert tags[i..][1..] == tags[i + 1..];
        var one := SyncOneInbound(tags[i], listing[tags[i]]);
        ThenThen(back, one, SyncBack(one.dir, tags[i + 1..], listing));
        back := Then(back, one);
      }
      ThenUnit(back, back.dir);
    }
  }

  lemma ThenUnit(b: Back, dir: seq<Named>)
    ensures Then(Back(dir, 0, [], None, 0, 0), b) == b
    ensures Then(b, Back(b.dir, 0, [], None, 0, 0)) == b
  {
  }

  lemma ThenThen(a: Back, b: Back, c: Back)
    ensures Then(a, Then(b, c)) == Then(Then(a, b), c)
    ensures Then(a, b).dir == b.dir
  {
  }

  // ----- clean names -----

  predicate Clean(name: string) {
    name != "" && S.Sanitize(name) == name
  }

  lemma {:induction false} TrimLeftShorter(s: string)
    ensures |TrimLeft(s)| < |s| || TrimLeft(s) == s
  {
    if s != [] && IsSpace(s[0]) {
      TrimLeftShorter(s[1..]);
    }
  }

  lemma CleanIsTrimmed(name: string)
    requires Clean(name)
    ensures Trim(name) == name
  {
    TrimLeftShorter(name);
    assert |name| <= |Trim(name)|;
  }

  /** Every user's email is the name, which is trimmed, as whoever creates users stores them, and enrolments refer
      to users. */
  ghost predicate CleanTables(db: S.Tables) {
    && (forall u :: u in db.users ==> db.users[u].email == u && Trim(u) == u)
    && Resync.Referential(db)
  }

  /** Sanitising leaves the names of all users alone. */
  ghost predicate CleanNames(db: S.Tables) {
    forall u :: u in db.users ==> Clean(u)
  }

  function IdentitySet(ps: seq<Parsed>): set<string> {
    set p | p in ps :: p.identity
  }

  ghost predicate CleanInbound(ib: Inbound) {
    ib.Inbound? ==>
      && Trim(ib.tag) == ib.tag
      && (ib.port.Some? ==> forall id :: id in IdentitySet(Extract(ib, map[])) ==> Clean(id))
  }

  /** File names and inbound tags are distinct, tags are trimmed and the identities of clients clean. */
  ghost predicate CleanDir(dir: seq<Named>) {
    && (forall i, j :: 0 <= i < j < |dir| ==> dir[i].name != dir[j].name)
    && Unique(Flat(dir))
    && forall ib :: ib in Flat(dir) ==> CleanInbound(ib)
  }

  /** The part of that which writing users back keeps, whatever they are called. */
  ghost predicate OrderlyInbound(ib: Inbound) {
    ib.Inbound? ==>
      && Trim(ib.tag) == ib.tag
      && (ib.port.Some? && !HasClients(Lower(ib.protocol)) ==> forall id :: id in IdentitySet(Extract(ib, map[])) ==> Clean(id))
  }

  ghost predicate Orderly(dir: seq<Named>) {
    && (forall i, j :: 0 <= i < j < |dir| ==> dir[i].name != dir[j].name)
    && Unique(Flat(dir))
    && forall ib :: ib in Flat(dir) ==> OrderlyInbound(ib)
  }

  lemma CleanIsOrderly(dir: seq<Named>)
    requires CleanDir(dir)
    ensures Orderly(dir)
  {
    hide Trim, Extract, Clean, Lower, Unique, Flat;
    forall ib | ib in Flat(dir)
      ensures OrderlyInbound(ib)
    {
      assert CleanInbound(ib);
    }
  }

  lemma EncryptionLeavesIdentities(ib: Inbound, enc: map<string, string>, enc': map<string, string>)
    requires ib.Inbound?
    ensures |Extract(ib, enc)| == |Extract(ib, enc')|
    ensures forall i :: 0 <= i < |Extract(ib, enc)| ==> Extract(ib, enc)[i].identity == Extract(ib, enc')[i].identity
    ensures IdentitySet(Extract(ib, enc)) == IdentitySet(Extract(ib, enc'))
  {
    hide Trim, Lower;
    var a, b := Extract(ib, enc), Extract(ib, enc');
    assert |a| == |b| && forall i :: 0 <= i < |a| ==> a[i].identity == b[i].identity;
    SameIdentities(a, b);
  }

  lemma SameIdentities(a: seq<Parsed>, b: seq<Parsed>)
    requires |a| == |b| && forall i :: 0 <= i < |a| ==> a[i].identity == b[i].identity
    ensures IdentitySet(a) == IdentitySet(b)
  {
    forall id
      ensures id in IdentitySet(a) <==> id in IdentitySet(b)
    {
      if id in IdentitySet(a) {
        var i :| 0 <= i < |a| && a[i].identity == id;
        assert b[i] in b;
      }
      if id in IdentitySet(b) {
        var i :| 0 <= i < |b| && b[i].identity == id;
        assert a[i] in a;
      }
    }
  }

  lemma CleanUsers(cs: seq<Parsed>)
    requires forall id :: id in IdentitySet(cs) ==> Clean(id)
    ensures R.Users(cs) == IdentitySet(cs) == Identities(cs)
    ensures R.AllTidy(cs)
  {
    hide S.Sanitize, Trim;
    forall c | c in cs
      ensures Clean(c.identity) && Trim(c.identity) == c.identity
    {
      assert c.identity in IdentitySet(cs);
      CleanIsTrimmed(c.identity);
    }
  }
}
