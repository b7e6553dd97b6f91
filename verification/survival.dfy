/** Credentials on their way from the database through the files and back, over every pass of a run. */
module Survival {
  import opened ConfigFile
  import opened Credentials
  import opened Fixpoint
  import opened Options
  import opened Passes
  import opened Restore
  import opened RestoreResults
  import opened Text
  import opened TwoWay
  import opened TwoWayResults
  import opened Unsettled
  import A = Accounts
  import S = Sync
  import R = SyncResults
  import Resync

  // ----- one client list -----

  lemma {:induction false} ClientsAfterConcat(clients: map<string, S.Enrolment>, a: seq<Parsed>, b: seq<Parsed>)
    ensures R.ClientsAfter(clients, a + b) == R.ClientsAfter(R.ClientsAfter(clients, a), b)
    decreases |a|
  {
    hide S.Sanitize, S.Enrol;
    if a == [] {
      assert a + b == b;
    } else {
      assert (a + b)[0] == a[0] && (a + b)[1..] == a[1..] + b;
      var name := S.Sanitize(a[0].identity);
      ClientsAfterConcat(if name == "" then clients else S.Enrol(clients, name, a[0].stored), a[1..], b);
    }
  }

  /** The last client of a list that stands for a user. */
  function LastNaming(cs: seq<Parsed>, u: string): Option<Parsed> {
    if cs == [] then None
    else if u != "" && S.Sanitize(cs[|cs| - 1].identity) == u then Some(cs[|cs| - 1])
    else LastNaming(cs[..|cs| - 1], u)
  }

  /** It decides which credential the user ends up with. */
  lemma {:induction false} LastNamingDecides(clients: map<string, S.Enrolment>, cs: seq<Parsed>, u: string)
    requires u in clients
    ensures u in R.ClientsAfter(clients, cs)
    ensures R.ClientsAfter(clients, cs)[u].stored ==
            if LastNaming(cs, u).Some? then LastNaming(cs, u).value.stored else clients[u].stored
    decreases |cs|
  {
    hide S.Sanitize;
    if cs != [] {
      var c, rest := cs[|cs| - 1], cs[..|cs| - 1];
      assert cs == rest + [c] && [c][1..] == [];
      LastNamingDecides(clients, rest, u);
      ClientsAfterConcat(clients, rest, [c]);
    }
  }

  function SecretIn(clients: map<string, S.Enrolment>, u: string): Option<Secret> {
    if u in clients then Some(SecretOf(clients[u].stored)) else None
  }

  function SecretAt(db: S.Tables, t: string, u: string): Option<Secret> {
    if t in db.inbounds then SecretIn(db.inbounds[t].clients, u) else None
  }

  /** Main result: a sync from files the tables reflect leaves a user the credential they have in an inbound exactly
      when the last client of the inbound that stands for them, if there is one, carries that credential. */
  lemma SecretKeptExactly(db: S.Tables, dir: seq<Named>, enc: map<string, string>, order: seq<string>, ib: Inbound, u: string)
    requires Reflected(db, dir, enc) && R.Enumerates(order, ParseDir(dir, enc))
    requires ib in Flat(dir) && Parsable(ib) && Has(db, ib.tag, u)
    ensures SecretAt(S.ProcessAll(db, ParseDir(dir, enc), order), ib.tag, u) == SecretAt(db, ib.tag, u) <==>
            var last := LastNaming(Extract(ib, enc), u);
            last.None? || Some(SecretOf(last.value.stored)) == SecretAt(db, ib.tag, u)
  {
    hide S.ProcessAll, Orderly, Mirrors, ParseDir, Flat, Extract, Lower, R.ClientsAfter, SecretOf, Trim, LastNaming;
    EnrolmentAgain(db, dir, enc, order, ib, u);
    LastNamingDecides(db.inbounds[ib.tag].clients, Extract(ib, enc), u);
  }

  // ----- what is written is read back -----

  /** A credential that reads back unchanged from an inbound of this protocol: it is of that protocol and, for
      Shadowsocks, has a cipher; or it cannot be written at all. */
  predicate Matches(secret: Secret, protocol: string) {
    match secret
    case VLESS(_, _) => protocol == "vless"
    case VMess(_, _) => protocol == "vmess"
    case Trojan(_) => protocol == "trojan"
    case Shadowsocks(_, cipher) => protocol == "shadowsocks" && cipher != ""
    case Unusable => true
  }

  lemma MatchingProtocol(s: Stored, protocol: string)
    requires Writable(s) && Matches(SecretOf(s), protocol)
    ensures Lower(s.protocol) == protocol && !(Lower(s.protocol) == "shadowsocks" && s.cipher == "")
  {
    hide Lower;
  }

  /** What a written client reads back as. */
  lemma WrittenReadsBack(db: S.Tables, ib: Inbound, encryption: string, c: Item)
    requires ib.Inbound? && ib.settings.Settings? && Trim(ib.tag) == ib.tag && Written(db, ib.tag, c)
    requires Matches(SecretOf(db.inbounds[ib.tag].clients[c.email].stored), Lower(ib.protocol))
    ensures var p := Read(Lower(ib.protocol), ib.settings, encryption, c);
            p.identity == c.email && Some(SecretOf(p.stored)) == SecretAt(db, ib.tag, c.email)
  {
    hide Lower, Trim, SecretOf, Matches, ToItem;
    var s := db.inbounds[ib.tag].clients[c.email].stored;
    WritableIffItem(s, c.email);
    assert Writable(s);
    MatchingProtocol(s, Lower(ib.protocol));
    RoundTrip(s, c.email, ib.settings, encryption);
  }

  lemma WrittenIsItem(db: S.Tables, t: string, c: Item)
    requires Written(db, t, c)
    ensures c.Item? && c.email != "" && Has(db, t, c.email)
  {
  }

  /** No other identity of the inbound stands for the user. */
  ghost predicate Clear(ib: Inbound, u: string)
    requires ib.Inbound?
  {
    forall id :: id in Shows(ib) && S.Sanitize(id) == u ==> id == u
  }

  /** Reading the rewritten inbound leaves the user's credential, when reading it before rewriting did. */
  lemma SecretWrittenBack(db: S.Tables, ib: Inbound, ib': Inbound, enc: map<string, string>, u: string)
    requires Parsable(ib) && Trim(ib.tag) == ib.tag && Evolved(db, ib, ib') && ib'.Inbound? && Clear(ib', u)
    requires Has(db, ib.tag, u) && Matches(SecretOf(db.inbounds[ib.tag].clients[u].stored), Lower(ib.protocol))
    requires var clients := db.inbounds[ib.tag].clients; A.At(R.ClientsAfter(clients, Extract(ib, enc)), u) == A.At(clients, u)
    ensures var clients := db.inbounds[ib.tag].clients; SecretIn(R.ClientsAfter(clients, Extract(ib', enc)), u) == SecretIn(clients, u)
  {
    hide Evolved, Extract, Lower, Trim, SecretOf, R.ClientsAfter, Read, Clear, Matches, R.Users, S.Sanitize;
    var clients := db.inbounds[ib.tag].clients;
    var more := EvolvedExtract(db, ib, ib', enc);
    var added := ReadItems(ib, ClientEncryptionOf(ib, enc), more);
    var mid := if Extract(ib', enc) == added then clients else R.ClientsAfter(clients, Extract(ib, enc));
    ClientsAfterConcat(clients, Extract(ib, enc), added);
    R.EnrolmentsKept(mid, added, u);
    if u in R.Users(added) {
      var p := R.StoredFromEntry(mid, added, u);
      AddedEntry(db, ib, ib', enc, more, p, u);
    }
  }

  lemma AddedEntry(db: S.Tables, ib: Inbound, ib': Inbound, enc: map<string, string>, more: seq<Item>, p: Parsed, u: string)
    requires ib.Inbound? && ib'.Inbound? && Trim(ib.tag) == ib.tag && Clear(ib', u) && Has(db, ib.tag, u)
    requires (more != [] ==> ib.settings.Settings?) && forall c :: c in more ==> Written(db, Trim(ib.tag), c) && c.Item?
    requires var added := ReadItems(ib, ClientEncryptionOf(ib, enc), more);
             p in added && (Extract(ib', enc) == Extract(ib, enc) + added || Extract(ib', enc) == added)
    requires Matches(SecretOf(db.inbounds[ib.tag].clients[u].stored), Lower(ib.protocol)) && S.Sanitize(p.identity) == u
    ensures Some(SecretOf(p.stored)) == SecretAt(db, ib.tag, u)
  {
    hide Extract, Lower, Trim, SecretOf, Read, Matches, Written, S.Sanitize;
    var e := ClientEncryptionOf(ib, enc);
    var added := ReadItems(ib, e, more);
    var i :| 0 <= i < |added| && added[i] == p;
    WrittenIsItem(db, ib.tag, more[i]);
    ReadIdentity(Lower(ib.protocol), ib.settings, e, more[i]);
    assert p in Extract(ib', enc);
    EncryptionLeavesIdentities(ib', enc, map[]);
    assert p.identity in IdentitySet(Extract(ib', enc));
    assert p.identity in Shows(ib');
    WrittenReadsBack(db, ib, e, more[i]);
  }

  // ----- over a run -----

  /** Reading the files as they are leaves the user the credential they have in the inbound, which is of the
      inbound's protocol. */
  ghost predicate Firm(s: State, enc: map<string, string>, t: string, u: string) {
    && Has(s.db, t, u) && Matches(SecretOf(s.db.inbounds[t].clients[u].stored), s.db.inbounds[t].protocol)
    && forall ib :: ib in Flat(s.dir) && Parsable(ib) && ib.tag == t ==>
         && s.db.inbounds[t].protocol == Lower(ib.protocol)
         && SecretIn(R.ClientsAfter(s.db.inbounds[t].clients, Extract(ib, enc)), u) == SecretAt(s.db, t, u)
  }

  /** Reading the files once more changes nothing about the user's enrolment. */
  ghost predicate Fixed(s: State, enc: map<string, string>, t: string, u: string) {
    && Has(s.db, t, u) && Matches(SecretOf(s.db.inbounds[t].clients[u].stored), s.db.inbounds[t].protocol)
    && forall ib :: ib in Flat(s.dir) && Parsable(ib) && ib.tag == t ==>
         && s.db.inbounds[t].protocol == Lower(ib.protocol)
         && A.At(R.ClientsAfter(s.db.inbounds[t].clients, Extract(ib, enc)), u) == A.At(s.db.inbounds[t].clients, u)
  }

  /** In the inbound of this tag no other identity stands for the user. */
  ghost predicate Unmistaken(s: State, t: string, u: string) {
    forall ib :: ib in Flat(s.dir) && Parsable(ib) && ib.tag == t ==> Clear(ib, u)
  }

  /** The user keeps enrolment, flag and credential. */
  predicate SameEnrolment(a: S.Tables, b: S.Tables, t: string, u: string) {
    && Has(a, t, u) && Has(b, t, u) && a.inbounds[t].clients[u].enabled == b.inbounds[t].clients[u].enabled
    && SecretAt(a, t, u) == SecretAt(b, t, u)
  }

  lemma ProtocolAfterSync(db: S.Tables, dir: seq<Named>, enc: map<string, string>, order: seq<string>, ib: Inbound)
    requires Orderly(dir) && R.NoTagMoved(db, ParseDir(dir, enc)) && R.Enumerates(order, ParseDir(dir, enc))
    requires ib in Flat(dir) && Parsable(ib)
    ensures var db' := S.ProcessAll(db, ParseDir(dir, enc), order);
            ib.tag in db'.inbounds && db'.inbounds[ib.tag].protocol == Lower(ib.protocol)
  {
    hide S.ProcessAll, Orderly, R.NoTagMoved, ParseDir, Flat, Extract, Lower, S.Tags, R.Structured, R.InboundOf, R.ClientsAfter, Trim;
    OrderlyParses(dir, enc);
    var g := FileOf(dir, enc, ib);
    A.OutcomeAlike(db, ParseDir(dir, enc), order, ib.tag);
  }

  /** An inbound no file has is left alone. */
  lemma ElsewhereKept(s: State, enc: map<string, string>, order: seq<string>, t: string, u: string)
    requires Reflected(s.db, s.dir, enc) && R.Enumerates(order, ParseDir(s.dir, enc)) && Has(s.db, t, u)
    requires !exists ib :: ib in Flat(s.dir) && Parsable(ib) && ib.tag == t
    ensures var db' := S.ProcessAll(s.db, ParseDir(s.dir, enc), order);
            Has(db', t, u) && db'.inbounds[t].clients[u] == s.db.inbounds[t].clients[u]
            && db'.inbounds[t].protocol == s.db.inbounds[t].protocol
  {
    hide S.ProcessAll, Orderly, ParseDir, Flat, Extract, Lower, Trim, S.Tags, R.Structured, Identities;
    OrderlyParses(s.dir, enc);
    A.UnlistedAfter(s.db, ParseDir(s.dir, enc), order, t);
    assert u in s.db.users;
    assert A.At(S.ProcessAll(s.db, ParseDir(s.dir, enc), order).inbounds[t].clients, u) == A.At(s.db.inbounds[t].clients, u);
  }

  /** What a sync from a firm state leaves. */
  lemma FirmSync(s: State, enc: map<string, string>, order: seq<string>, t: string, u: string)
    requires Reflected(s.db, s.dir, enc) && Firm(s, enc, t, u) && R.Enumerates(order, ParseDir(s.dir, enc))
    ensures var db' := S.ProcessAll(s.db, ParseDir(s.dir, enc), order);
            SameEnrolment(s.db, db', t, u) && Fixed(State(db', s.dir), enc, t, u)
  {
    hide S.ProcessAll, Orderly, ParseDir, Flat, Extract, Lower, R.ClientsAfter, SecretOf, Trim, R.Users, Matches, R.NoTagMoved,
         Identities, S.Tags;
    var db' := S.ProcessAll(s.db, ParseDir(s.dir, enc), order);
    Resync.OwnedNoMove(s.db, ParseDir(s.dir, enc));
    forall ib | ib in Flat(s.dir) && Parsable(ib) && ib.tag == t
      ensures SameEnrolment(s.db, db', t, u) && db'.inbounds[t].protocol == Lower(ib.protocol) == s.db.inbounds[t].protocol
      ensures A.At(R.ClientsAfter(db'.inbounds[t].clients, Extract(ib, enc)), u) == A.At(db'.inbounds[t].clients, u)
    {
      ProtocolAfterSync(s.db, s.dir, enc, order, ib);
      EnrolmentAgain(s.db, s.dir, enc, order, ib, u);
      R.EnrolmentsKept(s.db.inbounds[t].clients, Extract(ib, enc), u);
      A.ClientsAfterAt(db'.inbounds[t].clients, R.ClientsAfter(s.db.inbounds[t].clients, Extract(ib, enc)), Extract(ib, enc), u);
      A.ClientsAfterAt(s.db.inbounds[t].clients, s.db.inbounds[t].clients, Extract(ib, enc), u);
    }
    if !exists ib :: ib in Flat(s.dir) && Parsable(ib) && ib.tag == t {
      ElsewhereKept(s, enc, order, t, u);
    }
  }

  /** Nor does the first sync leave anything to be changed by reading the same files again. */
  lemma FirstSync(s: State, enc: map<string, string>, order: seq<string>, t: string, u: string)
    requires CleanState(s, enc) && R.Enumerates(order, ParseDir(s.dir, enc))
    requires var db' := S.ProcessAll(s.db, ParseDir(s.dir, enc), order);
             Has(db', t, u) && Matches(SecretOf(db'.inbounds[t].clients[u].stored), db'.inbounds[t].protocol)
    ensures Fixed(State(S.ProcessAll(s.db, ParseDir(s.dir, enc), order), s.dir), enc, t, u)
  {
    hide S.ProcessAll, CleanTables, CleanDir, ParseDir, Flat, Extract, Lower, R.ClientsAfter, SecretOf, Trim, Matches, R.NoTagMoved,
         S.Tags, R.WellFormed, CleanParsed, R.InboundOf;
    var db' := S.ProcessAll(s.db, ParseDir(s.dir, enc), order);
    CleanDirParses(s.dir, enc);
    CleanIsOrderly(s.dir);
    forall ib | ib in Flat(s.dir) && Parsable(ib) && ib.tag == t
      ensures db'.inbounds[t].protocol == Lower(ib.protocol)
      ensures A.At(R.ClientsAfter(db'.inbounds[t].clients, Extract(ib, enc)), u) == A.At(db'.inbounds[t].clients, u)
    {
      ProtocolAfterSync(s.db, s.dir, enc, order, ib);
      var g := FileOf(s.dir, enc, ib);
      Resync.RowAfterSync(s.db, ParseDir(s.dir, enc), order, g, t);
      var was: map<string, S.Enrolment> := if t in s.db.inbounds then s.db.inbounds[t].clients else map[];
      A.ClientsAfterAt(was, was, Extract(ib, enc), u);
    }
  }

  /** Writing back leaves a fixed state firm, when no other identity comes to stand for the user. */
  lemma FirmWriteBack(db: S.Tables, dir: seq<Named>, dir': seq<Named>, enc: map<string, string>, t: string, u: string)
    requires Orderly(dir) && EvolvedDir(db, dir, dir') && Fixed(State(db, dir), enc, t, u) && Unmistaken(State(db, dir'), t, u)
    ensures Firm(State(db, dir'), enc, t, u)
  {
    hide Unique, Flat, Extract, Lower, R.ClientsAfter, SecretOf, Trim, Matches, Evolved, EvolvedDir, Clear;
    EvolvedFlat(db, dir, dir');
    forall i | 0 <= i < |Flat(dir')| && Parsable(Flat(dir')[i]) && Flat(dir')[i].tag == t
      ensures db.inbounds[t].protocol == Lower(Flat(dir')[i].protocol)
      ensures SecretIn(R.ClientsAfter(db.inbounds[t].clients, Extract(Flat(dir')[i], enc)), u) == SecretAt(db, t, u)
    {
      var ib, ib' := Flat(dir)[i], Flat(dir')[i];
      assert ib in Flat(dir) && ib' in Flat(dir') && OrderlyInbound(ib);
      EvolvedTags(db, ib, ib');
      SecretWrittenBack(db, ib, ib', enc, u);
    }
  }

  /** Main result: over a run of passes from clean files, whatever the users are called and whether or not it
      settles, everybody enrolled after the first pass keeps enrolment, flag and credential (ID, flow, alterId,
      password and cipher) for good, whether it was in the files from the start or was written to them, as long as
      the credential is of the inbound's protocol and no other identity the inbound shows stands for the user. */
  lemma {:induction false} CredentialsSurvive(states: seq<State>, enc: map<string, string>, t: string, u: string, n: nat)
    requires 1 <= n < |states|
    requires forall i :: 0 <= i < |states| - 1 ==> IsPass(states[i], states[i + 1], enc)
    requires CleanState(states[0], enc) && Has(states[1].db, t, u)
    requires Matches(SecretOf(states[1].db.inbounds[t].clients[u].stored), states[1].db.inbounds[t].protocol)
    requires forall i :: 1 <= i < n ==> Unmistaken(states[i], t, u)
    ensures SameEnrolment(states[1].db, states[n].db, t, u)
    ensures Reflected(states[n].db, states[n].dir, enc)
    ensures Unmistaken(states[n], t, u) ==> Firm(states[n], enc, t, u)
  {
    hide Pass, CleanState, ParseDir, S.ProcessAll, R.Enumerates, Orderly, CleanTables, Mirrors, Firm, Fixed, Unmistaken, SecretOf, Matches,
         EvolvedDir;
    var s, s' := states[n - 1], states[n];
    assert IsPass(s, states[n - 1 + 1], enc);
    var back :| PassTo(s, enc, s', back);
    if n > 1 {
      CredentialsSurvive(states, enc, t, u, n - 1);
    }
    var order, tags, listing := ReadyAgain(s, s', enc, back);
    PassSyncs(s.db, s.dir, enc, order, tags, listing, s'.db, back);
    if n == 1 {
      FirstSync(s, enc, order, t, u);
    } else {
      FirmSync(s, enc, order, t, u);
      SameEnrolmentTwice(states[1].db, s.db, s'.db, t, u);
    }
    if Unmistaken(s', t, u) {
      FirmWriteBack(s'.db, s.dir, s'.dir, enc, t, u);
    }
  }

  lemma SameEnrolmentTwice(a: S.Tables, b: S.Tables, c: S.Tables, t: string, u: string)
    requires SameEnrolment(a, b, t, u) && SameEnrolment(b, c, t, u)
    ensures SameEnrolment(a, c, t, u)
  {
    hide SecretAt;
  }

  lemma {:induction false} CleanRun(states: seq<State>, enc: map<string, string>, n: nat)
    requires n < |states|
    requires forall i :: 0 <= i < |states| - 1 ==> IsPass(states[i], states[i + 1], enc)
    requires CleanState(states[0], enc) && CleanNames(states[0].db)
    ensures CleanState(states[n], enc) && CleanNames(states[n].db)
  {
    hide CleanState, CleanNames, IsPass;
    if n > 0 {
      CleanRun(states, enc, n - 1);
      assert IsPass(states[n - 1], states[n - 1 + 1], enc);
      CleanNext(states[n - 1], states[n], enc);
    }
  }

  lemma CleanIsUnmistaken(s: State, t: string, u: string)
    requires CleanDir(s.dir)
    ensures Unmistaken(s, t, u)
  {
    hide S.Sanitize, Flat, Shows, Unique;
    forall ib | ib in Flat(s.dir) && Parsable(ib)
      ensures Clear(ib, u)
    {
      CleanClients(s.dir, map[], ib);
    }
  }

  /** Over clean names no condition on other identities is left. */
  lemma CleanCredentialsSurvive(states: seq<State>, enc: map<string, string>, t: string, u: string, n: nat)
    requires 1 <= n < |states|
    requires forall i :: 0 <= i < |states| - 1 ==> IsPass(states[i], states[i + 1], enc)
    requires CleanState(states[0], enc) && CleanNames(states[0].db) && Has(states[1].db, t, u)
    requires Matches(SecretOf(states[1].db.inbounds[t].clients[u].stored), states[1].db.inbounds[t].protocol)
    ensures SameEnrolment(states[1].db, states[n].db, t, u)
  {
    hide CleanTables, CleanDir, R.NoTagMoved, CleanNames, IsPass, SecretOf, Matches, Unmistaken, Reflected, Firm, SameEnrolment;
    forall i | 1 <= i < n
      ensures Unmistaken(states[i], t, u)
    {
      CleanRun(states, enc, i);
      CleanIsUnmistaken(states[i], t, u);
    }
    CredentialsSurvive(states, enc, t, u, n);
  }

  // ----- a case of mistaken identity -----

  const AB := BLANK.(protocol := "vless", id := "k")
  const AHHB := BLANK.(protocol := "vless", id := "l")

  /** Two users, ab and a--b, enrolled in an inbound whose client list is empty. */
  function Pair(ib: Inbound): State {
    State(S.Tables(map["in" := S.Row("vless", 443, "f.json", ib, map["ab" := S.Enrolment(AB, true), "a--b" := S.Enrolment(AHHB, true)])],
                   map["ab" := S.User("ab", true), "a--b" := S.User("a--b", true)]),
          [Named("f.json", Wrapped([ib], ""))])
  }

  const PAIR_ROWS := [Row("ab", AB), Row("a--b", AHHB)]

  lemma PairClean(ib: Inbound)
    requires ib == OneInbound("vless", [], "") && Extract(ib, map[]) == [] && Lower("vless") == "vless"
    requires Trim("in") == "in" && Trim("ab") == "ab" && Trim("a--b") == "a--b" && "a--b" != "ab"
    ensures CleanState(Pair(ib), map[]) && Flat(Pair(ib).dir) == [ib]
    ensures ParseDir(Pair(ib).dir, map[]) == map["f.json" := [S.ParsedInbound("in", "vless", 443, ib, [])]]
  {
    hide Trim, Extract, Lower, S.Sanitize;
    var s := Pair(ib);
    assert s.dir[1..] == [] && Flat(s.dir[1..]) == [] && Flat(s.dir) == [ib];
    assert [ib][1..] == [] && S.Parse([ib][1..], map[]) == [];
    assert S.Parse([ib], map[]) == [S.ParsedInbound("in", "vless", 443, ib, [])];
    assert ParseDir(s.dir[1..], map[]) == map[];
  }

  lemma PairSynced(ib: Inbound)
    requires ParseDir(Pair(ib).dir, map[]) == map["f.json" := [S.ParsedInbound("in", "vless", 443, ib, [])]]
    ensures R.Enumerates(["f.json"], ParseDir(Pair(ib).dir, map[]))
    ensures S.ProcessAll(Pair(ib).db, ParseDir(Pair(ib).dir, map[]), ["f.json"]) == Pair(ib).db
  {
    hide ParseDir;
    var db, pi := Pair(ib).db, S.ParsedInbound("in", "vless", 443, ib, []);
    assert [pi][0].tag in S.Tags([pi]);
    assert S.Stale(db, "f.json", S.Tags([pi])) == {};
    assert db.inbounds - {} == db.inbounds;
    assert S.Upserted("f.json", pi, S.RowOf(db, "in")) == db.inbounds["in"];
    assert db.inbounds["in" := db.inbounds["in"]] == db.inbounds;
    assert S.SyncClients(db, "in", []) == db;
    assert S.SyncInbound(db, "f.json", pi) == db;
    assert [pi][1..] == [] && S.SyncInbounds(db, "f.json", []) == db;
    assert S.SyncInbounds(db, "f.json", [pi]) == db;
    assert S.ProcessFile(db, "f.json", [pi]) == db;
    assert ["f.json"][1..] == [];
  }

  lemma PairAnswers(ib: Inbound)
    requires Trim("ab") == "ab" && Trim("a--b") == "a--b" && "a--b" != "ab"
    ensures Answers(Pair(ib).db, ["in"], map["in" := PAIR_ROWS])
  {
    hide Trim;
    var db := Pair(ib).db;
    assert Active(db, "in", "ab") && RowFor(db, "in", "ab") == PAIR_ROWS[0];
    assert Active(db, "in", "a--b") && RowFor(db, "in", "a--b") == PAIR_ROWS[1];
    assert forall r :: r in PAIR_ROWS ==> r == PAIR_ROWS[0] || r == PAIR_ROWS[1];
  }

  /** Writing one client to a directory of one inbound. */
  lemma OneWritten(dir: seq<Named>, ib: Inbound, name: string, s: Stored) returns (d: seq<Named>, ib': Inbound)
    requires ib.Inbound?
    requires Flat(dir) == [ib] && Receptive(ib) && ib.tag == "in" && Trim("in") == "in" && Trim(name) == name && name != ""
    requires Writable(s) && Lower(ib.protocol) == "vless" && Lower(s.protocol) == "vless"
    ensures AddExisting(dir, "in", name, s) == Ok(d) && Flat(d) == [ib']
    ensures Receptive(ib') && ib'.Inbound? && ib'.tag == "in" && Lower(ib'.protocol) == "vless" && ib'.port == ib.port
    ensures exists p :: Extract(ib', map[]) == Extract(ib, map[]) + [p] && p.identity == name && SecretOf(p.stored) == SecretOf(s)
  {
    hide Trim, Extract, AddExisting, Lower, Flat, Writable;
    assert HasTag(ib, "in");
    PositionIs([ib], "in", 0);
    AddExistingFlat(dir, "in", name, s);
    d := AddExisting(dir, "in", name, s).value;
    var c := ToItem(s, name).value;
    ib' := Appended(ib, c);
    AppendedIsRead(ib, c, map[]);
    RoundTrip(s, name, ib.settings, ClientEncryption(ib.settings, ib.tag, map[]));
  }

  /** The write-back of both, ab first. */
  lemma PairWritten(ib: Inbound) returns (d: seq<Named>, ib': Inbound)
    requires Flat(Pair(ib).dir) == [ib] && ib == OneInbound("vless", [], "") && Receptive(ib) && Extract(ib, map[]) == []
    requires Trim("in") == "in" && Trim("ab") == "ab" && Trim("a--b") == "a--b" && "a--b" != "ab"
    ensures SyncBack(Pair(ib).dir, ["in"], map["in" := PAIR_ROWS]).dir == d && Flat(d) == [ib']
    ensures ib'.Inbound? && ib'.tag == "in" && ib'.port == ib.port
    ensures exists p, q :: Extract(ib', map[]) == [p, q] && q.identity == "a--b" && SecretOf(q.stored) == VLESS("l", "")
  {
    hide Trim, Extract, AddExisting, Flat, Receptive;
    var dir := Pair(ib).dir;
    assert Writable(AB) && Writable(AHHB) && Lower("vless") == "vless" && SecretOf(AHHB) == VLESS("l", "") by {
      LowerFixed();
    }
    hide Lower, Writable, SecretOf;
    var d1, ib1 := OneWritten(dir, ib, "ab", AB);
    var p :| Extract(ib1, map[]) == Extract(ib, map[]) + [p];
    d, ib' := OneWritten(d1, ib1, "a--b", AHHB);
    var q :| Extract(ib', map[]) == Extract(ib1, map[]) + [q] && q.identity == "a--b" && SecretOf(q.stored) == SecretOf(AHHB);
    assert Extract(ib', map[]) == [p, q];
    assert ["in"][1..] == [] && PAIR_ROWS[1..] == [PAIR_ROWS[1]] && PAIR_ROWS[1..][1..] == [];
    ExistingSingle(ib);
    assert SyncUsers(d, "in", [], {} + {"ab"} + {"a--b"}).dir == d;
    assert SyncUsers(d1, "in", [PAIR_ROWS[1]], {} + {"ab"}).dir == d;
    assert SyncUsers(dir, "in", PAIR_ROWS, {}).dir == d;
    assert OneTag(dir, "in", PAIR_ROWS).dir == d;
  }

  lemma ExistingSingle(ib: Inbound)
    requires ib == OneInbound("vless", [], "") && Extract(ib, map[]) == [] && Trim("in") == "in"
    ensures ExistingIdentities([ib], "in") == Some({})
  {
    hide Trim, Extract;
    assert Readable(ib, "in") && Identities([]) == {};
  }

  /** The second of two passes gives user ab the credential of user a--b. */
  lemma MistakenExample() returns (s: State, s': State)
    ensures CleanState(s, map[]) && IsPass(s, s', map[]) && SecretAt(s'.db, "in", "ab") == Some(VLESS("k", ""))
    ensures R.Enumerates(["f.json"], ParseDir(s'.dir, map[]))
    ensures SecretAt(S.ProcessAll(s'.db, ParseDir(s'.dir, map[]), ["f.json"]), "in", "ab") == Some(VLESS("l", ""))
  {
    hide Trim, Extract, Lower, S.Sanitize, S.ProcessAll, ParseDir, SyncBack, Flat, Receptive, Answers, CleanState, Reflected, Shows,
         R.ClientsAfter, EvolvedDir;
    var ib := EmptyInbound();
    LowerFixed();
    Names();
    s := Pair(ib);
    PairClean(ib);
    PairSynced(ib);
    PairAnswers(ib);
    var d, ib' := PairWritten(ib);
    s' := State(s.db, d);
    var listing := map["in" := PAIR_ROWS];
    var back := SyncBack(s.dir, ["in"], listing);
    assert Pass(s.db, s.dir, map[], ["f.json"], ["in"], listing, s'.db, back);
    assert PassTo(s, map[], s', back);
    assert CleanState(s, map[]) && Reflected(s'.db, s'.dir, map[]) && EvolvedDir(s'.db, s.dir, s'.dir) by {
      var _, _, _ := ReadyAgain(s, s', map[], back);
    }
    SameNames(s'.db, s.dir, s'.dir, map[]);
    var p, q :| Extract(ib', map[]) == [p, q] && q.identity == "a--b" && SecretOf(q.stored) == VLESS("l", "");
    assert ib' in Flat(s'.dir) && "ab" in s'.db.users;
    EnrolmentAgain(s'.db, s'.dir, map[], ["f.json"], ib', "ab");
    assert LastNaming([p, q], "ab") == Some(q);
    LastNamingDecides(s'.db.inbounds["in"].clients, [p, q], "ab");
    assert SecretOf(AB) == VLESS("k", "");
  }

  lemma SameNames(db: S.Tables, dir: seq<Named>, dir': seq<Named>, enc: map<string, string>)
    requires EvolvedDir(db, dir, dir') && |dir| == 1
    ensures ParseDir(dir', enc).Keys == ParseDir(dir, enc).Keys
  {
    hide Evolved, S.Parse;
    assert dir[1..] == [] && dir'[1..] == [];
    assert ParseDir([], enc) == map[];
  }
}
