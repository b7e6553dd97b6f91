/** What persisting a list of users guarantees: it conserves and deduplicates, only appends, and leaves every
    listed user either in the inbound or impossible to write. */
module RestoreResults {
  import opened ConfigFile
  import opened Credentials
  import opened Options
  import opened Restore
  import opened Text

  lemma WritableIffItem(s: Stored, email: string)
    ensures ToItem(s, email).Some? <==> Writable(s)
    ensures ToItem(s, email).Some? ==> ToItem(s, email).value.Item? && ToItem(s, email).value.email == email
  {
  }

  /** One call succeeds exactly for a named, writable user and an inbound with settings, and appends to it. */
  lemma AddExistingFlat(dir: seq<Named>, tag: string, username: string, s: Stored)
    ensures AddExisting(dir, tag, username, s).Ok? <==> Trim(username) != "" && Accepts(Flat(dir), tag) && Writable(s)
    ensures AddExisting(dir, tag, username, s).Ok? ==>
              var c := ToItem(s, Trim(username));
              && c.Some? && c.value.Item? && c.value.email == Trim(username)
              && AddIn(dir, tag, c.value) == AddExisting(dir, tag, username, s)
              && Flat(AddExisting(dir, tag, username, s).value) == AppendedAt(Flat(dir), tag, c.value)
  {
    hide Trim, ToItem, Writable, AddIn, Flat, AppendedAt;
    WritableIffItem(s, Trim(username));
    AddInFlat(dir, tag, if Writable(s) then ToItem(s, Trim(username)).value else Alien(""));
  }

  /** Appending changes no tag, so every lookup lands where it did. */
  lemma AppendedKeepsPlaces(ibs: seq<Inbound>, tag: string, c: Item, t: string)
    requires Accepts(ibs, tag)
    ensures |AppendedAt(ibs, tag, c)| == |ibs|
    ensures Position(AppendedAt(ibs, tag, c), t) == Position(ibs, t)
    ensures Accepts(AppendedAt(ibs, tag, c), t) <==> Accepts(ibs, t)
  {
    hide Trim;
    PositionIs(AppendedAt(ibs, tag, c), t, Position(ibs, t));
  }

  /** ibs with new clients appended to the tagged inbound. */
  function Extended(ibs: seq<Inbound>, tag: string, new_: seq<Item>): seq<Inbound>
    requires new_ == [] || Accepts(ibs, tag)
  {
    if new_ == [] then ibs
    else
      var p := Position(ibs, tag);
      ibs[p := WithClients(ibs[p], Some(ClientsOf(ibs[p].settings) + new_))]
  }

  lemma ExtendedMore(ibs: seq<Inbound>, tag: string, c: Item, new_: seq<Item>)
    requires Accepts(ibs, tag)
    ensures Accepts(AppendedAt(ibs, tag, c), tag)
    ensures Extended(AppendedAt(ibs, tag, c), tag, new_) == Extended(ibs, tag, [c] + new_)
  {
    hide Position;
    AppendedKeepsPlaces(ibs, tag, c, tag);
    var p := Position(ibs, tag);
    var items := ClientsOf(ibs[p].settings);
    assert items + ([c] + new_) == items + [c] + new_;
    if new_ == [] {
      assert [c] + new_ == [c];
    }
  }

  predicate AllNamed(items: seq<Item>) {
    forall c :: c in items ==> c.Item?
  }

  function Emails(items: seq<Item>): set<string>
    requires AllNamed(items)
  {
    set c | c in items :: c.email
  }

  /** A user with nothing more to be done. */
  predicate Done(ibs: seq<Inbound>, tag: string, r: Row, identities: set<string>) {
    Trim(r.username) == "" || Trim(r.username) in identities || !Writable(r.stored) || !Accepts(ibs, tag)
  }

  /** o is what syncing these users leads to, with new_ the clients written. */
  ghost predicate Conserved(ibs: seq<Inbound>, tag: string, users: seq<Row>, identities: set<string>, o: Outcome, new_: seq<Item>) {
    && o.added + |o.failed| + o.skipped == |users|
    && (forall r :: r in users ==> Trim(r.username) == "" || Trim(r.username) in o.identities || Trim(r.username) in o.failed)
    && |new_| == o.added && AllNamed(new_) && (new_ == [] || Accepts(ibs, tag))
    && o.identities == identities + Emails(new_) && |o.identities| == |identities| + o.added
    && Emails(new_) !! identities && "" !in Emails(new_)
    && Flat(o.dir) == Extended(ibs, tag, new_)
  }

  /** Main result: every user is added, failed or passed over; a user not reported as failed is among the
      identities afterwards; each identity is added at most once, and only if it was not there; the files change
      only by appending exactly the added clients to the tagged inbound, so nothing is removed. */
  lemma {:induction false} SyncConserves(dir: seq<Named>, tag: string, users: seq<Row>, identities: set<string>)
    returns (new_: seq<Item>)
    ensures Conserved(Flat(dir), tag, users, identities, SyncUsers(dir, tag, users, identities), new_)
    decreases |users|
  {
    hide Trim, Flat, AddExisting, AppendedAt, Accepts, ToItem, Writable;
    if users == [] {
      new_ := [];
      ExtendedNone(Flat(dir), tag);
    } else {
      hide Conserved, Extended;
      var r, rest := users[0], users[1..];
      var u := Trim(r.username);
      assert users == [r] + rest;
      AddExistingFlat(dir, tag, u, r.stored);
      Text.TrimIdempotent(r.username);
      if u != "" && u !in identities && AddExisting(dir, tag, u, r.stored).Ok? {
        var d, c := AddExisting(dir, tag, u, r.stored).value, ToItem(r.stored, u).value;
        var more := SyncConserves(d, tag, rest, identities + {u});
        new_ := [c] + more;
        ConservedAdded(Flat(dir), tag, r, rest, identities, SyncUsers(d, tag, rest, identities + {u}), c, more);
      } else {
        new_ := SyncConserves(dir, tag, rest, identities);
        ConservedPassed(Flat(dir), tag, r, rest, identities, SyncUsers(dir, tag, rest, identities), new_);
      }
    }
  }

  lemma ConservedAdded(ibs: seq<Inbound>, tag: string, r: Row, rest: seq<Row>, identities: set<string>, o: Outcome, c: Item,
                       more: seq<Item>)
    requires Accepts(ibs, tag) && c.Item? && c.email == Trim(r.username) && c.email != "" && c.email !in identities
    requires Conserved(AppendedAt(ibs, tag, c), tag, rest, identities + {c.email}, o, more)
    ensures Conserved(ibs, tag, [r] + rest, identities, o.(added := o.added + 1), [c] + more)
  {
    hide Trim, Flat, Extended, AppendedAt, Accepts;
    EmailsHead(c, more);
    ExtendedMore(ibs, tag, c, more);
  }

  /** A user who is blank, known or cannot be written. */
  lemma ConservedPassed(ibs: seq<Inbound>, tag: string, r: Row, rest: seq<Row>, identities: set<string>, o: Outcome, new_: seq<Item>)
    requires Conserved(ibs, tag, rest, identities, o, new_)
    ensures Trim(r.username) == "" || Trim(r.username) in identities ==>
              Conserved(ibs, tag, [r] + rest, identities, o.(skipped := o.skipped + 1), new_)
    ensures forall e :: Conserved(ibs, tag, [r] + rest, identities, o.(failed := [Trim(r.username)] + o.failed, firstError := e), new_)
  {
    hide Trim, Flat, Extended, Accepts, Emails;
  }

  lemma EmailsHead(c: Item, items: seq<Item>)
    requires c.Item? && AllNamed(items)
    ensures AllNamed([c] + items) && Emails([c] + items) == {c.email} + Emails(items)
  {
  }

  /** A user who is not among the identities afterwards cannot be written. */
  lemma {:induction false} SyncHandlesAll(dir: seq<Named>, tag: string, users: seq<Row>, identities: set<string>)
    ensures identities <= SyncUsers(dir, tag, users, identities).identities
    ensures forall r :: r in users ==> Done(Flat(dir), tag, r, SyncUsers(dir, tag, users, identities).identities)
    decreases |users|
  {
    hide Trim, Flat, AddExisting, AppendedAt, Accepts, Writable;
    if users != [] {
      var r, rest := users[0], users[1..];
      var u := Trim(r.username);
      assert users == [r] + rest;
      AddExistingFlat(dir, tag, u, r.stored);
      Text.TrimIdempotent(r.username);
      if u != "" && u !in identities && AddExisting(dir, tag, u, r.stored).Ok? {
        AppendedKeepsPlaces(Flat(dir), tag, ToItem(r.stored, u).value, tag);
        SyncHandlesAll(AddExisting(dir, tag, u, r.stored).value, tag, rest, identities + {u});
      } else {
        SyncHandlesAll(dir, tag, rest, identities);
      }
    }
  }

  lemma ExtendedNone(ibs: seq<Inbound>, tag: string)
    ensures Extended(ibs, tag, []) == ibs
  {
  }

  // ----- inbounds that show what was added to them -----

  /** The clients appended to such an inbound are read back, besides the ones it had. */
  predicate Receptive(ib: Inbound) {
    ib.Inbound? && ib.settings.Settings? && HasClients(Lower(ib.protocol)) && !HasAlien(ClientsOf(ib.settings)) && !SingleUser(ib)
  }

  lemma SocksHasNoClients()
    ensures !HasClients("socks")
  {
  }

  lemma AppendedIsRead(ib: Inbound, c: Item, enc: map<string, string>)
    requires Receptive(ib) && c.Item? && c.email != ""
    ensures Receptive(Appended(ib, c))
    ensures Extract(Appended(ib, c), enc) ==
            Extract(ib, enc) + [Read(Lower(ib.protocol), ib.settings, ClientEncryption(ib.settings, ib.tag, enc), c)]
    ensures Identities(Extract(Appended(ib, c), enc)) == Identities(Extract(ib, enc)) + {c.email}
  {
    hide Lower, Trim;
    SocksHasNoClients();
    var ib', items := Appended(ib, c), ClientsOf(ib.settings);
    var p := Read(Lower(ib.protocol), ib.settings, ClientEncryption(ib.settings, ib.tag, enc), c);
    assert ClientsOf(ib'.settings) == items + [c];
    assert forall i :: 0 <= i < |items + [c]| ==> (items + [c])[i] == if i < |items| then items[i] else c;
    ReadSameSettings(ib, ib', c);
    ReadIdentity(Lower(ib.protocol), ib.settings, ClientEncryption(ib.settings, ib.tag, enc), c);
    ReadAppended(Lower(ib.protocol), ib.settings, ib'.settings, ClientEncryption(ib.settings, ib.tag, enc), items, c);
    IdentitiesAppend(Extract(ib, enc), p);
  }

  lemma ReadIdentity(protocol: string, settings: Settings, encryption: string, c: Item)
    requires settings.Settings? && c.Item? && c.email != ""
    ensures Read(protocol, settings, encryption, c).identity == c.email
  {
  }

  lemma ReadSameSettings(ib: Inbound, ib': Inbound, c: Item)
    requires ib.Inbound? && ib.settings.Settings? && ib' == WithClients(ib, Some(ClientsOf(ib.settings) + [c]))
    ensures forall enc :: ClientEncryption(ib'.settings, ib'.tag, enc) == ClientEncryption(ib.settings, ib.tag, enc)
    ensures forall protocol, encryption, d: Item :: d.Item? ==>
              Read(protocol, ib'.settings, encryption, d) == Read(protocol, ib.settings, encryption, d)
  {
    hide Trim;
  }

  lemma ReadAppended(protocol: string, settings: Settings, settings': Settings, encryption: string, items: seq<Item>, c: Item)
    requires settings.Settings? && settings'.Settings? && c.Item? && !HasAlien(items) && !HasAlien(items + [c])
    requires forall d: Item :: d.Item? ==>
               Read(protocol, settings', encryption, d) == Read(protocol, settings, encryption, d)
    ensures ReadAll(protocol, settings', encryption, items + [c])
         == ReadAll(protocol, settings, encryption, items) + [Read(protocol, settings, encryption, c)]
  {
    hide Read;
    var a := ReadAll(protocol, settings', encryption, items + [c]);
    forall i | 0 <= i < |a|
      ensures a[i] == (ReadAll(protocol, settings, encryption, items) + [Read(protocol, settings, encryption, c)])[i]
    {
      assert (items + [c])[i] == if i < |items| then items[i] else c;
    }
  }

  lemma IdentitiesAppend(ps: seq<Parsed>, p: Parsed)
    requires p.identity != ""
    ensures Identities(ps + [p]) == Identities(ps) + {p.identity}
  {
    assert p in ps + [p];
  }

  // ----- settling -----

  ghost predicate Unique(ibs: seq<Inbound>) {
    forall i, j :: 0 <= i < j < |ibs| && ibs[i].Inbound? && ibs[j].Inbound? ==> Trim(ibs[i].tag) != Trim(ibs[j].tag)
  }

  /** With unique tags the readable inbound and the one written to are the same. */
  lemma {:induction false} ExistingAt(ibs: seq<Inbound>, tag: string)
    requires Unique(ibs)
    ensures var p := Position(ibs, tag);
            ExistingIdentities(ibs, tag) ==
            if p < |ibs| && ibs[p].port.Some? then Some(Identities(Extract(ibs[p], map[]))) else None
  {
    hide Trim, Extract, Identities;
    if ibs != [] {
      var rest := ibs[1..];
      assert forall i :: 0 <= i < |rest| ==> rest[i] == ibs[i + 1];
      ExistingAt(rest, tag);
      if HasTag(ibs[0], tag) {
        forall i | 0 <= i < |rest|
          ensures !HasTag(rest[i], tag)
        {
          assert rest[i] == ibs[i + 1];
        }
        PositionIs(rest, tag, |rest|);
      }
    }
  }

  /** What an inbound shows once one more client was appended: the client besides the others when it is receptive,
      the client instead of its single user, or nothing new. */
  lemma OneMoreShown(ib: Inbound, c: Item, enc: map<string, string>)
    requires ib.Inbound? && ib.settings.Settings? && c.Item? && c.email != ""
    ensures SingleUser(ib) ==> ib.settings.password != ""
    ensures Receptive(Appended(ib, c)) <==> Receptive(ib) || SingleUser(ib)
    ensures !SingleUser(Appended(ib, c))
    ensures var ids := Identities(Extract(ib, enc));
            Identities(Extract(Appended(ib, c), enc)) ==
            if Receptive(ib) then ids + {c.email} else if SingleUser(ib) then {c.email} else ids
    ensures SingleUser(ib) ==> Identities(Extract(ib, enc)) == {ib.settings.password}
  {
    hide Extract, Identities;
    if Receptive(ib) {
      AppendedIsRead(ib, c, enc);
    } else if SingleUser(ib) {
      SingleUserHidden(ib, c, enc);
    } else {
      NothingNewShown(ib, c, enc);
    }
  }

  lemma SingleUserHidden(ib: Inbound, c: Item, enc: map<string, string>)
    requires SingleUser(ib) && c.Item? && c.email != ""
    ensures Receptive(Appended(ib, c)) && ib.settings.password != ""
    ensures Identities(Extract(Appended(ib, c), enc)) == {c.email}
    ensures Identities(Extract(ib, enc)) == {ib.settings.password}
  {
    hide Trim, Lower, Extract;
    assert ClientsOf(ib.settings) + [c] == [c];
    var p := SingleUserRead(ib, c, enc);
    SingleUserShown(ib, enc);
    assert OwnUser(ib.settings) in Extract(ib, enc) && p in Extract(Appended(ib, c), enc);
  }

  lemma SingleUserShown(ib: Inbound, enc: map<string, string>)
    requires SingleUser(ib)
    ensures Extract(ib, enc) == [OwnUser(ib.settings)] && ib.settings.password != ""
  {
    hide Trim, Lower, Read;
    SocksHasNoClients();
  }

  lemma SingleUserRead(ib: Inbound, c: Item, enc: map<string, string>) returns (p: Parsed)
    requires SingleUser(ib) && c.Item? && c.email != ""
    ensures Extract(Appended(ib, c), enc) == [p] && p.identity == c.email
  {
    hide Trim, Lower, Read;
    SocksHasNoClients();
    assert ClientsOf(ib.settings) + [c] == [c];
    p := Read(Lower(ib.protocol), Appended(ib, c).settings, ClientEncryption(ib.settings, ib.tag, enc), c);
    ReadIdentity(Lower(ib.protocol), Appended(ib, c).settings, ClientEncryption(ib.settings, ib.tag, enc), c);
  }

  lemma NothingNewShown(ib: Inbound, c: Item, enc: map<string, string>)
    requires ib.Inbound? && ib.settings.Settings? && c.Item? && !Receptive(ib) && !SingleUser(ib)
    ensures !Receptive(Appended(ib, c)) && !SingleUser(Appended(ib, c))
    ensures Extract(Appended(ib, c), enc) == Extract(ib, enc)
  {
    hide Trim, Lower, Read;
    SocksHasNoClients();
    var items := ClientsOf(ib.settings);
    assert forall i :: 0 <= i < |items| ==> (items + [c])[i] == items[i];
  }

  function ShownWith(ib: Inbound, new_: seq<Item>, enc: map<string, string>): set<string>
    requires ib.Inbound? && AllNamed(new_)
  {
    var ids := Identities(Extract(ib, enc));
    if new_ == [] then ids
    else if Receptive(ib) then ids + Emails(new_)
    else if SingleUser(ib) then Emails(new_)
    else ids
  }

  lemma {:induction false} MoreShown(ib: Inbound, new_: seq<Item>, enc: map<string, string>)
    requires ib.Inbound? && ib.settings.Settings? && AllNamed(new_) && "" !in Emails(new_) && new_ != []
    ensures Identities(Extract(WithClients(ib, Some(ClientsOf(ib.settings) + new_)), enc)) == ShownWith(ib, new_, enc)
    decreases |new_|
  {
    hide Receptive, SingleUser, Extract, Identities;
    var c, rest := new_[0], new_[1..];
    assert new_ == [c] + rest;
    assert Emails(new_) == {c.email} + Emails(rest);
    OneMoreShown(ib, c, enc);
    if rest == [] {
      assert ClientsOf(ib.settings) + new_ == ClientsOf(ib.settings) + [c];
    } else {
      MoreShown(Appended(ib, c), rest, enc);
      assert ClientsOf(ib.settings) + new_ == ClientsOf(ib.settings) + [c] + rest;
    }
  }

  lemma ExtendedUnique(ibs: seq<Inbound>, tag: string, new_: seq<Item>)
    requires (new_ == [] || Accepts(ibs, tag)) && Unique(ibs)
    ensures Unique(Extended(ibs, tag, new_)) && Position(Extended(ibs, tag, new_), tag) == Position(ibs, tag)
    ensures Accepts(Extended(ibs, tag, new_), tag) <==> Accepts(ibs, tag)
  {
    hide Trim;
    if new_ != [] {
      var ibs', p := Extended(ibs, tag, new_), Position(ibs, tag);
      assert forall i :: 0 <= i < |ibs| && ibs'[i].Inbound? ==> ibs[i].Inbound? && ibs'[i].tag == ibs[i].tag;
      PositionIs(ibs', tag, p);
    }
  }

  /** The condition, on the state before, for nothing to be left to write. */
  ghost predicate WillSettle(ibs: seq<Inbound>, tag: string, users: seq<Row>, identities: set<string>) {
    var p := Position(ibs, tag);
    || !Accepts(ibs, tag)
    || Receptive(ibs[p])
    || (forall r :: r in users ==> Trim(r.username) == "" || Trim(r.username) in identities || !Writable(r.stored))
    || (SingleUser(ibs[p]) && forall r :: r in users && Trim(r.username) == ibs[p].settings.password ==> !Writable(r.stored))
  }

  /** Main result: after a sync every listed user is found in the inbound by a fresh reading, or cannot be written,
      exactly when the inbound is receptive, or had nobody missing, or is a single-user inbound whose own user is
      not listed. */
  lemma SyncSettles(dir: seq<Named>, tag: string, users: seq<Row>, identities: set<string>)
    requires Unique(Flat(dir)) && ExistingIdentities(Flat(dir), tag) == Some(identities)
    ensures var o := SyncUsers(dir, tag, users, identities);
            && Unique(Flat(o.dir)) && (Accepts(Flat(o.dir), tag) <==> Accepts(Flat(dir), tag))
            && ExistingIdentities(Flat(o.dir), tag).Some?
            && (Accepts(Flat(dir), tag) && Receptive(Flat(dir)[Position(Flat(dir), tag)]) ==>
                  ExistingIdentities(Flat(o.dir), tag) == Some(o.identities))
            && ((forall r :: r in users ==> Done(Flat(o.dir), tag, r, ExistingIdentities(Flat(o.dir), tag).value)) <==>
                WillSettle(Flat(dir), tag, users, identities))
  {
    hide Trim, Flat, SyncUsers, Unique, Writable, Receptive, SingleUser, ExistingIdentities, Extract, Identities, Position;
    var o, ibs, p := SyncUsers(dir, tag, users, identities), Flat(dir), Position(Flat(dir), tag);
    var new_ := SyncConserves(dir, tag, users, identities);
    ExtendedUnique(ibs, tag, new_);
    ExistingAt(ibs, tag);
    ExistingAt(Flat(o.dir), tag);
    SyncHandlesAll(dir, tag, users, identities);
    if new_ != [] {
      MoreShown(ibs[p], new_, map[]);
      OneMoreShown(ibs[p], new_[0], map[]);
      SomebodyMissing(dir, tag, users, identities);
      if !Receptive(ibs[p]) && SingleUser(ibs[p]) {
        SingleUserSettles(ibs, tag, users, ibs[p].settings.password, Emails(new_));
      }
    }
  }

  /** The own user of a single-user inbound has gone out of sight. */
  lemma SingleUserSettles(ibs: seq<Inbound>, tag: string, users: seq<Row>, own: string, added: set<string>)
    requires Accepts(ibs, tag) && own != "" && own !in added
    requires forall r :: r in users ==> Done(ibs, tag, r, {own} + added)
    ensures (forall r :: r in users ==> Done(ibs, tag, r, added)) <==>
            forall r :: r in users && Trim(r.username) == own ==> !Writable(r.stored)
  {
    hide Trim, Writable, Accepts;
  }

  lemma SomebodyMissing(dir: seq<Named>, tag: string, users: seq<Row>, identities: set<string>)
    requires SyncUsers(dir, tag, users, identities).added > 0
    ensures !forall r :: r in users ==> Trim(r.username) == "" || Trim(r.username) in identities || !Writable(r.stored)
  {
    hide SyncUsers, Trim, Writable, Accepts, Flat;
    NothingToDo(dir, tag, users, identities);
  }

  /** A sync writes nothing exactly when every listed user is done. */
  lemma {:induction false} NothingToDo(dir: seq<Named>, tag: string, users: seq<Row>, identities: set<string>)
    ensures SyncUsers(dir, tag, users, identities).added == 0 <==>
            forall r :: r in users ==> Done(Flat(dir), tag, r, identities)
    ensures SyncUsers(dir, tag, users, identities).added == 0 ==> SyncUsers(dir, tag, users, identities).dir == dir
    decreases |users|
  {
    hide Trim, Flat, AddExisting, Writable, Accepts;
    if users != [] {
      var r, rest := users[0], users[1..];
      assert users == [r] + rest;
      assert r in users;
      AddExistingFlat(dir, tag, Trim(r.username), r.stored);
      Text.TrimIdempotent(r.username);
      NothingToDo(dir, tag, rest, identities);
    }
  }

  /** Distinct identities that are the known ones stay distinct and stay the known ones. */
  lemma DistinctStaysDistinct(dir: seq<Named>, tag: string, users: seq<Row>, identities: set<string>)
    requires Accepts(Flat(dir), tag)
    requires var items := ClientsOf(Flat(dir)[Position(Flat(dir), tag)].settings);
             AllNamed(items) && |Emails(items)| == |items| && Emails(items) == identities
    ensures var o := SyncUsers(dir, tag, users, identities);
            && Accepts(Flat(o.dir), tag)
            && var items := ClientsOf(Flat(o.dir)[Position(Flat(o.dir), tag)].settings);
               AllNamed(items) && |Emails(items)| == |items| && Emails(items) == o.identities
  {
    hide SyncUsers, Flat, Trim, HasTag;
    var o := SyncUsers(dir, tag, users, identities);
    var new_ := SyncConserves(dir, tag, users, identities);
    var ibs, p := Flat(dir), Position(Flat(dir), tag);
    if new_ != [] {
      assert forall k :: 0 <= k < |ibs| && k != p ==> Flat(o.dir)[k] == ibs[k];
      WithClientsTag(ibs[p], Some(ClientsOf(ibs[p].settings) + new_), tag);
      PositionIs(Flat(o.dir), tag, p);
      var items := ClientsOf(ibs[p].settings);
      assert Emails(items + new_) == Emails(items) + Emails(new_);
    }
  }

  lemma WithClientsTag(ib: Inbound, clients: Option<seq<Item>>, tag: string)
    requires ib.Inbound? && ib.settings.Settings?
    ensures HasTag(WithClients(ib, clients), tag) == HasTag(ib, tag)
  {
  }
}
