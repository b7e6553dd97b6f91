/** Persisting one user, finding who an inbound has, and the error that is reported, case by case. */
module RestoreCases {
  import opened ConfigFile
  import opened Credentials
  import opened Options
  import opened Restore
  import opened RestoreResults
  import opened Text

  // ----- one user -----

  lemma {:induction false} AddInFails(dir: seq<Named>, tag: string, c: Item)
    requires Found(dir, tag) && !Accepts(Flat(dir), tag)
    ensures AddIn(dir, tag, c) == Err(InboundWithoutSettings)
  {
    hide Position, Accepts, Add, Flat;
    FlatHead(dir);
    AcceptsConcat(dir[0].file.inbounds, Flat(dir[1..]), tag, c);
    if Holds(dir[0].file, tag) {
      AddFails(dir[0].file, tag, c);
    } else {
      AddInFails(dir[1..], tag, c);
    }
  }

  lemma FlatHead(dir: seq<Named>)
    requires dir != []
    ensures Flat(dir) == dir[0].file.inbounds + Flat(dir[1..])
  {
  }

  lemma AddFails(f: File, tag: string, c: Item)
    requires Holds(f, tag) && !Accepts(f.inbounds, tag)
    ensures Add(f, tag, c) == Err(InboundWithoutSettings)
  {
    hide Trim;
  }

  /** Whether a credential has a form in client lists. */
  predicate HasForm(s: Stored) {
    && s.Stored?
    && (Lower(s.protocol) == "vless" || Lower(s.protocol) == "vmess" || Lower(s.protocol) == "trojan" || Lower(s.protocol) == "shadowsocks")
  }

  /** Main result: persisting a user, for every directory: a blank name, an unknown tag, a credential without a form and
      an inbound without settings are errors, in this order, and otherwise the credential's form, under the trimmed
      name, comes after the clients already in the first inbound with the tag, and every other inbound stays. */
  lemma AddExistingExactly(dir: seq<Named>, tag: string, username: string, s: Stored)
    ensures var name, r := Trim(username), AddExisting(dir, tag, username, s);
            && (name == "" ==> r == Err(NoIdentity))
            && (name != "" && Untagged(Flat(dir), tag) ==> r == Err(NoSuchInbound))
            && forall i: nat :: name != "" && FirstTagged(Flat(dir), tag, i) ==>
                 var ib := Flat(dir)[i];
                 if !HasForm(s) then r == Err(NotWritable)
                 else if ib.settings.NoSettings? then r == Err(InboundWithoutSettings)
                 else
                   var before := if ib.settings.clients.Some? then ib.settings.clients.value else [];
                   && ToItem(s, name).Some? && r.Ok?
                   && Flat(r.value) == Flat(dir)[i := ib.(settings := ib.settings.(clients := Some(before + [ToItem(s, name).value])))]
  {
    hide Trim, Position, FirstTagged, Untagged, AddIn, ToItem, Writable, Flat, HasForm;
    var name, ibs := Trim(username), Flat(dir);
    UntaggedIs(ibs, tag);
    WritableIs(s);
    WritableIffItem(s, name);
    AddInFlat(dir, tag, Alien(""));
    AddExistingFlat(dir, tag, username, s);
    if Found(dir, tag) && !Accepts(ibs, tag) && ToItem(s, name).Some? {
      AddInFails(dir, tag, ToItem(s, name).value);
    }
    forall i: nat | FirstTagged(ibs, tag, i)
      ensures Position(ibs, tag) == i && i < |ibs| && ibs[i].Inbound?
    {
      FirstTaggedIs(ibs, tag, i);
      FirstTaggedBounds(ibs, tag, i);
    }
  }

  lemma WritableIs(s: Stored)
    ensures Writable(s) <==> HasForm(s)
  {
    hide Lower;
  }

  // ----- who an inbound has -----

  /** The first object of the list with this trimmed tag and a port that can be read. */
  predicate FirstServing(ibs: seq<Inbound>, tag: string, i: nat) {
    && i < |ibs| && Serving(ibs[i], tag)
    && forall k :: 0 <= k < i ==> !Serving(ibs[k], tag)
  }

  predicate Serving(ib: Inbound, tag: string) {
    ib.Inbound? && Trim(ib.tag) == tag && ib.port.Some?
  }

  /** The identities are the non-blank names of the clients read from that inbound, and unknown without it. */
  lemma {:induction false} ExistingExactly(ibs: seq<Inbound>, tag: string)
    ensures ExistingIdentities(ibs, tag).None? <==> forall k :: 0 <= k < |ibs| ==> !Serving(ibs[k], tag)
    ensures forall i: nat :: FirstServing(ibs, tag, i) ==>
              && ibs[i].Inbound?
              && ExistingIdentities(ibs, tag).Some?
              && forall id :: id in ExistingIdentities(ibs, tag).value <==>
                   id != "" && exists p :: p in Extract(ibs[i], map[]) && p.identity == id
  {
    hide Trim, Extract;
    if ibs != [] {
      ExistingExactly(ibs[1..], tag);
      assert forall k :: 0 < k < |ibs| ==> ibs[k] == ibs[1..][k - 1];
      if Readable(ibs[0], tag) {
        assert Serving(ibs[0], tag);
        assert forall id :: id in Identities(Extract(ibs[0], map[])) <==>
          id != "" && exists p :: p in Extract(ibs[0], map[]) && p.identity == id;
      } else {
        assert !Serving(ibs[0], tag);
        forall i: nat | FirstServing(ibs, tag, i)
          ensures i > 0 && FirstServing(ibs[1..], tag, i - 1)
        {
        }
      }
    }
  }

  // ----- the reported error -----

  /** The error reported for a list of users is that of the first write that failed. */
  lemma {:induction false} FirstFailure(dir: seq<Named>, tag: string, users: seq<Row>, identities: set<string>) returns (i: nat)
    ensures i <= |users| && SyncUsers(dir, tag, users[..i], identities).failed == []
    ensures var o := SyncUsers(dir, tag, users, identities);
            if i == |users| then o.failed == [] && o.firstError == None
            else
              var u, before := Trim(users[i].username), SyncUsers(dir, tag, users[..i], identities);
              && u != "" && u !in before.identities && o.failed != [] && o.failed[0] == u && o.firstError.Some?
              && AddExisting(before.dir, tag, u, users[i].stored) == Err(o.firstError.value)
    decreases |users|
  {
    hide Trim, AddExisting;
    i := 0;
    if users != [] {
      var r, rest := users[0], users[1..];
      var u := Trim(r.username);
      if u == "" || u in identities {
        var k := FirstFailure(dir, tag, rest, identities);
        i := k + 1;
        assert users[..i][1..] == rest[..k];
      } else if AddExisting(dir, tag, u, r.stored).Ok? {
        var k := FirstFailure(AddExisting(dir, tag, u, r.stored).value, tag, rest, identities + {u});
        i := k + 1;
        assert users[..i][1..] == rest[..k];
      }
    }
  }
}
