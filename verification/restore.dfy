/** Persisting database users to the Xray configuration files: every listed user whose identity the inbound does
    not have yet is appended to its client list. */
module Restore {
  import opened ConfigFile
  import opened Credentials
  import opened Options
  import opened Text

  /** The files of the configuration directory that parse, in directory order. */
  datatype Named = Named(name: string, file: File)

  /** The inbounds of all files, in order. */
  function Flat(dir: seq<Named>): seq<Inbound> {
    if dir == [] then [] else dir[0].file.inbounds + Flat(dir[1..])
  }

  predicate Holds(f: File, tag: string) {
    Position(f.inbounds, tag) < |f.inbounds|
  }

  predicate Found(dir: seq<Named>, tag: string) {
    dir != [] && (Holds(dir[0].file, tag) || Found(dir[1..], tag))
  }

  /** Appends to the first file that holds the tag. */
  function AddIn(dir: seq<Named>, tag: string, c: Item): Result<seq<Named>> {
    if dir == [] then Err(NoSuchInbound)
    else if Holds(dir[0].file, tag) then
      match Add(dir[0].file, tag, c)
      case Ok(f) => Ok([Named(dir[0].name, f)] + dir[1..])
      case Err(e) => Err(e)
    else
      match AddIn(dir[1..], tag, c)
      case Ok(d) => Ok([dir[0]] + d)
      case Err(e) => Err(e)
  }

  function AddExisting(dir: seq<Named>, tag: string, username: string, s: Stored): Result<seq<Named>> {
    if Trim(username) == "" then Err(NoIdentity)
    else if !Found(dir, tag) then Err(NoSuchInbound)
    else if ToItem(s, Trim(username)).None? then Err(NotWritable)
    else AddIn(dir, tag, ToItem(s, Trim(username)).value)
  }

  // ----- the flat view -----

  predicate Accepts(ibs: seq<Inbound>, tag: string) {
    var p := Position(ibs, tag);
    p < |ibs| && ibs[p].settings.Settings?
  }

  function AppendedAt(ibs: seq<Inbound>, tag: string, c: Item): seq<Inbound>
    requires Accepts(ibs, tag)
  {
    var p := Position(ibs, tag);
    ibs[p := Appended(ibs[p], c)]
  }

  lemma {:induction false} PositionConcat(a: seq<Inbound>, b: seq<Inbound>, tag: string)
    ensures Position(a + b, tag) == if Position(a, tag) < |a| then Position(a, tag) else |a| + Position(b, tag)
  {
    hide HasTag;
    var p := if Position(a, tag) < |a| then Position(a, tag) else |a| + Position(b, tag);
    forall k | 0 <= k < p
      ensures !HasTag((a + b)[k], tag)
    {
      assert (a + b)[k] == if k < |a| then a[k] else b[k - |a|];
    }
    PositionIs(a + b, tag, p);
  }

  lemma UpdateConcat<T>(a: seq<T>, b: seq<T>, i: nat, x: T)
    requires i < |a| + |b|
    ensures (a + b)[i := x] == if i < |a| then a[i := x] + b else a + b[i - |a| := x]
  {
  }

  lemma AcceptsLeft(a: seq<Inbound>, b: seq<Inbound>, tag: string, c: Item)
    requires Position(a, tag) < |a|
    ensures Accepts(a + b, tag) <==> Accepts(a, tag)
    ensures Accepts(a, tag) ==> AppendedAt(a + b, tag, c) == AppendedAt(a, tag, c) + b
  {
    hide HasTag, Position, Appended;
    PositionConcat(a, b, tag);
    var p := Position(a, tag);
    assert (a + b)[p] == a[p];
    if Accepts(a, tag) {
      UpdateConcat(a, b, p, Appended(a[p], c));
    }
  }

  lemma AcceptsRight(a: seq<Inbound>, b: seq<Inbound>, tag: string, c: Item)
    requires Position(a, tag) == |a|
    ensures Accepts(a + b, tag) <==> Accepts(b, tag)
    ensures Accepts(b, tag) ==> AppendedAt(a + b, tag, c) == a + AppendedAt(b, tag, c)
  {
    hide HasTag, Position, Appended;
    PositionConcat(a, b, tag);
    var q := Position(b, tag);
    if q < |b| {
      assert (a + b)[|a| + q] == b[q];
      if Accepts(b, tag) {
        UpdateConcat(a, b, |a| + q, Appended(b[q], c));
      }
    }
  }

  lemma AcceptsConcat(a: seq<Inbound>, b: seq<Inbound>, tag: string, c: Item)
    ensures Accepts(a + b, tag) <==> if Position(a, tag) < |a| then Accepts(a, tag) else Accepts(b, tag)
    ensures Accepts(a + b, tag) ==>
              AppendedAt(a + b, tag, c) ==
              if Position(a, tag) < |a| then AppendedAt(a, tag, c) + b else a + AppendedAt(b, tag, c)
  {
    hide Accepts, AppendedAt, Position;
    if Position(a, tag) < |a| {
      AcceptsLeft(a, b, tag, c);
    } else {
      AcceptsRight(a, b, tag, c);
    }
  }

  lemma AddToFile(f: File, tag: string, c: Item)
    requires Holds(f, tag)
    ensures Add(f, tag, c).Ok? <==> Accepts(f.inbounds, tag)
    ensures Add(f, tag, c).Ok? ==> Add(f, tag, c).value.inbounds == AppendedAt(f.inbounds, tag, c)
  {
  }

  /** The directory as a whole behaves like one flat list of inbounds. */
  lemma {:induction false} AddInFlat(dir: seq<Named>, tag: string, c: Item)
    ensures AddIn(dir, tag, c).Ok? <==> Accepts(Flat(dir), tag)
    ensures AddIn(dir, tag, c).Ok? ==> Flat(AddIn(dir, tag, c).value) == AppendedAt(Flat(dir), tag, c)
    ensures Found(dir, tag) <==> Position(Flat(dir), tag) < |Flat(dir)|
  {
    if dir == [] {
    } else {
      hide Position, Accepts, AppendedAt, Add;
      var a, b := dir[0].file.inbounds, Flat(dir[1..]);
      AddInFlat(dir[1..], tag, c);
      PositionConcat(a, b, tag);
      AcceptsConcat(a, b, tag, c);
      if Holds(dir[0].file, tag) {
        AddToFile(dir[0].file, tag, c);
        if Add(dir[0].file, tag, c).Ok? {
          assert AddIn(dir, tag, c).value[1..] == dir[1..];
        }
      } else if AddIn(dir[1..], tag, c).Ok? {
        assert AddIn(dir, tag, c).value[1..] == AddIn(dir[1..], tag, c).value;
      }
    }
  }

  // ----- identities -----

  function Identities(ps: seq<Parsed>): set<string> {
    set p | p in ps && p.identity != "" :: p.identity
  }

  predicate Readable(ib: Inbound, tag: string) {
    HasTag(ib, tag) && ib.port.Some?
  }

  /** The identities the first readable inbound with the tag has. */
  function ExistingIdentities(ibs: seq<Inbound>, tag: string): Option<set<string>> {
    if ibs == [] then None
    else if Readable(ibs[0], tag) then Some(Identities(Extract(ibs[0], map[])))
    else ExistingIdentities(ibs[1..], tag)
  }

  lemma {:induction false} ExistingConcat(a: seq<Inbound>, b: seq<Inbound>, tag: string)
    ensures ExistingIdentities(a + b, tag) ==
            if ExistingIdentities(a, tag).Some? then ExistingIdentities(a, tag) else ExistingIdentities(b, tag)
  {
    hide Readable, Extract, Identities;
    if a == [] {
      assert a + b == b;
    } else {
      ExistingConcat(a[1..], b, tag);
      assert (a + b)[0] == a[0] && (a + b)[1..] == a[1..] + b;
    }
  }

  // ----- syncing a list of users into one inbound -----

  /** A listed user: the identity passed on and the stored credential. */
  datatype Row = Row(username: string, stored: Stored)

  /** skipped counts the users passed over, which the code does not report. */
  datatype Outcome = Outcome(
    dir: seq<Named>, identities: set<string>, added: nat, failed: seq<string>, firstError: Option<Error>, skipped: nat)

  function SyncUsers(dir: seq<Named>, tag: string, users: seq<Row>, identities: set<string>): Outcome
    decreases |users|
  {
    if users == [] then Outcome(dir, identities, 0, [], None, 0)
    else
      var u := Trim(users[0].username);
      if u == "" || u in identities then
        var o := SyncUsers(dir, tag, users[1..], identities);
        o.(skipped := o.skipped + 1)
      else
        match AddExisting(dir, tag, u, users[0].stored)
        case Err(e) =>
          var o := SyncUsers(dir, tag, users[1..], identities);
          o.(failed := [u] + o.failed, firstError := Some(e))
        case Ok(d) =>
          var o := SyncUsers(d, tag, users[1..], identities + {u});
          o.(added := o.added + 1)
  }

  class ConfigDir {
    var files: seq<Named>

    method FindInbound(tag: string) returns (k: nat)
      ensures k <= |files| && (k < |files| ==> Holds(files[k].file, tag))
      ensures forall j :: 0 <= j < k ==> !Holds(files[j].file, tag)
    {
      for i := 0 to |files|
        invariant forall j :: 0 <= j < i ==> !Holds(files[j].file, tag)
      {
        for n := 0 to |files[i].file.inbounds|
          invariant forall m :: 0 <= m < n ==> !HasTag(files[i].file.inbounds[m], tag)
        {
          if HasTag(files[i].file.inbounds[n], tag) {
            PositionIs(files[i].file.inbounds, tag, n);
            return i;
          }
        }
        PositionIs(files[i].file.inbounds, tag, |files[i].file.inbounds|);
      }
      k := |files|;
    }

    /** One file is rewritten, or none when the call fails. */
    method AddExistingClientToInbound(tag: string, username: string, s: Stored) returns (error: Option<Error>)
      modifies this
      ensures match AddExisting(old(files), tag, username, s)
              case Ok(d) => error == None && files == d
              case Err(e) => error == Some(e) && files == old(files)
    {
      var name := Trim(username);
      if name == "" {
        return Some(NoIdentity);
      }
      var k := FindInbound(tag);
      AddInSplit(files, tag, k, Alien(""));
      if k == |files| {
        return Some(NoSuchInbound);
      }
      var item := ToItem(s, name);
      if item.None? {
        return Some(NotWritable);
      }
      AddInSplit(files, tag, k, item.value);
      var r := AddClientToFile(files[k].file, tag, item.value);
      match r
      case Err(e) => return Some(e);
      case Ok(f) =>
        files := files[k := Named(files[k].name, f)];
        return None;
    }

    /** The identities of the tagged inbound, over all files. */
    method GetExistingIdentitiesInInbound(tag: string) returns (r: Option<set<string>>)
      ensures r == ExistingIdentities(Flat(files), tag)
    {
      hide Readable, Extract, Identities;
      for i := 0 to |files|
        invariant ExistingIdentities(Flat(files), tag) == ExistingIdentities(Flat(files[i..]), tag)
      {
        var inbounds := files[i].file.inbounds;
        assert files[i..][1..] == files[i + 1..];
        ExistingConcat(inbounds, Flat(files[i + 1..]), tag);
        for n := 0 to |inbounds|
          invariant ExistingIdentities(inbounds, tag) == ExistingIdentities(inbounds[n..], tag)
        {
          assert inbounds[n..][1..] == inbounds[n + 1..];
          if Readable(inbounds[n], tag) {
            ReadableIsInbound(inbounds[n], tag);
            var clients := ExtractClients(inbounds[n], map[]);
            var identities := CollectIdentities(clients);
            return Some(identities);
          }
        }
      }
      r := None;
    }

    static method CollectIdentities(clients: seq<Parsed>) returns (identities: set<string>)
      ensures identities == Identities(clients)
    {
      identities := {};
      for i := 0 to |clients|
        invariant identities == Identities(clients[..i])
      {
        assert clients[..i + 1] == clients[..i] + [clients[i]];
        if clients[i].identity != "" {
          identities := identities + {clients[i].identity};
        }
      }
      assert clients[..|clients|] == clients;
    }

    method SyncDBToConfig(tag: string, users: seq<Row>, existing: set<string>)
      returns (added: nat, failed: seq<string>, firstError: Option<Error>, identities: set<string>)
      modifies this
      ensures var o := SyncUsers(old(files), tag, users, existing);
              if tag == "" then
                files == old(files) && added == 0 && failed == [] && firstError == None && identities == existing
              else
                && files == o.dir && added == o.added && failed == o.failed && firstError == o.firstError
                && identities == o.identities
    {
      added, failed, firstError, identities := 0, [], None, existing;
      if tag == "" {
        return;
      }
      ghost var whole := SyncUsers(files, tag, users, existing);
      for i := 0 to |users|
        invariant var o := SyncUsers(files, tag, users[i..], identities);
                  && whole.dir == o.dir && whole.identities == o.identities
                  && whole.added == added + o.added && whole.failed == failed + o.failed
                  && whole.firstError == if firstError.Some? then firstError else o.firstError
      {
        hide Trim, AddExisting;
        assert users[i..][1..] == users[i + 1..];
        var u := Trim(users[i].username);
        if u != "" && u !in identities {
          var error := AddExistingClientToInbound(tag, u, users[i].stored);
          if error.Some? {
            failed := failed + [u];
            if firstError.None? {
              firstError := error;
            }
          } else {
            added := added + 1;
            identities := identities + {u};
          }
        }
      }
    }
  }

  lemma ReadableIsInbound(ib: Inbound, tag: string)
    requires Readable(ib, tag)
    ensures ib.Inbound?
  {
  }

  /** AddIn works on the first file that holds the tag. */
  lemma {:induction false} AddInSplit(dir: seq<Named>, tag: string, k: nat, c: Item)
    requires k <= |dir| && (k < |dir| ==> Holds(dir[k].file, tag))
    requires forall j :: 0 <= j < k ==> !Holds(dir[j].file, tag)
    ensures Found(dir, tag) <==> k < |dir|
    ensures k < |dir| ==>
              var r := Add(dir[k].file, tag, c);
              AddIn(dir, tag, c) == if r.Ok? then Ok(dir[k := Named(dir[k].name, r.value)]) else Err(r.error)
  {
    hide Holds, Add;
    if dir != [] {
      if k == 0 {
        var r := Add(dir[0].file, tag, c);
        if r.Ok? {
          assert dir[0 := Named(dir[0].name, r.value)] == [Named(dir[0].name, r.value)] + dir[1..];
        }
      } else {
        AddInSplit(dir[1..], tag, k - 1, c);
        if k < |dir| {
          var r := Add(dir[k].file, tag, c);
          assert dir[1..][k - 1] == dir[k];
          if r.Ok? {
            var n := Named(dir[k].name, r.value);
            assert dir[k := n] == [dir[0]] + dir[1..][k - 1 := n];
          }
        }
      }
    }
  }
}
