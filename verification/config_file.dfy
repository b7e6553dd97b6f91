/** The Xray configuration files: adding a client to an inbound and removing one, by editing the tree of a file
    in place, and the lookups over the whole directory. */
module ConfigFile {
  import opened Credentials
  import opened Lists
  import opened Options
  import opened Text

  /** A file is an object with an inbounds array (rest is everything else) or a bare array. */
  datatype File = Wrapped(inbounds: seq<Inbound>, rest: string) | Bare(inbounds: seq<Inbound>)

  datatype Error = NotParsed | NoSuchInbound | InboundWithoutSettings | NoIdentity | NotWritable

  datatype Result<+T> = Ok(value: T) | Err(error: Error)

  predicate HasTag(ib: Inbound, tag: string) {
    ib.Inbound? && Trim(ib.tag) == tag
  }

  /** The position of the first inbound with this tag, or the length. */
  function Position(ibs: seq<Inbound>, tag: string): (i: nat)
    ensures i <= |ibs|
    ensures i < |ibs| ==> ibs[i].Inbound? && HasTag(ibs[i], tag)
    ensures forall k :: 0 <= k < i ==> !HasTag(ibs[k], tag)
  {
    if ibs == [] then 0 else if HasTag(ibs[0], tag) then 0 else 1 + Position(ibs[1..], tag)
  }

  /** Nothing before i has the tag and the one at i has: i is the position. */
  lemma PositionIs(ibs: seq<Inbound>, tag: string, i: nat)
    requires i <= |ibs| && (i < |ibs| ==> HasTag(ibs[i], tag)) && forall k :: 0 <= k < i ==> !HasTag(ibs[k], tag)
    ensures Position(ibs, tag) == i
  {
  }

  function WithClients(ib: Inbound, clients: Option<seq<Item>>): Inbound
    requires ib.Inbound? && ib.settings.Settings?
  {
    ib.(settings := ib.settings.(clients := clients))
  }

  /** A file whose object lists no inbounds is read a second time as a bare array, which fails. */
  predicate Unreadable(f: File) {
    f.Wrapped? && f.inbounds == []
  }

  /** A bare array is wrapped when it is written back. */
  function Rewritten(f: File, inbounds: seq<Inbound>): File {
    Wrapped(inbounds, if f.Wrapped? then f.rest else "")
  }

  function Appended(ib: Inbound, c: Item): Inbound
    requires ib.Inbound? && ib.settings.Settings?
  {
    WithClients(ib, Some(ClientsOf(ib.settings) + [c]))
  }

  function Add(f: File, tag: string, c: Item): Result<File> {
    var i := Position(f.inbounds, tag);
    if Unreadable(f) then Err(NotParsed)
    else if i == |f.inbounds| then Err(NoSuchInbound)
    else if f.inbounds[i].settings.NoSettings? then Err(InboundWithoutSettings)
    else Ok(Rewritten(f, f.inbounds[i := Appended(f.inbounds[i], c)]))
  }

  predicate Stays(email: string, c: Item) {
    c.Alien? || Trim(c.email) != email
  }

  function Staying(email: string): Item -> bool {
    (c: Item) => Stays(email, c)
  }

  function Without(email: string, items: seq<Item>): seq<Item> {
    Filter(Staying(email), items)
  }

  /** The list as it is written: an empty one as null. */
  function Listed(items: seq<Item>): Option<seq<Item>> {
    if items == [] then None else Some(items)
  }

  function Remove(f: File, tag: string, email: string): Result<File> {
    var i := Position(f.inbounds, tag);
    if Unreadable(f) then Err(NotParsed)
    else if i == |f.inbounds| then Ok(f)
    else if f.inbounds[i].settings.NoSettings? then Err(InboundWithoutSettings)
    else
      var items := ClientsOf(f.inbounds[i].settings);
      var kept := Without(email, items);
      if |kept| == |items| then Ok(f) else Ok(Rewritten(f, f.inbounds[i := WithClients(f.inbounds[i], Listed(kept))]))
  }

  // ----- the two operations as loops over the tree -----

  method AddClientToFile(f: File, tag: string, c: Item) returns (r: Result<File>)
    ensures r == Add(f, tag, c)
  {
    if Unreadable(f) {
      return Err(NotParsed);
    }
    var inbounds := f.inbounds;
    for i := 0 to |inbounds|
      invariant inbounds == f.inbounds
      invariant forall k :: 0 <= k < i ==> !HasTag(inbounds[k], tag)
    {
      if HasTag(inbounds[i], tag) {
        PositionIs(f.inbounds, tag, i);
        if inbounds[i].settings.NoSettings? {
          return Err(InboundWithoutSettings);
        }
        inbounds := inbounds[i := Appended(inbounds[i], c)];
        return Ok(Rewritten(f, inbounds));
      }
    }
    PositionIs(f.inbounds, tag, |inbounds|);
    r := Err(NoSuchInbound);
  }

  method FilterClients(items: seq<Item>, email: string) returns (filtered: seq<Item>, modified: bool)
    ensures filtered == Without(email, items)
    ensures modified <==> |filtered| < |items|
  {
    hide Trim;
    filtered, modified := [], false;
    for j := 0 to |items|
      invariant filtered + Without(email, items[j..]) == Without(email, items)
      invariant |filtered| <= j && (modified <==> |filtered| < j)
    {
      assert items[j..][1..] == items[j + 1..];
      if items[j].Item? && Trim(items[j].email) == email {
        modified := true;
      } else {
        filtered := filtered + [items[j]];
      }
    }
  }

  method RemoveClientFromFile(f: File, tag: string, email: string) returns (r: Result<File>)
    ensures r == Remove(f, tag, email)
  {
    if Unreadable(f) {
      return Err(NotParsed);
    }
    for i := 0 to |f.inbounds|
      invariant forall k :: 0 <= k < i ==> !HasTag(f.inbounds[k], tag)
    {
      var ib := f.inbounds[i];
      if HasTag(ib, tag) {
        PositionIs(f.inbounds, tag, i);
        if ib.settings.NoSettings? {
          return Err(InboundWithoutSettings);
        }
        var filtered, modified := FilterClients(ClientsOf(ib.settings), email);
        if !modified {
          return Ok(f);
        }
        return Ok(Rewritten(f, f.inbounds[i := WithClients(ib, Listed(filtered))]));
      }
    }
    PositionIs(f.inbounds, tag, |f.inbounds|);
    r := Ok(f);
  }

  // ----- the two operations, case by case -----

  /** The first object of the list whose trimmed tag is this one. */
  predicate FirstTagged(ibs: seq<Inbound>, tag: string, i: nat) {
    && i < |ibs| && ibs[i].Inbound? && Trim(ibs[i].tag) == tag
    && forall k :: 0 <= k < i ==> ibs[k].Junk? || Trim(ibs[k].tag) != tag
  }

  predicate Untagged(ibs: seq<Inbound>, tag: string) {
    forall k :: 0 <= k < |ibs| ==> ibs[k].Junk? || Trim(ibs[k].tag) != tag
  }

  /** The file is an object without inbounds. */
  predicate Hollow(f: File) {
    f.Wrapped? && |f.inbounds| == 0
  }

  lemma FirstTaggedIs(ibs: seq<Inbound>, tag: string, i: nat)
    requires FirstTagged(ibs, tag, i)
    ensures Position(ibs, tag) == i
  {
    hide Trim;
    PositionIs(ibs, tag, i);
  }

  lemma UntaggedIs(ibs: seq<Inbound>, tag: string)
    ensures Untagged(ibs, tag) <==> Position(ibs, tag) == |ibs|
    ensures Untagged(ibs, tag) || FirstTagged(ibs, tag, Position(ibs, tag))
  {
    hide Trim, Position;
    if Untagged(ibs, tag) {
      PositionIs(ibs, tag, |ibs|);
    }
  }

  /** Main result: what adding a client does, for every file and tag: two errors that depend on the file, and at the
      first inbound with the tag an error without settings, and otherwise the client after those already there. */
  lemma AddExactly(f: File, tag: string, c: Item)
    ensures Hollow(f) ==> Add(f, tag, c) == Err(NotParsed)
    ensures !Hollow(f) && Untagged(f.inbounds, tag) ==> Add(f, tag, c) == Err(NoSuchInbound)
    ensures Hollow(f) || Untagged(f.inbounds, tag) || exists i: nat :: FirstTagged(f.inbounds, tag, i)
    ensures forall i: nat :: FirstTagged(f.inbounds, tag, i) ==>
              var ib := f.inbounds[i];
              && (ib.settings.NoSettings? ==> Add(f, tag, c) == Err(InboundWithoutSettings))
              && (ib.settings.Settings? ==>
                    var before := if ib.settings.clients.Some? then ib.settings.clients.value else [];
                    var after := ib.(settings := ib.settings.(clients := Some(before + [c])));
                    Add(f, tag, c) == Ok(Wrapped(f.inbounds[i := after], if f.Wrapped? then f.rest else "")))
  {
    hide Trim, Position, FirstTagged, Untagged;
    UntaggedIs(f.inbounds, tag);
    forall i: nat | FirstTagged(f.inbounds, tag, i)
      ensures Position(f.inbounds, tag) == i && i < |f.inbounds|
    {
      FirstTaggedIs(f.inbounds, tag, i);
      FirstTaggedBounds(f.inbounds, tag, i);
    }
  }

  lemma FirstTaggedBounds(ibs: seq<Inbound>, tag: string, i: nat)
    requires FirstTagged(ibs, tag, i)
    ensures i < |ibs| && ibs[i].Inbound?
  {
  }

  /** A list element that is no client object of this identity. */
  function Another(email: string): Item -> bool {
    (c: Item) => !(c.Item? && Trim(c.email) == email)
  }

  /** Main result: what removing an identity does: nothing without the tag or without a client of that identity at the
      first inbound with it, and otherwise exactly those clients are gone, with null for an empty list. */
  lemma RemoveExactly(f: File, tag: string, email: string)
    ensures Hollow(f) ==> Remove(f, tag, email) == Err(NotParsed)
    ensures !Hollow(f) && Untagged(f.inbounds, tag) ==> Remove(f, tag, email) == Ok(f)
    ensures forall i: nat :: FirstTagged(f.inbounds, tag, i) ==>
              var ib := f.inbounds[i];
              && (ib.settings.NoSettings? ==> Remove(f, tag, email) == Err(InboundWithoutSettings))
              && (ib.settings.Settings? ==>
                    var before := if ib.settings.clients.Some? then ib.settings.clients.value else [];
                    var others := Filter(Another(email), before);
                    var after := ib.(settings := ib.settings.(clients := if others == [] then None else Some(others)));
                    Remove(f, tag, email) ==
                    if forall c :: c in before && c.Item? ==> Trim(c.email) != email then Ok(f)
                    else Ok(Wrapped(f.inbounds[i := after], if f.Wrapped? then f.rest else "")))
  {
    hide Trim, Position, FirstTagged, Untagged, Filter;
    UntaggedIs(f.inbounds, tag);
    forall i: nat | FirstTagged(f.inbounds, tag, i)
      ensures Position(f.inbounds, tag) == i && i < |f.inbounds| && f.inbounds[i].Inbound?
      ensures var items := ClientsOf(f.inbounds[i].settings);
              && Without(email, items) == Filter(Another(email), items)
              && (|Without(email, items)| == |items| <==> forall c :: c in items && c.Item? ==> Trim(c.email) != email)
    {
      FirstTaggedIs(f.inbounds, tag, i);
      FirstTaggedBounds(f.inbounds, tag, i);
      var items := ClientsOf(f.inbounds[i].settings);
      FilterSame(Staying(email), Another(email), items);
      FilterAllExactly(Staying(email), items);
    }
  }

  // ----- framing -----

  /** g differs from f at most in the client list of inbound i, and in being wrapped. */
  predicate OnlyClients(f: File, g: File, i: nat) {
    && |g.inbounds| == |f.inbounds| && i < |f.inbounds|
    && (forall k :: 0 <= k < |f.inbounds| && k != i ==> g.inbounds[k] == f.inbounds[k])
    && f.inbounds[i].Inbound? && f.inbounds[i].settings.Settings?
    && g.inbounds[i].Inbound? && g.inbounds[i].settings.Settings?
    && g.inbounds[i] == WithClients(f.inbounds[i], g.inbounds[i].settings.clients)
    && (f.Wrapped? ==> g.Wrapped? && g.rest == f.rest)
  }

  /** Both operations leave every other inbound and every other key as they were. */
  lemma EditsOnlyTheClients(f: File, tag: string, c: Item, email: string)
    ensures Add(f, tag, c).Ok? ==> OnlyClients(f, Add(f, tag, c).value, Position(f.inbounds, tag))
    ensures Remove(f, tag, email).Ok? ==>
              Remove(f, tag, email).value == f || OnlyClients(f, Remove(f, tag, email).value, Position(f.inbounds, tag))
  {
  }

  lemma StaysNot(c: Item)
    requires c.Item?
    ensures !Stays(Trim(c.email), c)
  {
  }

  lemma RemoveResult(g: File, tag: string, email: string, i: nat)
    requires i < |g.inbounds| && i == Position(g.inbounds, tag) && g.inbounds[i].Inbound? && g.inbounds[i].settings.Settings?
    requires |Without(email, ClientsOf(g.inbounds[i].settings))| < |ClientsOf(g.inbounds[i].settings)|
    ensures Remove(g, tag, email) ==
            Ok(Rewritten(g, g.inbounds[i := WithClients(g.inbounds[i], Listed(Without(email, ClientsOf(g.inbounds[i].settings))))]))
  {
  }

  /** Main result: after adding a client, removing its identity gives back the inbound's client list (as null
      when it was empty) exactly when the list held no client of that identity before; every other inbound and
      key is as it was. */
  lemma RemoveUndoesAdd(f: File, tag: string, c: Item)
    requires c.Item? && Add(f, tag, c).Ok?
    ensures var i, r := Position(f.inbounds, tag), Remove(Add(f, tag, c).value, tag, Trim(c.email));
            && r.Ok? && OnlyClients(f, r.value, i)
            && (r.value.inbounds[i].settings.clients == Listed(ClientsOf(f.inbounds[i].settings)) <==>
                forall d :: d in ClientsOf(f.inbounds[i].settings) ==> Stays(Trim(c.email), d))
  {
    hide Trim, Filter, Stays, Remove, Position;
    assert !Stays(Trim(c.email), c) by {
      StaysNot(c);
    }
    var i, g, email := Position(f.inbounds, tag), Add(f, tag, c).value, Trim(c.email);
    var items := ClientsOf(f.inbounds[i].settings);
    PositionIs(g.inbounds, tag, i);
    assert ClientsOf(g.inbounds[i].settings) == items + [c];
    FilterAppend(Staying(email), items, c);
    assert Without(email, items + [c]) == Without(email, items) + [] == Without(email, items);
    FilterAllExactly(Staying(email), items);
    RemoveResult(g, tag, email, i);
  }

  /** After a successful removal no client of the first inbound with the tag has the identity, and the other
      clients are all still there, in order. */
  lemma RemoveIsComplete(f: File, tag: string, email: string)
    requires Remove(f, tag, email).Ok? && Position(f.inbounds, tag) < |f.inbounds|
    ensures var i, g := Position(f.inbounds, tag), Remove(f, tag, email).value;
            && i < |g.inbounds| && g.inbounds[i].Inbound?
            && ClientsOf(g.inbounds[i].settings) == Without(email, ClientsOf(f.inbounds[i].settings))
            && forall c :: c in ClientsOf(g.inbounds[i].settings) ==> Stays(email, c)
  {
    hide Trim;
    var i := Position(f.inbounds, tag);
    FilterMembers(Staying(email), ClientsOf(f.inbounds[i].settings));
    FilterAllExactly(Staying(email), ClientsOf(f.inbounds[i].settings));
  }
}
