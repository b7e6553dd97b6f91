/** Node rows and user placement: the startup reconcile of the node table, the backfill, explicit placement,
    and the expansion of a user's clients to the endpoints of the nodes they are placed on. */
module Placement {
  import opened Generator
  import opened Lists
  import opened Options
  import opened Text

  datatype Settings = Settings(apiAddr: string, inboundTag: string, host: string, port: int, enabled: bool)

  /** A node as the configuration file describes it. */
  datatype Spec = Spec(name: string, settings: Settings)

  datatype Row = Row(id: nat, settings: Settings)

  /** nodes is keyed by the unique name; placements pairs user ids with node ids. */
  datatype Tables = Tables(nodes: map<string, Row>, nextId: nat, users: set<nat>, placements: set<(nat, nat)>)

  /** Ids are unique and below the counter, and placements refer to rows that exist. */
  ghost predicate Sound(t: Tables) {
    && (forall n :: n in t.nodes ==> t.nodes[n].id < t.nextId)
    && (forall m, n :: m in t.nodes && n in t.nodes && t.nodes[m].id == t.nodes[n].id ==> m == n)
    && (forall p :: p in t.placements ==> p.0 in t.users && p.1 in NodeIds(t))
  }

  function NodeIds(t: Tables): set<nat> {
    set n | n in t.nodes :: t.nodes[n].id
  }

  function EnabledIds(t: Tables): set<nat> {
    set n | n in t.nodes && t.nodes[n].settings.enabled :: t.nodes[n].id
  }

  function NodesOf(t: Tables, user: nat): set<nat> {
    set p | p in t.placements && p.0 == user :: p.1
  }

  // ----- startup -----

  function Upsert(t: Tables, s: Spec): Tables {
    if s.name in t.nodes then t.(nodes := t.nodes[s.name := t.nodes[s.name].(settings := s.settings)])
    else t.(nodes := t.nodes[s.name := Row(t.nextId, s.settings)], nextId := t.nextId + 1)
  }

  function UpsertAll(t: Tables, desired: seq<Spec>): Tables
    decreases |desired|
  {
    if desired == [] then t else UpsertAll(Upsert(t, desired[0]), desired[1..])
  }

  function Names(desired: seq<Spec>): set<string> {
    set s | s in desired :: s.name
  }

  lemma NamesAppend(desired: seq<Spec>, s: Spec)
    ensures Names(desired + [s]) == Names(desired) + {s.name}
  {
  }

  lemma NamesStep(desired: seq<Spec>, i: nat)
    requires i < |desired|
    ensures Names(desired[..i + 1]) == Names(desired[..i]) + {desired[i].name}
  {
    assert desired[..i + 1] == desired[..i] + [desired[i]];
    NamesAppend(desired[..i], desired[i]);
  }

  function Disabled(r: Row): Row {
    r.(settings := r.settings.(enabled := false))
  }

  function DisableVanished(t: Tables, keep: set<string>): Tables {
    t.(nodes := map n | n in t.nodes :: if n in keep then t.nodes[n] else Disabled(t.nodes[n]))
  }

  function Backfill(t: Tables): Tables {
    t.(placements := t.placements + set u, id | u in t.users && id in EnabledIds(t) && NodesOf(t, u) == {} :: (u, id))
  }

  function Startup(t: Tables, desired: seq<Spec>): Tables {
    Backfill(DisableVanished(UpsertAll(t, desired), Names(desired)))
  }

  /** The settings the configuration gives name; of repeated entries the last one counts. */
  function Configured(desired: seq<Spec>, name: string): Option<Settings> {
    if desired == [] then None
    else if desired[|desired| - 1].name == name then Some(desired[|desired| - 1].settings)
    else Configured(desired[..|desired| - 1], name)
  }

  lemma {:induction false} ConfiguredNames(desired: seq<Spec>, name: string)
    ensures Configured(desired, name).Some? <==> name in Names(desired)
  {
    if desired != [] {
      var k := |desired| - 1;
      ConfiguredNames(desired[..k], name);
      assert desired == desired[..k] + [desired[k]];
      assert desired[k] in desired;
    }
  }

  lemma {:induction false} UpsertAllAppend(t: Tables, desired: seq<Spec>, s: Spec)
    ensures UpsertAll(t, desired + [s]) == Upsert(UpsertAll(t, desired), s)
    decreases |desired|
  {
    if desired == [] {
      assert [s][1..] == [] && desired + [s] == [s];
    } else {
      UpsertAllAppend(Upsert(t, desired[0]), desired[1..], s);
      assert (desired + [s])[1..] == desired[1..] + [s];
    }
  }

  /** Old ids kept, every configured node present with its configured settings, every other node as it was. */
  ghost predicate Upserted(t: Tables, desired: seq<Spec>, t': Tables) {
    && t'.users == t.users && t'.placements == t.placements
    && t'.nodes.Keys == t.nodes.Keys + Names(desired)
    && (forall n :: n in t.nodes ==> t'.nodes[n].id == t.nodes[n].id)
    && forall n :: n in t'.nodes ==>
         match Configured(desired, n)
         case Some(s) => t'.nodes[n].settings == s
         case None => n in t.nodes && t'.nodes[n] == t.nodes[n]
  }

  lemma UpsertedStep(t: Tables, desired: seq<Spec>, t': Tables, s: Spec)
    requires Upserted(t, desired, t')
    ensures Upserted(t, desired + [s], Upsert(t', s))
  {
    hide Configured, Names;
    forall n
      ensures Configured(desired + [s], n) == if n == s.name then Some(s.settings) else Configured(desired, n)
    {
      ConfiguredAppend(desired, s, n);
    }
    NamesAppend(desired, s);
  }

  lemma ConfiguredAppend(desired: seq<Spec>, s: Spec, n: string)
    ensures Configured(desired + [s], n) == if n == s.name then Some(s.settings) else Configured(desired, n)
  {
    assert (desired + [s])[..|desired|] == desired;
  }

  lemma {:induction false} UpsertAllResult(t: Tables, desired: seq<Spec>)
    requires Sound(t)
    ensures Sound(UpsertAll(t, desired)) && Upserted(t, desired, UpsertAll(t, desired))
  {
    if desired != [] {
      hide Upserted, Upsert, UpsertAll, Sound;
      var k := |desired| - 1;
      UpsertAllResult(t, desired[..k]);
      UpsertAllAppend(t, desired[..k], desired[k]);
      assert desired == desired[..k] + [desired[k]];
      UpsertSound(UpsertAll(t, desired[..k]), desired[k]);
      UpsertedStep(t, desired[..k], UpsertAll(t, desired[..k]), desired[k]);
    }
  }

  lemma UpsertSound(t: Tables, s: Spec)
    requires Sound(t)
    ensures Sound(Upsert(t, s))
  {
    var t' := Upsert(t, s);
    forall id | id in NodeIds(t)
      ensures id in NodeIds(t')
    {
      var n :| n in t.nodes && t.nodes[n].id == id;
      assert n in t'.nodes && t'.nodes[n].id == id;
    }
  }

  /** Main result: a startup keeps every node with its id, every user and every placement; it leaves enabled
      exactly the nodes the configuration enables, with exactly the configured settings. */
  lemma StartupNodes(t: Tables, desired: seq<Spec>)
    requires Sound(t)
    ensures var t' := Startup(t, desired);
            && t'.users == t.users && t.placements <= t'.placements
            && t'.nodes.Keys == t.nodes.Keys + Names(desired)
            && (forall n :: n in t.nodes ==> t'.nodes[n].id == t.nodes[n].id)
            && forall n :: n in t'.nodes ==>
                 match Configured(desired, n)
                 case Some(s) => t'.nodes[n].settings == s
                 case None => n in t.nodes && t'.nodes[n].settings == t.nodes[n].settings.(enabled := false)
  {
    UpsertAllResult(t, desired);
    forall n
      ensures Configured(desired, n).Some? <==> n in Names(desired)
    {
      ConfiguredNames(desired, n);
    }
  }

  lemma StartupSound(t: Tables, desired: seq<Spec>)
    requires Sound(t)
    ensures Sound(Startup(t, desired))
  {
    UpsertAllResult(t, desired);
    var u := UpsertAll(t, desired);
    var d := DisableVanished(u, Names(desired));
    assert forall n :: n in u.nodes ==> n in d.nodes && d.nodes[n].id == u.nodes[n].id;
    assert NodeIds(d) == NodeIds(u);
    assert NodeIds(Startup(t, desired)) == NodeIds(d);
    assert EnabledIds(d) <= NodeIds(d);
  }

  /** The last entry of this name in the configuration enables the node. */
  predicate ConfiguredOn(desired: seq<Spec>, name: string) {
    Configured(desired, name).Some? && Configured(desired, name).value.enabled
  }

  /** Main result: a startup leaves the nodes of a placed user as they were, and puts every unplaced user on
      exactly the nodes the configuration enables. */
  lemma StartupPlacement(t: Tables, desired: seq<Spec>, user: nat)
    requires Sound(t) && user in t.users
    ensures var t' := Startup(t, desired);
            forall id :: (user, id) in t'.placements <==>
              if exists was :: (user, was) in t.placements then (user, id) in t.placements
              else exists n :: n in t'.nodes && t'.nodes[n].id == id && ConfiguredOn(desired, n)
  {
    UpsertAllResult(t, desired);
    BackfillPlacement(DisableVanished(UpsertAll(t, desired), Names(desired)), user);
    assert NodesOf(DisableVanished(UpsertAll(t, desired), Names(desired)), user) == NodesOf(t, user);
    StartupNodes(t, desired);
    var t' := Startup(t, desired);
    EnabledAre(t, desired);
    assert forall id :: id in NodesOf(t', user) <==> (user, id) in t'.placements;
    assert forall id :: id in NodesOf(t, user) <==> (user, id) in t.placements;
  }

  lemma EnabledAre(t: Tables, desired: seq<Spec>)
    requires Sound(t)
    ensures var t' := Startup(t, desired);
            forall id :: id in EnabledIds(t') <==> exists n :: n in t'.nodes && t'.nodes[n].id == id && ConfiguredOn(desired, n)
  {
    hide Startup, Configured, Names;
    StartupNodes(t, desired);
    var t' := Startup(t, desired);
    assert forall n :: n in t'.nodes ==> (t'.nodes[n].settings.enabled <==> ConfiguredOn(desired, n));
  }

  lemma BackfillPlacement(t: Tables, user: nat)
    requires user in t.users
    ensures NodesOf(Backfill(t), user) == if NodesOf(t, user) != {} then NodesOf(t, user) else EnabledIds(t)
    ensures EnabledIds(Backfill(t)) == EnabledIds(t)
  {
    var t' := Backfill(t);
    var want := if NodesOf(t, user) != {} then NodesOf(t, user) else EnabledIds(t);
    forall id
      ensures id in NodesOf(t', user) <==> id in want
    {
      assert id in NodesOf(t', user) <==> (user, id) in t'.placements;
      assert id in NodesOf(t, user) <==> (user, id) in t.placements;
    }
  }

  /** Main result: a second startup with the same configuration changes nothing. */
  lemma StartupIdempotent(t: Tables, desired: seq<Spec>)
    requires Sound(t)
    ensures Startup(Startup(t, desired), desired) == Startup(t, desired)
  {
    hide Sound, Upsert, Backfill, Upserted;
    var t1 := Startup(t, desired);
    StartupNodes(t, desired);
    StartupSound(t, desired);
    UpsertKnown(t1, desired);
    UpsertAllResult(t1, desired);
    SameNodes(t1, desired, UpsertAll(t1, desired));
    BackfillTwice(DisableVanished(UpsertAll(t, desired), Names(desired)));
  }

  /** Upserting and disabling once more, when the configured settings are already in place. */
  lemma SameNodes(t: Tables, desired: seq<Spec>, t': Tables)
    requires Upserted(t, desired, t') && t'.nextId == t.nextId && Names(desired) <= t.nodes.Keys
    requires forall n :: n in t.nodes ==>
               match Configured(desired, n)
               case Some(s) => t.nodes[n].settings == s
               case None => !t.nodes[n].settings.enabled
    ensures DisableVanished(t', Names(desired)) == t
  {
    var d := DisableVanished(t', Names(desired));
    forall n | n in t.nodes
      ensures d.nodes[n] == t.nodes[n]
    {
      ConfiguredNames(desired, n);
    }
    assert d.nodes == t.nodes;
  }

  lemma {:induction false} UpsertKnown(t: Tables, desired: seq<Spec>)
    requires Names(desired) <= t.nodes.Keys
    ensures UpsertAll(t, desired).nextId == t.nextId
    decreases |desired|
  {
    if desired != [] {
      assert desired[0] in desired && desired[0].name in Names(desired);
      forall name | name in Names(desired[1..])
        ensures name in Names(desired)
      {
      }
      UpsertKnown(Upsert(t, desired[0]), desired[1..]);
    }
  }

  lemma BackfillTwice(t: Tables)
    ensures Backfill(Backfill(t)) == Backfill(t)
  {
    var t' := Backfill(t);
    forall u | u in t'.users && EnabledIds(t') != {}
      ensures NodesOf(t', u) != {}
    {
      BackfillPlacement(t, u);
    }
    assert Backfill(t').placements == t'.placements;
  }

  // ----- all runs -----

  /** SetNodes is the placement transaction, which a dangling reference rolls back. */
  datatype Event =
    | Boot(desired: seq<Spec>)
    | SetNodes(user: nat, ids: seq<nat>)
    | Unplace(user: nat, id: nat)
    | NewUser(user: nat)
    | DropUser(user: nat)

  function Placed(t: Tables, user: nat, ids: seq<nat>): Tables {
    if (forall id :: id in ids ==> id in NodeIds(t)) && (ids == [] || user in t.users) then
      t.(placements := (set p | p in t.placements && p.0 != user) + set id | id in ids :: (user, id))
    else t
  }

  function After(t: Tables, e: Event): Tables {
    match e
    case Boot(desired) => Startup(t, desired)
    case SetNodes(user, ids) => Placed(t, user, ids)
    case Unplace(user, id) => t.(placements := t.placements - {(user, id)})
    case NewUser(user) => t.(users := t.users + {user})
    case DropUser(user) => t.(users := t.users - {user}, placements := set p | p in t.placements && p.0 != user)
  }

  function AfterAll(t: Tables, events: seq<Event>): Tables
    decreases |events|
  {
    if events == [] then t else AfterAll(After(t, events[0]), events[1..])
  }

  lemma AfterSound(t: Tables, e: Event)
    requires Sound(t)
    ensures Sound(After(t, e))
    ensures forall n :: n in t.nodes ==> n in After(t, e).nodes && After(t, e).nodes[n].id == t.nodes[n].id
  {
    if e.Boot? {
      StartupNodes(t, e.desired);
      StartupSound(t, e.desired);
    } else {
      assert NodeIds(After(t, e)) == NodeIds(t);
    }
  }

  ghost predicate IsNode(t: Tables, id: nat) {
    exists n :: n in t.nodes && t.nodes[n].id == id
  }

  /** Placing a user on nodes puts them on exactly those when all of them exist, and the user too unless the list is
      empty, and otherwise changes nothing; the placements of others, the nodes and the users stay in either case. */
  lemma SetNodesIs(t: Tables, user: nat, ids: seq<nat>)
    ensures var t' := After(t, SetNodes(user, ids));
            && t'.nodes == t.nodes && t'.users == t.users
            && (forall p: (nat, nat) :: p.0 != user ==> (p in t'.placements <==> p in t.placements))
            && if (forall id :: id in ids ==> IsNode(t, id)) && (ids == [] || user in t.users)
               then forall id :: (user, id) in t'.placements <==> id in ids
               else t'.placements == t.placements
  {
    assert forall id :: id in NodeIds(t) <==> IsNode(t, id);
  }

  /** Main result: over any run of restarts, placement changes and user changes, a node name never disappears
      and never changes its id, ids stay unique, and no placement dangles. */
  lemma {:induction false} NodeIdsForever(t: Tables, events: seq<Event>)
    requires Sound(t)
    ensures Sound(AfterAll(t, events))
    ensures forall n :: n in t.nodes ==> n in AfterAll(t, events).nodes && AfterAll(t, events).nodes[n].id == t.nodes[n].id
    decreases |events|
  {
    if events != [] {
      hide Sound, After;
      AfterSound(t, events[0]);
      NodeIdsForever(After(t, events[0]), events[1..]);
    }
  }

  predicate MayUnplace(e: Event, user: nat) {
    match e
    case SetNodes(u, _) => u == user
    case Unplace(u, _) => u == user
    case DropUser(u) => u == user
    case _ => false
  }

  /** Only an explicit operation on the user takes a placement away; restarts never do. */
  lemma {:induction false} PlacementsLast(t: Tables, events: seq<Event>, user: nat, id: nat)
    requires Sound(t) && (user, id) in t.placements
    requires forall e :: e in events ==> !MayUnplace(e, user)
    ensures (user, id) in AfterAll(t, events).placements
    decreases |events|
  {
    if events != [] {
      assert events[0] in events;
      AfterSound(t, events[0]);
      if events[0].Boot? {
        StartupNodes(t, events[0].desired);
      }
      PlacementsLast(After(t, events[0]), events[1..], user, id);
    }
  }

  // ----- the tables as the code updates them -----

  class Store {
    var nodes: map<string, Row>
    var nextId: nat
    var users: set<nat>
    var placements: set<(nat, nat)>

    function View(): Tables
      reads this
    {
      Tables(nodes, nextId, users, placements)
    }

    method UpsertNode(s: Spec) returns (id: nat)
      modifies this`nodes, this`nextId
      ensures View() == Upsert(old(View()), s)
      ensures s.name in nodes && id == nodes[s.name].id
    {
      if s.name in nodes {
        nodes := nodes[s.name := nodes[s.name].(settings := s.settings)];
      } else {
        nodes, nextId := nodes[s.name := Row(nextId, s.settings)], nextId + 1;
      }
      id := nodes[s.name].id;
    }

    method ReconcileNodes(desired: seq<Spec>)
      modifies this`nodes, this`nextId
      ensures View() == DisableVanished(UpsertAll(old(View()), desired), Names(desired))
    {
      var keep: set<string> := {};
      for i := 0 to |desired|
        invariant UpsertAll(View(), desired[i..]) == UpsertAll(old(View()), desired)
        invariant keep == Names(desired[..i])
      {
        hide Names, Upserted;
        assert desired[i..][1..] == desired[i + 1..];
        NamesStep(desired, i);
        var _ := UpsertNode(desired[i]);
        keep := keep + {desired[i].name};
      }
      assert desired[..|desired|] == desired;
      ghost var upserted := View();
      var existing := nodes.Keys;
      while existing != {}
        invariant existing <= nodes.Keys && nodes.Keys == upserted.nodes.Keys
        invariant nextId == upserted.nextId && users == upserted.users && placements == upserted.placements
        invariant forall n :: n in nodes ==>
                    nodes[n] == if n in keep || n in existing then upserted.nodes[n] else Disabled(upserted.nodes[n])
        decreases |existing|
      {
        var n :| n in existing;
        existing := existing - {n};
        if n !in keep && nodes[n].settings.enabled {
          nodes := nodes[n := Disabled(nodes[n])];
        }
      }
    }

    /** One INSERT ... SELECT over users and enabled nodes. */
    method BackfillUserNodesToEnabled()
      modifies this`placements
      ensures View() == Backfill(old(View()))
      ensures forall u :: u in users ==>
                NodesOf(View(), u) == if NodesOf(old(View()), u) != {} then NodesOf(old(View()), u) else EnabledIds(View())
    {
      forall u | u in users
        ensures NodesOf(Backfill(View()), u) == if NodesOf(View(), u) != {} then NodesOf(View(), u) else EnabledIds(Backfill(View()))
      {
        BackfillPlacement(View(), u);
      }
      var t := View();
      placements := placements + set u, id | u in users && id in EnabledIds(t) && NodesOf(t, u) == {} :: (u, id);
    }

    method ReconcileAtStartup(desired: seq<Spec>)
      modifies this
      ensures View() == Startup(old(View()), desired)
    {
      ReconcileNodes(desired);
      BackfillUserNodesToEnabled();
    }

    /** Deletes the user's rows, then inserts one by one; the first dangling reference rolls everything back. */
    method SetUserNodes(user: nat, ids: seq<nat>) returns (ok: bool)
      modifies this`placements
      ensures View() == Placed(old(View()), user, ids)
      ensures ok <==> forall id :: id in ids ==> id in NodeIds(old(View())) && user in users
      ensures ok ==> NodesOf(View(), user) == set id | id in ids
    {
      var before, known := placements, NodeIds(View());
      placements := set p | p in placements && p.0 != user;
      for i := 0 to |ids|
        invariant nodes == old(nodes) && nextId == old(nextId) && users == old(users)
        invariant placements == (set p | p in before && p.0 != user) + set id | id in ids[..i] :: (user, id)
        invariant forall id :: id in ids[..i] ==> id in known && user in users
      {
        assert ids[i] in ids;
        if ids[i] !in known || user !in users {
          placements := before;
          return false;
        }
        assert ids[..i + 1] == ids[..i] + [ids[i]];
        placements := placements + {(user, ids[i])};
      }
      assert ids[..|ids|] == ids;
      assert ids != [] ==> ids[0] in ids;
      assert placements == Placed(old(View()), user, ids).placements;
      assert forall id :: id in NodesOf(View(), user) <==> (user, id) in placements;
      ok := true;
    }
  }

  // ----- a user's clients at the endpoints of their nodes -----

  /** A row of the node listing. */
  datatype Listed = Listed(name: string, row: Row)

  /** Every row of the table once, in some order. */
  predicate IsListing(listed: seq<Listed>, t: Tables) {
    && Distinct(listed)
    && (forall l :: l in listed ==> l.name in t.nodes && t.nodes[l.name] == l.row)
    && (forall n :: n in t.nodes ==> Listed(n, t.nodes[n]) in listed)
  }

  predicate Serves(placed: set<nat>, tag: string, l: Listed) {
    l.row.settings.enabled && l.row.id in placed && l.row.settings.inboundTag == tag
  }

  function ServingAt(placed: set<nat>, tag: string): Listed -> bool {
    (l: Listed) => Serves(placed, tag, l)
  }

  function Serving(placed: set<nat>, tag: string, listed: seq<Listed>): seq<Listed> {
    Filter(ServingAt(placed, tag), listed)
  }

  function AtNode(c: Client, l: Listed): Client {
    c.(nodeHost := l.row.settings.host, nodePort := l.row.settings.port)
  }

  function AtNodes(c: Client, ls: seq<Listed>): (out: seq<Client>)
    ensures |out| == |ls| && forall i :: 0 <= i < |ls| ==> out[i] == AtNode(c, ls[i])
  {
    Map((l: Listed) => AtNode(c, l), ls)
  }

  function Expand(placed: set<nat>, listed: seq<Listed>, clients: seq<Client>): seq<Client> {
    if clients == [] then []
    else AtNodes(clients[0], Serving(placed, clients[0].inboundTag, listed)) + Expand(placed, listed, clients[1..])
  }

  function Group(byTag: map<string, seq<Listed>>, tag: string): seq<Listed> {
    if tag in byTag then byTag[tag] else []
  }

  ghost predicate Grouped(byTag: map<string, seq<Listed>>, placed: set<nat>, listed: seq<Listed>) {
    forall tag :: Group(byTag, tag) == Serving(placed, tag, listed)
  }

  lemma GroupedNone(placed: set<nat>)
    ensures Grouped(map[], placed, [])
  {
  }

  lemma GroupedAt(byTag: map<string, seq<Listed>>, placed: set<nat>, listed: seq<Listed>, tag: string)
    requires Grouped(byTag, placed, listed)
    ensures Group(byTag, tag) == Serving(placed, tag, listed)
  {
  }

  lemma GroupedStep(byTag: map<string, seq<Listed>>, placed: set<nat>, listed: seq<Listed>, l: Listed)
    requires Grouped(byTag, placed, listed)
    ensures var own := l.row.settings.inboundTag;
            var byTag' := if l.row.settings.enabled && l.row.id in placed then byTag[own := Group(byTag, own) + [l]] else byTag;
            Grouped(byTag', placed, listed + [l])
  {
    hide Filter;
    forall tag
      ensures Serving(placed, tag, listed + [l]) ==
              if Serves(placed, tag, l) then Group(byTag, tag) + [l] else Group(byTag, tag)
    {
      FilterAppend(ServingAt(placed, tag), listed, l);
    }
  }

  /** With no nodes configured, or a user without any placement, the list is returned as it is, and likewise when a
      query fails, which is None. */
  method ExpandClientsForNodes(multiNode: bool, nodeIds: Option<seq<nat>>, listed: Option<seq<Listed>>, clients: seq<Client>)
    returns (expanded: seq<Client>)
    ensures expanded ==
            if !multiNode || nodeIds.None? || nodeIds.value == [] || listed.None? then clients
            else Expand((set id | id in nodeIds.value), listed.value, clients)
  {
    hide Grouped, Serving;
    if !multiNode || nodeIds.None? || nodeIds.value == [] || listed.None? {
      return clients;
    }
    expanded := ExpandAt(nodeIds.value, listed.value, clients);
  }

  method ExpandAt(nodeIds: seq<nat>, listed: seq<Listed>, clients: seq<Client>) returns (expanded: seq<Client>)
    ensures expanded == Expand((set id | id in nodeIds), listed, clients)
  {
    hide Grouped, Serving, AtNode, Group;
    var placed := set id | id in nodeIds;
    var byTag: map<string, seq<Listed>> := map[];
    GroupedNone(placed);
    for i := 0 to |listed|
      invariant Grouped(byTag, placed, listed[..i])
    {
      var l := listed[i];
      assert listed[..i + 1] == listed[..i] + [l];
      GroupedStep(byTag, placed, listed[..i], l);
      if l.row.settings.enabled && l.row.id in placed {
        var tag := l.row.settings.inboundTag;
        byTag := byTag[tag := Group(byTag, tag) + [l]];
      }
    }
    assert listed[..|listed|] == listed;
    assert Grouped(byTag, placed, listed);
    expanded := [];
    for i := 0 to |clients|
      invariant expanded + Expand(placed, listed, clients[i..]) == Expand(placed, listed, clients)
    {
      var c, start := clients[i], expanded;
      assert clients[i..] == [c] + clients[i + 1..];
      ExpandHead(placed, listed, c, clients[i + 1..]);
      var ls := Group(byTag, c.inboundTag);
      GroupedAt(byTag, placed, listed, c.inboundTag);
      for j := 0 to |ls|
        invariant expanded == start + AtNodes(c, ls)[..j]
      {
        expanded := expanded + [AtNode(c, ls[j])];
      }
      assert expanded == start + AtNodes(c, ls);
    }
  }

  /** The enabled nodes of the table that the user is placed on and that serve the client's inbound. */
  ghost predicate Joined(t: Tables, user: nat, c: Client, name: string) {
    && name in t.nodes && t.nodes[name].settings.enabled && (user, t.nodes[name].id) in t.placements
    && t.nodes[name].settings.inboundTag == c.inboundTag
  }

  /** Which client (counted from first on) and which node each element of the expansion comes from. */
  ghost predicate ComesFrom(placed: set<nat>, listed: seq<Listed>, clients: seq<Client>, first: nat, pairs: seq<(nat, Listed)>) {
    && |pairs| == |Expand(placed, listed, clients)| && Distinct(pairs)
    && (forall k :: 0 <= k < |pairs| ==>
          && first <= pairs[k].0 < first + |clients|
          && Pair(placed, listed, clients[pairs[k].0 - first], pairs[k].1)
          && Expand(placed, listed, clients)[k] == AtNode(clients[pairs[k].0 - first], pairs[k].1))
    && forall i: nat, l :: first <= i < first + |clients| && Pair(placed, listed, clients[i - first], l) ==> (i, l) in pairs
  }

  predicate Pair(placed: set<nat>, listed: seq<Listed>, c: Client, l: Listed) {
    l in listed && Serves(placed, c.inboundTag, l)
  }

  lemma {:induction false} ExpandPairs(placed: set<nat>, listed: seq<Listed>, clients: seq<Client>, first: nat)
    returns (pairs: seq<(nat, Listed)>)
    requires Distinct(listed)
    ensures ComesFrom(placed, listed, clients, first, pairs)
    decreases |clients|
  {
    hide Serves, Filter, Expand, Distinct;
    if clients == [] {
      pairs := [];
      NoPairs(placed, listed, first);
    } else {
      hide ComesFrom;
      var c, rest := clients[0], clients[1..];
      var more := ExpandPairs(placed, listed, rest, first + 1);
      var ls := Serving(placed, c.inboundTag, listed);
      FilterMembers(ServingAt(placed, c.inboundTag), listed);
      FilterDistinct(ServingAt(placed, c.inboundTag), listed);
      pairs := seq(|ls|, k requires 0 <= k < |ls| => (first, ls[k])) + more;
      PairsHead(placed, listed, c, rest, first, ls, more, pairs);
      assert clients == [c] + rest;
    }
  }

  lemma NoPairs(placed: set<nat>, listed: seq<Listed>, first: nat)
    ensures ComesFrom(placed, listed, [], first, [])
  {
  }

  lemma ExpandHead(placed: set<nat>, listed: seq<Listed>, c: Client, rest: seq<Client>)
    ensures Expand(placed, listed, [c] + rest) == AtNodes(c, Serving(placed, c.inboundTag, listed)) + Expand(placed, listed, rest)
  {
    hide Serving;
    assert ([c] + rest)[1..] == rest;
  }

  lemma PairsHead(placed: set<nat>, listed: seq<Listed>, c: Client, rest: seq<Client>, first: nat, ls: seq<Listed>,
                  more: seq<(nat, Listed)>, pairs: seq<(nat, Listed)>)
    requires ComesFrom(placed, listed, rest, first + 1, more)
    requires ls == Serving(placed, c.inboundTag, listed) && Distinct(ls)
    requires forall l :: l in ls <==> l in listed && Serves(placed, c.inboundTag, l)
    requires |pairs| == |ls| + |more|
    requires forall k :: 0 <= k < |pairs| ==> pairs[k] == if k < |ls| then (first, ls[k]) else more[k - |ls|]
    ensures ComesFrom(placed, listed, [c] + rest, first, pairs)
  {
    hide Serves, Serving, AtNode, Expand;
    var clients := [c] + rest;
    var out := Expand(placed, listed, clients);
    ExpandHead(placed, listed, c, rest);
    forall k | 0 <= k < |pairs|
      ensures first <= pairs[k].0 < first + |clients|
      ensures Pair(placed, listed, clients[pairs[k].0 - first], pairs[k].1)
      ensures out[k] == AtNode(clients[pairs[k].0 - first], pairs[k].1)
    {
      if k < |ls| {
        assert ls[k] in ls;
      } else {
        assert clients[more[k - |ls|].0 - first] == rest[more[k - |ls|].0 - (first + 1)];
      }
    }
    forall i: nat, l | first <= i < first + |clients| && Pair(placed, listed, clients[i - first], l)
      ensures (i, l) in pairs
    {
      if i == first {
        var k :| 0 <= k < |ls| && ls[k] == l;
        assert pairs[k] == (i, l);
      } else {
        assert clients[i - first] == rest[i - (first + 1)];
        var k :| 0 <= k < |more| && more[k] == (i, l);
        assert pairs[|ls| + k] == (i, l);
      }
    }
  }

  /** Main result: the expansion of a placed user's clients is exactly the tag join of those clients with the enabled
      nodes the user is placed on: element by element a client at a joined node, every such pair exactly once. */
  lemma ExpansionIsTheJoin(t: Tables, user: nat, listed: seq<Listed>, clients: seq<Client>) returns (pairs: seq<(nat, string)>)
    requires IsListing(listed, t)
    ensures var out := Expand(NodesOf(t, user), listed, clients);
            && |pairs| == |out| && Distinct(pairs)
            && (forall k :: 0 <= k < |pairs| ==>
                  && pairs[k].0 < |clients| && Joined(t, user, clients[pairs[k].0], pairs[k].1)
                  && out[k] == AtNode(clients[pairs[k].0], Listed(pairs[k].1, t.nodes[pairs[k].1])))
            && forall i: nat, name :: i < |clients| && Joined(t, user, clients[i], name) ==> (i, name) in pairs
  {
    var placed := NodesOf(t, user);
    assert forall id :: id in placed <==> (user, id) in t.placements;
    var from := ExpandPairs(placed, listed, clients, 0);
    pairs := seq(|from|, k requires 0 <= k < |from| => (from[k].0, from[k].1.name));
    forall k | 0 <= k < |from|
      ensures from[k].0 < |clients| && Joined(t, user, clients[from[k].0], from[k].1.name)
      ensures from[k].1 == Listed(from[k].1.name, t.nodes[from[k].1.name])
    {
      assert Pair(placed, listed, clients[from[k].0 - 0], from[k].1);
    }
    forall i: nat, name | i < |clients| && Joined(t, user, clients[i], name)
      ensures (i, name) in pairs
    {
      var l := Listed(name, t.nodes[name]);
      assert Pair(placed, listed, clients[i - 0], l);
      assert (i, l) in from;
      var k :| 0 <= k < |from| && from[k] == (i, l);
      assert pairs[k] == (i, name);
    }
  }

  lemma ExpansionMembers(t: Tables, user: nat, listed: seq<Listed>, clients: seq<Client>, x: Client)
    requires IsListing(listed, t)
    ensures x in Expand(NodesOf(t, user), listed, clients) <==>
            exists c, name :: c in clients && Joined(t, user, c, name) && x == AtNode(c, Listed(name, t.nodes[name]))
  {
    hide Expand;
    var out := Expand(NodesOf(t, user), listed, clients);
    var pairs := ExpansionIsTheJoin(t, user, listed, clients);
    if x in out {
      var k :| 0 <= k < |out| && out[k] == x;
      assert clients[pairs[k].0] in clients;
    }
    if c, name :| c in clients && Joined(t, user, c, name) && x == AtNode(c, Listed(name, t.nodes[name])) {
      var i :| 0 <= i < |clients| && clients[i] == c;
      assert (i, name) in pairs;
      var k :| 0 <= k < |pairs| && pairs[k] == (i, name);
      assert out[k] == x;
    }
  }

  /** An outbound built for c, apart from its tag, points at the node where the node sets an endpoint, and
      otherwise where the client would have pointed without nodes. */
  predicate PointsAt(req: Request, ob: Outbound, c: Client, s: Settings) {
    var bare := c.(nodeHost := "", nodePort := 0);
    && ob.protocol == Lower(c.protocol)
    && ob.host == (if Trim(s.host) != "" then s.host else HostFor(req, bare))
    && ob.port == if s.port > 0 then s.port else PortFor(req, bare)
  }

  lemma {:induction false} EmittedMembers(req: Request, cs: seq<Client>, i: nat, p: Proxy)
    ensures p in Emitted(req, cs, i) ==> exists c, k :: c in cs && Buildable(c) && p == ProxyFor(req, c, k)
    decreases |cs|
  {
    if cs != [] {
      EmittedMembers(req, cs[1..], i + 1, p);
      assert cs == [cs[0]] + cs[1..];
      if p in Emitted(req, cs, i) && p !in Emitted(req, cs[1..], i + 1) {
        assert p == ProxyFor(req, cs[0], i) && cs[0] in cs;
      }
    }
  }

  lemma {:induction false} EmittedCovers(req: Request, cs: seq<Client>, i: nat, c: Client) returns (k: nat)
    requires c in cs && Buildable(c)
    ensures ProxyFor(req, c, k) in Emitted(req, cs, i)
    decreases |cs|
  {
    hide Buildable, ProxyFor;
    if c == cs[0] {
      k := i;
    } else {
      k := EmittedCovers(req, cs[1..], i + 1, c);
    }
  }

  /** Conversely, every such node, for every client that builds, has its outbound in the config. */
  lemma EveryNodeHasItsOutbound(t: Tables, user: nat, listed: seq<Listed>, clients: seq<Client>, req: Request,
                                c: Client, name: string)
    requires IsListing(listed, t)
    requires req.clients == Expand(NodesOf(t, user), listed, clients)
    requires c in clients && Joined(t, user, c, name) && Buildable(c)
    ensures exists p :: p in Proxies(req) && PointsAt(req, p.outbound, c, t.nodes[name].settings)
  {
    hide Buildable, PointsAt;
    var l := Listed(name, t.nodes[name]);
    var x := AtNode(c, l);
    ExpansionMembers(t, user, listed, clients, x);
    SplitKeepsAll(req.clients);
    assert x in multiset(req.clients);
    assert x in XHTTPFirst(req.clients);
    BuildableAnywhere(c, l);
    var k := EmittedCovers(req, XHTTPFirst(req.clients), 0, x);
    PointsAtNode(req, c, l, k);
  }

  lemma BuildableAnywhere(c: Client, l: Listed)
    ensures Buildable(AtNode(c, l)) == Buildable(c)
  {
  }

  /** Main result: every proxy outbound of a placed user's config points at an enabled node they are placed on
      that serves the client's inbound. */
  lemma EndpointsAreTheNodes(t: Tables, user: nat, listed: seq<Listed>, clients: seq<Client>, req: Request, p: Proxy)
    requires IsListing(listed, t)
    requires req.clients == Expand(NodesOf(t, user), listed, clients)
    requires p in Proxies(req)
    ensures exists c, name ::
              c in clients && Joined(t, user, c, name) && PointsAt(req, p.outbound, c, t.nodes[name].settings)
  {
    EmittedMembers(req, XHTTPFirst(req.clients), 0, p);
    var x, k :| x in XHTTPFirst(req.clients) && Buildable(x) && p == ProxyFor(req, x, k);
    SplitKeepsAll(req.clients);
    assert x in multiset(XHTTPFirst(req.clients));
    assert x in req.clients;
    ExpansionMembers(t, user, listed, clients, x);
    var c, name :| c in clients && Joined(t, user, c, name) && x == AtNode(c, Listed(name, t.nodes[name]));
    PointsAtNode(req, c, Listed(name, t.nodes[name]), k);
  }

  lemma PointsAtNode(req: Request, c: Client, l: Listed, k: nat)
    ensures PointsAt(req, ProxyFor(req, AtNode(c, l), k).outbound, c, l.row.settings)
  {
    assert Trim("") == "";
  }
}
