/** One client operation applied to every node of the topology. A node is the map from identity to installed
    credential inside its running Xray. */
module Fanout {
  import opened Options

  type Identity = string
  type Credential = string
  type Node = map<Identity, Credential>

  /** How a node answers: applied, already present, already absent, or a real error, after which the
      operation may nevertheless have taken effect. */
  datatype Reply = Ok | Exists | Absent | Failed(took: bool)

  /** A node answers truthfully, and never replaces a credential it holds. */
  predicate CanAdd(n: Node, id: Identity, r: Reply) {
    match r
    case Ok => id !in n
    case Exists => id in n
    case Absent => false
    case Failed(took) => took ==> id !in n
  }

  function AfterAdd(n: Node, id: Identity, cred: Credential, r: Reply): Node {
    if r == Ok || r == Failed(true) then n[id := cred] else n
  }

  predicate CanRemove(n: Node, id: Identity, r: Reply) {
    match r
    case Ok => id in n
    case Exists => false
    case Absent => id !in n
    case Failed(_) => true
  }

  function AfterRemove(n: Node, id: Identity, r: Reply): Node {
    if r == Ok || r == Failed(true) then n - {id} else n
  }

  /** After an add the identity is there exactly if it was or the call took effect, with the new credential exactly if
      it was not there; after a removal it is there exactly if it was and the call failed without effect; no other
      identity is touched. */
  lemma CallsExactly(n: Node, id: Identity, cred: Credential, r: Reply)
    ensures CanAdd(n, id, r) ==>
              var n' := AfterAdd(n, id, cred, r);
              && (id in n' <==> id in n || r == Ok || r == Failed(true))
              && (id in n' ==> n'[id] == if id in n then n[id] else cred)
              && forall e :: e != id ==> (e in n' <==> e in n) && (e in n ==> n'[e] == n[e])
    ensures CanRemove(n, id, r) ==>
              var n' := AfterRemove(n, id, r);
              && (id in n' <==> id in n && r == Failed(false))
              && (forall e :: e in n' ==> e in n && n'[e] == n[e]) && forall e :: e in n && e != id ==> e in n'
  {
  }

  class FanoutAdmin {
    var nodes: seq<Node>
    /** Which target was called, in call order. */
    var calls: seq<nat>

    constructor (nodes: seq<Node>)
      ensures this.nodes == nodes && calls == []
    {
      this.nodes, calls := nodes, [];
    }

    /** A fresh credential is built for each target; the one returned is the first that was accepted. */
    method AddClient(id: Identity, fresh_: seq<Credential>, replies: seq<Reply>) returns (stored: Option<Credential>)
      requires |fresh_| == |replies| == |nodes|
      requires forall i :: 0 <= i < |nodes| ==> CanAdd(nodes[i], id, replies[i])
      modifies this
      ensures |nodes| == |old(nodes)| && calls == old(calls) + seq(|nodes|, i => i)
      ensures forall i :: 0 <= i < |nodes| ==> nodes[i] == AfterAdd(old(nodes)[i], id, fresh_[i], replies[i])
      ensures stored.None? <==> Ok !in replies
      ensures stored.Some? ==> exists i :: 0 <= i < |nodes| && replies[i] == Ok && (forall j :: 0 <= j < i ==> replies[j] != Ok)
                                         && stored.value == fresh_[i] && id in nodes[i] && nodes[i][id] == stored.value
    {
      stored := None;
      ghost var first := 0;
      for t := 0 to |nodes|
        invariant |nodes| == |old(nodes)| && calls == old(calls) + seq(t, i => i)
        invariant forall i :: 0 <= i < t ==> nodes[i] == AfterAdd(old(nodes)[i], id, fresh_[i], replies[i])
        invariant forall i :: t <= i < |nodes| ==> nodes[i] == old(nodes)[i]
        invariant stored.None? ==> forall i :: 0 <= i < t ==> replies[i] != Ok
        invariant stored.Some? ==> first < t && replies[first] == Ok && stored.value == fresh_[first]
        invariant stored.Some? ==> forall j :: 0 <= j < first ==> replies[j] != Ok
      {
        calls := calls + [t];
        nodes := nodes[t := AfterAdd(nodes[t], id, fresh_[t], replies[t])];
        if replies[t] != Ok {
          continue;
        }
        if stored.None? {
          stored := Some(fresh_[t]);
          first := t;
        }
      }
    }

    /** The same stored credential goes to every target; a node that already has the identity counts. */
    method AddExistingClient(id: Identity, cred: Credential, replies: seq<Reply>) returns (ok: bool)
      requires |replies| == |nodes|
      requires forall i :: 0 <= i < |nodes| ==> CanAdd(nodes[i], id, replies[i])
      modifies this
      ensures |nodes| == |old(nodes)| && calls == old(calls) + seq(|nodes|, i => i)
      ensures forall i :: 0 <= i < |nodes| ==> nodes[i] == AfterAdd(old(nodes)[i], id, cred, replies[i])
      ensures ok <==> exists i :: 0 <= i < |nodes| && (replies[i] == Ok || replies[i] == Exists)
      ensures ok ==> exists i :: 0 <= i < |nodes| && id in nodes[i]
    {
      var okCount := 0;
      ghost var some := 0;
      for t := 0 to |nodes|
        invariant |nodes| == |old(nodes)| && calls == old(calls) + seq(t, i => i)
        invariant forall i :: 0 <= i < t ==> nodes[i] == AfterAdd(old(nodes)[i], id, cred, replies[i])
        invariant forall i :: t <= i < |nodes| ==> nodes[i] == old(nodes)[i]
        invariant okCount >= 0
        invariant okCount == 0 ==> forall i :: 0 <= i < t ==> replies[i] != Ok && replies[i] != Exists
        invariant okCount > 0 ==> some < t && (replies[some] == Ok || replies[some] == Exists)
      {
        calls := calls + [t];
        nodes := nodes[t := AfterAdd(nodes[t], id, cred, replies[t])];
        if replies[t] == Ok || replies[t] == Exists {
          okCount := okCount + 1;
          some := t;
        }
      }
      assert okCount > 0 ==> id in nodes[some];
      ok := okCount > 0;
    }

    /** Removal succeeds when every node has confirmed that the identity is gone. */
    method RemoveClient(id: Identity, replies: seq<Reply>) returns (ok: bool)
      requires |replies| == |nodes|
      requires forall i :: 0 <= i < |nodes| ==> CanRemove(nodes[i], id, replies[i])
      modifies this
      ensures |nodes| == |old(nodes)| && calls == old(calls) + seq(|nodes|, i => i)
      ensures forall i :: 0 <= i < |nodes| ==> nodes[i] == AfterRemove(old(nodes)[i], id, replies[i])
      ensures ok <==> forall i :: 0 <= i < |nodes| ==> replies[i] == Ok || replies[i] == Absent
      ensures ok ==> forall i :: 0 <= i < |nodes| ==> id !in nodes[i]
    {
      var failures: seq<nat> := [];
      for t := 0 to |nodes|
        invariant |nodes| == |old(nodes)| && calls == old(calls) + seq(t, i => i)
        invariant forall i :: 0 <= i < t ==> nodes[i] == AfterRemove(old(nodes)[i], id, replies[i])
        invariant forall i :: t <= i < |nodes| ==> nodes[i] == old(nodes)[i]
        invariant failures == [] <==> forall i :: 0 <= i < t ==> replies[i] == Ok || replies[i] == Absent
      {
        calls := calls + [t];
        nodes := nodes[t := AfterRemove(nodes[t], id, replies[t])];
        if replies[t] == Ok || replies[t] == Absent {
          continue;
        }
        failures := failures + [t];
      }
      ok := failures == [];
    }
  }

  // ----- agreement between nodes -----

  /** All nodes that hold the identity hold the same credential for it. */
  predicate Agreeing(nodes: seq<Node>, id: Identity) {
    forall i, j :: 0 <= i < |nodes| && 0 <= j < |nodes| && id in nodes[i] && id in nodes[j] ==> nodes[i][id] == nodes[j][id]
  }

  function AfterAll(nodes: seq<Node>, id: Identity, creds: seq<Credential>, replies: seq<Reply>): (after: seq<Node>)
    requires |creds| == |replies| == |nodes|
    ensures |after| == |nodes|
    ensures forall i :: 0 <= i < |nodes| ==> after[i] == AfterAdd(nodes[i], id, creds[i], replies[i])
  {
    seq(|nodes|, i requires 0 <= i < |nodes| => AfterAdd(nodes[i], id, creds[i], replies[i]))
  }

  predicate Took(r: Reply) {
    r == Ok || r == Failed(true)
  }

  /** Every target gets a credential of its own, unlike any that is installed for the identity. */
  predicate Generated(nodes: seq<Node>, id: Identity, creds: seq<Credential>) {
    && |creds| == |nodes|
    && (forall i, j :: 0 <= i < j < |creds| ==> creds[i] != creds[j])
    && forall i, j :: 0 <= i < |creds| && 0 <= j < |nodes| && id in nodes[j] ==> nodes[j][id] != creds[i]
  }

  predicate CanAnswer(nodes: seq<Node>, id: Identity, replies: seq<Reply>) {
    |replies| == |nodes| && forall i :: 0 <= i < |nodes| ==> CanAdd(nodes[i], id, replies[i])
  }

  predicate Held(nodes: seq<Node>, id: Identity, i: nat)
    requires i < |nodes|
  {
    id in nodes[i]
  }

  lemma AfterOne(nodes: seq<Node>, id: Identity, creds: seq<Credential>, replies: seq<Reply>)
    requires Generated(nodes, id, creds) && CanAnswer(nodes, id, replies)
    ensures var after := AfterAll(nodes, id, creds, replies);
            forall i :: 0 <= i < |nodes| ==>
              && (id in after[i] <==> Held(nodes, id, i) || Took(replies[i]))
              && (Took(replies[i]) ==> !Held(nodes, id, i) && after[i][id] == creds[i])
              && (Held(nodes, id, i) ==> after[i][id] == nodes[i][id])
  {
    var after := AfterAll(nodes, id, creds, replies);
    forall i | 0 <= i < |nodes|
      ensures after[i] == AfterAdd(nodes[i], id, creds[i], replies[i]) && CanAdd(nodes[i], id, replies[i])
    {
    }
  }

  /** With credentials generated per target, a new client has one credential everywhere exactly when at most one
      target took it, and if one did, no node had the identity before; without takers, when it had before. */
  lemma NewClientAgreement(nodes: seq<Node>, id: Identity, creds: seq<Credential>, replies: seq<Reply>)
    requires Generated(nodes, id, creds) && CanAnswer(nodes, id, replies)
    ensures Agreeing(AfterAll(nodes, id, creds, replies), id) <==>
            if forall i :: 0 <= i < |replies| ==> !Took(replies[i]) then Agreeing(nodes, id)
            else
              && (forall i :: 0 <= i < |nodes| ==> !Held(nodes, id, i))
              && forall i, j :: 0 <= i < |replies| && 0 <= j < |replies| && Took(replies[i]) && Took(replies[j]) ==> i == j
  {
    hide CanAdd, AfterAdd;
    var after := AfterAll(nodes, id, creds, replies);
    AfterOne(nodes, id, creds, replies);
    if i :| 0 <= i < |replies| && Took(replies[i]) {
      if j :| 0 <= j < |nodes| && Held(nodes, id, j) {
        assert after[i][id] != after[j][id];
      } else if j :| 0 <= j < |replies| && Took(replies[j]) && i != j {
        assert after[i][id] != after[j][id];
      }
    } else {
      assert forall j :: 0 <= j < |nodes| ==> (id in after[j] <==> id in nodes[j]) && (id in nodes[j] ==> after[j][id] == nodes[j][id]);
    }
  }

  /** What a node answers when it is up. */
  function Natural(n: Node, id: Identity): Reply {
    if id in n then Exists else Ok
  }

  /** What a node answers when the call does not get through. */
  function Down(n: Node, id: Identity): Reply {
    if id in n then Exists else Failed(false)
  }

  function Replies(nodes: seq<Node>, id: Identity, answer: (Node, Identity) -> Reply): (replies: seq<Reply>)
    ensures |replies| == |nodes| && forall i :: 0 <= i < |nodes| ==> replies[i] == answer(nodes[i], id)
  {
    seq(|nodes|, i requires 0 <= i < |nodes| => answer(nodes[i], id))
  }

  /** Main result: a new client is sure to have one credential everywhere, whatever the nodes truthfully answer,
      exactly when nothing can go wrong: there is at most one node, or every node has the identity already, with
      one credential. */
  lemma AgreementForSure(nodes: seq<Node>, id: Identity, creds: seq<Credential>)
    requires Generated(nodes, id, creds)
    ensures (forall replies :: CanAnswer(nodes, id, replies) ==> Agreeing(AfterAll(nodes, id, creds, replies), id)) <==>
            Agreeing(nodes, id) && (|nodes| <= 1 || forall i :: 0 <= i < |nodes| ==> Held(nodes, id, i))
  {
    if Agreeing(nodes, id) && (|nodes| <= 1 || forall i :: 0 <= i < |nodes| ==> Held(nodes, id, i)) {
      forall replies | CanAnswer(nodes, id, replies)
        ensures Agreeing(AfterAll(nodes, id, creds, replies), id)
      {
        AfterOne(nodes, id, creds, replies);
        NewClientAgreement(nodes, id, creds, replies);
      }
    } else {
      var up, down := Replies(nodes, id, Natural), Replies(nodes, id, Down);
      assert CanAnswer(nodes, id, up) && CanAnswer(nodes, id, down);
      NewClientAgreement(nodes, id, creds, down);
      NewClientAgreement(nodes, id, creds, up);
      if Agreeing(nodes, id) {
        var i :| 0 <= i < |nodes| && !Held(nodes, id, i);
        assert Took(up[i]);
        var j := if i == 0 then 1 else 0;
        assert Took(up[j]) || Held(nodes, id, j);
        assert !Agreeing(AfterAll(nodes, id, creds, up), id);
      } else {
        assert !Agreeing(AfterAll(nodes, id, creds, down), id);
      }
    }
  }

  /** Two nodes that both accept a new client are enough. */
  lemma TwoNodesDisagree()
    ensures var nodes: seq<Node> := [map[], map[]];
            && Generated(nodes, "bob", ["k1", "k2"]) && CanAnswer(nodes, "bob", [Ok, Ok])
            && !Agreeing(AfterAll(nodes, "bob", ["k1", "k2"], [Ok, Ok]), "bob")
  {
    var nodes: seq<Node>, creds := [map[], map[]], ["k1", "k2"];
    assert creds[0][1] != creds[1][1];
    AfterOne(nodes, "bob", creds, [Ok, Ok]);
    assert Took([Ok, Ok][0]) && Took([Ok, Ok][1]);
    NewClientAgreement(nodes, "bob", creds, [Ok, Ok]);
  }

  /** Handing out one stored credential keeps agreement with it, whatever the replies. */
  lemma StoredClientAgreement(nodes: seq<Node>, id: Identity, creds: seq<Credential>, cred: Credential, replies: seq<Reply>)
    requires |creds| == |replies| == |nodes|
    requires forall i :: 0 <= i < |nodes| ==> creds[i] == cred && (id in nodes[i] ==> nodes[i][id] == cred)
    ensures var after := AfterAll(nodes, id, creds, replies);
            && (forall i :: 0 <= i < |nodes| && id in after[i] ==> after[i][id] == cred)
            && Agreeing(after, id)
  {
    var after := AfterAll(nodes, id, creds, replies);
    forall i | 0 <= i < |nodes| && id in after[i]
      ensures after[i][id] == cred
    {
      assert after[i] == AfterAdd(nodes[i], id, creds[i], replies[i]);
    }
  }
}
