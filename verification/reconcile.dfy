/** The add-only reconcile of remote nodes: each pass takes a snapshot of the wanted clients, asks the node
    what it has, and re-adds what is missing, while API calls, table changes and node restarts go on. */
module Reconcile {
  import opened Fanout
  import opened Lists

  // ----- tables -----

  datatype User = User(email: Identity, enabled: bool)

  datatype Enrolment = Enrolment(credential: Credential, enabled: bool)

  /** enrolments is keyed by user and inbound tag; serves gives each node's inbound tag. */
  datatype Tables = Tables(
    users: map<nat, User>, placements: set<(nat, nat)>, enrolments: map<(nat, string), Enrolment>, serves: map<nat, string>)

  datatype Wanted = Wanted(email: Identity, credential: Credential)

  /** An enabled user placed on the node, with an enabled credential for the node's inbound. */
  predicate Belongs(db: Tables, node: nat, user: nat, w: Wanted) {
    && node in db.serves && (user, node) in db.placements && user in db.users && db.users[user].enabled
    && var key := (user, db.serves[node]);
       && key in db.enrolments && db.enrolments[key].enabled
       && w == Wanted(db.users[user].email, db.enrolments[key].credential)
  }

  /** The credentials that enabled users placed on the node have, enabled, for its inbound, told from the tables. */
  ghost predicate Entitled(db: Tables, node: nat, email: Identity, credential: Credential) {
    exists user ::
      && (user, node) in db.placements
      && user in db.users && db.users[user] == User(email, true)
      && node in db.serves && (user, db.serves[node]) in db.enrolments
      && db.enrolments[(user, db.serves[node])] == Enrolment(credential, true)
  }

  ghost predicate Snapshot(db: Tables, node: nat, want: seq<Wanted>) {
    forall w :: w in want <==> exists user :: Belongs(db, node, user, w)
  }

  lemma SnapshotEntitles(db: Tables, node: nat, want: seq<Wanted>)
    requires Snapshot(db, node, want)
    ensures forall w :: w in want <==> Entitled(db, node, w.email, w.credential)
  {
    forall w
      ensures w in want <==> Entitled(db, node, w.email, w.credential)
    {
      if user :| Belongs(db, node, user, w) {
        assert db.users[user] == User(w.email, true);
      }
      if Entitled(db, node, w.email, w.credential) {
        var user :|
          && (user, node) in db.placements
          && user in db.users && db.users[user] == User(w.email, true)
          && node in db.serves && (user, db.serves[node]) in db.enrolments
          && db.enrolments[(user, db.serves[node])] == Enrolment(w.credential, true);
        assert Belongs(db, node, user, w);
      }
    }
  }

  // ----- the difference -----

  /** The wanted clients whose identity the node does not have, in order. */
  function Missing(want: seq<Wanted>, have: set<Identity>): seq<Wanted> {
    Filter(Lacking(have), want)
  }

  function Lacking(have: set<Identity>): Wanted -> bool {
    (w: Wanted) => w.email !in have
  }

  method ClientsToAdd(want: seq<Wanted>, have: seq<Identity>) returns (add: seq<Wanted>)
    ensures add == Missing(want, set e | e in have)
  {
    var haveSet: set<Identity> := {};
    for i := 0 to |have|
      invariant haveSet == set e | e in have[..i]
    {
      assert have[..i + 1] == have[..i] + [have[i]];
      haveSet := haveSet + {have[i]};
    }
    assert have[..|have|] == have;
    add := [];
    for i := 0 to |want|
      invariant add + Missing(want[i..], haveSet) == Missing(want, haveSet)
    {
      assert want[i..][1..] == want[i + 1..];
      if want[i].email !in haveSet {
        add := add + [want[i]];
      }
    }
  }

  // ----- steps -----

  /** Where the pass stands. todo is what was missing; next is the position of the next add. */
  datatype Pc =
    | Idle
    | GotWant(node: nat, want: seq<Wanted>)
    | Adding(node: nat, want: seq<Wanted>, todo: seq<Wanted>, next: nat)

  datatype State = State(db: Tables, runtime: map<nat, Node>, pc: Pc)

  datatype Step =
    | ReadWant(node: nat, want: seq<Wanted>)
    | ReadHave(reachable: bool)
    | Add(reply: Reply)
    | Finish
    | ApiAdd(target: nat, email: Identity, credential: Credential)
    | ApiRemove(target: nat, email: Identity)
    | Restart(target: nat, loaded: Node)
    | ChangeTables(db: Tables)

  predicate IsPassStep(step: Step) {
    step.ReadWant? || step.ReadHave? || step.Add? || step.Finish?
  }

  ghost predicate Can(s: State, step: Step) {
    match step
    case ReadWant(node, want) => s.pc == Idle && node in s.runtime && Snapshot(s.db, node, want)
    case ReadHave(_) => s.pc.GotWant? && s.pc.node in s.runtime
    case Add(r) =>
      && s.pc.Adding? && s.pc.node in s.runtime && s.pc.next < |s.pc.todo|
      && CanAdd(s.runtime[s.pc.node], s.pc.todo[s.pc.next].email, r)
    case Finish => s.pc.Adding? && s.pc.next == |s.pc.todo|
    case ApiAdd(n, email, _) => n in s.runtime && email !in s.runtime[n]
    case ApiRemove(n, _) => n in s.runtime
    case Restart(n, _) => n in s.runtime
    case ChangeTables(_) => true
  }

  function Next(s: State, step: Step): State
    requires Can(s, step)
  {
    match step
    case ReadWant(node, want) => s.(pc := GotWant(node, want))
    case ReadHave(reachable) =>
      s.(pc := if reachable then Adding(s.pc.node, s.pc.want, Missing(s.pc.want, s.runtime[s.pc.node].Keys), 0) else Idle)
    case Add(r) =>
      var n, w := s.pc.node, s.pc.todo[s.pc.next];
      s.(runtime := s.runtime[n := AfterAdd(s.runtime[n], w.email, w.credential, r)], pc := s.pc.(next := s.pc.next + 1))
    case Finish => s.(pc := Idle)
    case ApiAdd(n, email, cred) => s.(runtime := s.runtime[n := s.runtime[n][email := cred]])
    case ApiRemove(n, email) => s.(runtime := s.runtime[n := s.runtime[n] - {email}])
    case Restart(n, loaded) => s.(runtime := s.runtime[n := loaded])
    case ChangeTables(db) => s.(db := db)
  }

  datatype Run = Run(states: seq<State>, steps: seq<Step>)

  ghost predicate IsRun(run: Run) {
    && |run.states| == |run.steps| + 1
    && run.states[0].pc == Idle
    && forall i :: 0 <= i < |run.steps| ==> Can(run.states[i], run.steps[i]) && run.states[i + 1] == Next(run.states[i], run.steps[i])
  }

  lemma StepAt(run: Run, k: nat)
    requires IsRun(run) && k + 1 < |run.states|
    ensures k < |run.steps| && |run.states| == |run.steps| + 1
    ensures Can(run.states[k], run.steps[k]) && run.states[k + 1] == Next(run.states[k], run.steps[k])
  {
  }

  /** A pass sets out to add exactly the wanted clients whose identity the node does not have when asked. */
  lemma PassAddsMissing(s: State)
    requires Can(s, ReadHave(true))
    ensures var s' := Next(s, ReadHave(true));
            && s'.pc.Adding? && s'.pc.node == s.pc.node && s'.pc.want == s.pc.want && s'.pc.next == 0
            && s'.runtime == s.runtime && s'.db == s.db
            && forall w :: w in s'.pc.todo <==> w in s.pc.want && w.email !in s.runtime[s.pc.node]
  {
    FilterMembers(Lacking(s.runtime[s.pc.node].Keys), s.pc.want);
  }

  /** What a pass still has to add comes from its snapshot. */
  predicate FromSnapshot(s: State) {
    s.pc.Adding? ==> s.pc.next <= |s.pc.todo| && forall w :: w in s.pc.todo ==> w in s.pc.want
  }

  lemma {:induction false} AlwaysFromSnapshot(run: Run, n: nat)
    requires IsRun(run) && n < |run.states|
    ensures FromSnapshot(run.states[n])
  {
    if n > 0 {
      AlwaysFromSnapshot(run, n - 1);
      StepAt(run, n - 1);
      var s := run.states[n - 1];
      if run.steps[n - 1].ReadHave? {
        FilterMembers(Lacking(s.runtime[s.pc.node].Keys), s.pc.want);
      }
    }
  }

  /** node' holds all of node, and what is new is a wanted identity with its stored credential. */
  ghost predicate ExtendsByWanted(node: Node, node': Node, want: seq<Wanted>) {
    && (forall e :: e in node ==> e in node' && node'[e] == node[e])
    && (forall e :: e in node' && e !in node ==> Wanted(e, node'[e]) in want)
  }

  /** The snapshot a pass works from was read at step b. */
  ghost predicate ReadAt(run: Run, b: nat, node: nat, want: seq<Wanted>) {
    && b < |run.steps| && b < |run.states|
    && run.steps[b] == ReadWant(node, want) && Snapshot(run.states[b].db, node, want)
  }

  predicate WorksFrom(s: State, node: nat, want: seq<Wanted>) {
    (s.pc.GotWant? || s.pc.Adding?) && s.pc.node == node && s.pc.want == want
  }

  lemma WorksFromStep(s: State, step: Step, node: nat, want: seq<Wanted>)
    requires Can(s, step) && WorksFrom(Next(s, step), node, want)
    ensures (step == ReadWant(node, want) && Snapshot(s.db, node, want)) || WorksFrom(s, node, want)
  {
    hide Snapshot;
  }

  lemma {:induction false} SnapshotWasRead(run: Run, n: nat, node: nat, want: seq<Wanted>) returns (b: nat)
    requires IsRun(run) && n < |run.states| && WorksFrom(run.states[n], node, want)
    ensures b < n && ReadAt(run, b, node, want)
  {
    hide Snapshot, Can, Next;
    if n > 0 {
      StepAt(run, n - 1);
      WorksFromStep(run.states[n - 1], run.steps[n - 1], node, want);
      if WorksFrom(run.states[n - 1], node, want) {
        b := SnapshotWasRead(run, n - 1, node, want);
      } else {
        b := n - 1;
      }
    }
  }

  /** A client with this credential was entitled to the node when the pass that adds it read its snapshot. */
  ghost predicate WantedSince(run: Run, k: nat, node: nat, w: Wanted) {
    exists b: nat, want :: b <= k && ReadAt(run, b, node, want) && Entitled(run.states[b].db, node, w.email, w.credential)
  }

  /** Main result: whatever else happens, no step of a pass removes or replaces a client on any node, and what it
      adds is an identity with a credential that some enabled user, placed on that node, had stored in the tables
      when the pass read its snapshot. */
  lemma PassOnlyAddsWanted(run: Run, k: nat)
    requires IsRun(run) && k < |run.steps| && IsPassStep(run.steps[k])
    ensures var s, s' := run.states[k], run.states[k + 1];
            && s'.runtime.Keys == s.runtime.Keys && s'.db == s.db
            && (forall n :: n in s.runtime ==>
                  if s.pc.Adding? && n == s.pc.node then ExtendsByWanted(s.runtime[n], s'.runtime[n], s.pc.want)
                  else s'.runtime[n] == s.runtime[n])
            && forall n, e :: n in s.runtime && e in s'.runtime[n] && e !in s.runtime[n] ==>
                 WantedSince(run, k, n, Wanted(e, s'.runtime[n][e]))
  {
    hide Snapshot, WantedSince;
    StepAt(run, k);
    AlwaysFromSnapshot(run, k);
    var s, s' := run.states[k], run.states[k + 1];
    forall n, e | n in s.runtime && e in s'.runtime[n] && e !in s.runtime[n]
      ensures WantedSince(run, k, n, Wanted(e, s'.runtime[n][e]))
    {
      AddedWasWanted(run, k, s.pc.node, s.pc.want, Wanted(e, s'.runtime[n][e]));
    }
  }

  lemma AddedWasWanted(run: Run, k: nat, node: nat, want: seq<Wanted>, w: Wanted)
    requires IsRun(run) && k < |run.states| && WorksFrom(run.states[k], node, want) && w in want
    ensures WantedSince(run, k, node, w)
  {
    hide Entitled, Snapshot, Can, Next;
    var b := SnapshotWasRead(run, k, node, want);
    SnapshotEntitles(run.states[b].db, node, want);
  }

  // ----- coverage -----

  predicate Disturbs(step: Step, node: nat) {
    match step
    case Restart(n, _) => n == node
    case ApiRemove(n, _) => n == node
    case Add(r) => r.Failed? || r == Absent
    case _ => false
  }

  /** Within an undisturbed pass on node with snapshot want, everything dealt with so far is present. */
  ghost predicate CoveredSoFar(s: State, node: nat, want: seq<Wanted>) {
    && node in s.runtime
    && match s.pc
       case Idle => false
       case GotWant(n, w) => n == node && w == want
       case Adding(n, w, todo, next) =>
         && n == node && w == want && next <= |todo|
         && forall x :: x in want && x !in todo[next..] ==> x.email in s.runtime[node]
  }

  lemma CoveredStep(s: State, step: Step, node: nat, want: seq<Wanted>)
    requires CoveredSoFar(s, node, want) && Can(s, step)
    requires !Disturbs(step, node) && step != Finish && step != ReadHave(false)
    ensures CoveredSoFar(Next(s, step), node, want)
  {
    if step.ReadHave? {
      var have := s.runtime[node].Keys;
      FilterMembers(Lacking(have), want);
      assert Missing(want, have)[0..] == Missing(want, have);
    } else if step.Add? {
      var todo, next := s.pc.todo, s.pc.next;
      assert todo[next..] == [todo[next]] + todo[next + 1..];
      var s' := Next(s, step);
      forall x | x in want && x !in todo[next + 1..]
        ensures x.email in s'.runtime[node]
      {
        assert x != todo[next] ==> x !in todo[next..];
      }
    }
  }

  lemma {:induction false} CoveredRun(run: Run, b: nat, n: nat, node: nat, want: seq<Wanted>)
    requires IsRun(run) && b < n < |run.states| && run.steps[b] == ReadWant(node, want)
    requires forall k :: b < k < n ==> !Disturbs(run.steps[k], node) && run.steps[k] != Finish && run.steps[k] != ReadHave(false)
    ensures CoveredSoFar(run.states[n], node, want)
  {
    hide Can, Next, CoveredSoFar, Disturbs, IsRun;
    StepAt(run, n - 1);
    if n == b + 1 {
      CoveredStart(run.states[b], node, want);
    } else {
      CoveredRun(run, b, n - 1, node, want);
      CoveredStep(run.states[n - 1], run.steps[n - 1], node, want);
    }
  }

  lemma CoveredStart(s: State, node: nat, want: seq<Wanted>)
    requires Can(s, ReadWant(node, want))
    ensures CoveredSoFar(Next(s, ReadWant(node, want)), node, want)
  {
  }

  /** Main result: a pass that reaches its end with the node reachable, no failed call, and no restart of or
      removal on that node meanwhile, leaves every identity of its snapshot on the node; and a second pass over
      the same tables would find nothing to add. */
  lemma CompletePassCovers(run: Run, b: nat, e: nat, node: nat, want: seq<Wanted>)
    requires IsRun(run) && b < e < |run.steps| && run.steps[b] == ReadWant(node, want) && run.steps[e] == Finish
    requires forall k :: b < k < e ==> !Disturbs(run.steps[k], node) && run.steps[k] != Finish && run.steps[k] != ReadHave(false)
    ensures node in run.states[e].runtime
    ensures forall w :: w in want ==> w.email in run.states[e].runtime[node]
    ensures forall again :: Snapshot(run.states[b].db, node, again) ==> Missing(again, run.states[e].runtime[node].Keys) == []
  {
    CoveredRun(run, b, e, node, want);
    StepAt(run, e);
    StepAt(run, b);
    var s := run.states[e];
    assert s.pc.todo[s.pc.next..] == [];
    forall again | Snapshot(run.states[b].db, node, again)
      ensures Missing(again, s.runtime[node].Keys) == []
    {
      forall w | w in again
        ensures w in want
      {
      }
      FilterNone(Lacking(s.runtime[node].Keys), again);
    }
  }

  // ----- recovery -----

  predicate AddsElsewhere(step: Step, node: nat) {
    step.ApiAdd? ==> step.target != node
  }

  /** What is on the node is what was there when the snapshot was read, and wanted clients. */
  ghost predicate OnlyWantedSince(s: State, node: nat, want: seq<Wanted>, start: Node) {
    && node in s.runtime
    && WorksFrom(s, node, want) && FromSnapshot(s)
    && ExtendsByWanted(start, s.runtime[node], want)
  }

  lemma OnlyWantedStep(s: State, step: Step, node: nat, want: seq<Wanted>, start: Node)
    requires OnlyWantedSince(s, node, want, start) && Can(s, step) && FromSnapshot(Next(s, step))
    requires !Disturbs(step, node) && AddsElsewhere(step, node) && step != Finish && step != ReadHave(false)
    ensures OnlyWantedSince(Next(s, step), node, want, start)
  {
  }

  lemma {:induction false} OnlyWantedRun(run: Run, b: nat, n: nat, node: nat, want: seq<Wanted>)
    requires IsRun(run) && b < n < |run.states| && run.steps[b] == ReadWant(node, want)
    requires forall k :: b < k < n ==>
               && !Disturbs(run.steps[k], node) && AddsElsewhere(run.steps[k], node)
               && run.steps[k] != Finish && run.steps[k] != ReadHave(false)
    ensures node in run.states[b].runtime && OnlyWantedSince(run.states[n], node, want, run.states[b].runtime[node])
  {
    hide Can, Next, OnlyWantedSince, Disturbs, IsRun, FromSnapshot;
    StepAt(run, n - 1);
    AlwaysFromSnapshot(run, n);
    if n == b + 1 {
      OnlyWantedStart(run.states[b], node, want);
    } else {
      OnlyWantedRun(run, b, n - 1, node, want);
      OnlyWantedStep(run.states[n - 1], run.steps[n - 1], node, want, run.states[b].runtime[node]);
    }
  }

  lemma OnlyWantedStart(s: State, node: nat, want: seq<Wanted>)
    requires Can(s, ReadWant(node, want))
    ensures node in s.runtime && OnlyWantedSince(Next(s, ReadWant(node, want)), node, want, s.runtime[node])
  {
    hide Snapshot;
  }

  /** Main result: a node that is empty when a pass starts, as after a restart, holds after the undisturbed pass,
      during which nothing else is added to it, exactly the identities that the tables entitled to it when the
      pass read them, each with a credential entitled to it then. */
  lemma RestartedNodeRecovers(run: Run, b: nat, e: nat, node: nat, want: seq<Wanted>)
    requires IsRun(run) && b < e < |run.steps| && run.steps[b] == ReadWant(node, want) && run.steps[e] == Finish
    requires node in run.states[b].runtime && run.states[b].runtime[node] == map[]
    requires forall k :: b < k < e ==>
               && !Disturbs(run.steps[k], node) && AddsElsewhere(run.steps[k], node)
               && run.steps[k] != Finish && run.steps[k] != ReadHave(false)
    ensures node in run.states[e].runtime
    ensures forall email :: email in run.states[e].runtime[node] <==>
              exists credential :: Entitled(run.states[b].db, node, email, credential)
    ensures forall email :: email in run.states[e].runtime[node] ==>
              Entitled(run.states[b].db, node, email, run.states[e].runtime[node][email])
  {
    hide Snapshot, Disturbs, Entitled;
    StepAt(run, b);
    SnapshotEntitles(run.states[b].db, node, want);
    OnlyWantedRun(run, b, e, node, want);
    CompletePassCovers(run, b, e, node, want);
    var db, after := run.states[b].db, run.states[e].runtime[node];
    forall email | email in after
      ensures Entitled(db, node, email, after[email])
    {
      assert Wanted(email, after[email]) in want;
    }
    forall email, credential | Entitled(db, node, email, credential)
      ensures email in after
    {
      assert Wanted(email, credential) in want;
    }
  }

  // ----- what reconcile does not repair -----

  predicate Touches(step: Step, node: nat, email: Identity) {
    match step
    case Restart(n, _) => n == node
    case ApiRemove(n, e) => n == node && e == email
    case _ => false
  }

  lemma UntouchedStays(s: State, step: Step, node: nat, email: Identity)
    requires Can(s, step) && node in s.runtime && email in s.runtime[node] && !Touches(step, node, email)
    ensures var s' := Next(s, step);
            node in s'.runtime && email in s'.runtime[node] && s'.runtime[node][email] == s.runtime[node][email]
  {
  }

  /** A credential sitting on a node stays as it is, right or wrong, through any number of passes and table
      changes, until the node restarts or the identity is removed. Hence a client that was given different
      credentials on different nodes keeps them. */
  lemma {:induction false} CredentialStays(run: Run, b: nat, n: nat, node: nat, email: Identity)
    requires IsRun(run) && b <= n < |run.states|
    requires node in run.states[b].runtime && email in run.states[b].runtime[node]
    requires forall k :: b <= k < n ==> !Touches(run.steps[k], node, email)
    ensures node in run.states[n].runtime && email in run.states[n].runtime[node]
    ensures run.states[n].runtime[node][email] == run.states[b].runtime[node][email]
  {
    if n > b {
      CredentialStays(run, b, n - 1, node, email);
      hide IsRun, Touches, Can, Next;
      StepAt(run, n - 1);
      UntouchedStays(run.states[n - 1], run.steps[n - 1], node, email);
    }
  }

  // ----- one pass as the code runs it -----

  datatype NodeStatus = NodeStatus(reachable: bool, applyOK: bool, target: nat, present: nat, applyErrors: nat)

  function Failures(replies: seq<Reply>): (n: nat)
    ensures n <= |replies|
  {
    if replies == [] then 0
    else (if replies[0] == Ok || replies[0] == Exists then 0 else 1) + Failures(replies[1..])
  }

  lemma {:induction false} FailuresAppend(replies: seq<Reply>, r: Reply)
    ensures Failures(replies + [r]) == Failures(replies) + if r == Ok || r == Exists then 0 else 1
  {
    if replies == [] {
      assert [r][1..] == [] && replies + [r] == [r];
    } else {
      FailuresAppend(replies[1..], r);
      assert (replies + [r])[1..] == replies[1..] + [r];
    }
  }

  /** A failure is an answer that is neither success nor "already there". */
  lemma {:induction false} FailuresAre(replies: seq<Reply>)
    ensures Failures(replies) == |set i | 0 <= i < |replies| && (replies[i] == Absent || replies[i].Failed?)|
  {
    if replies != [] {
      var k := |replies| - 1;
      FailuresAre(replies[..k]);
      assert replies == replies[..k] + [replies[k]];
      FailuresAppend(replies[..k], replies[k]);
      var before := set i | 0 <= i < k && (replies[..k][i] == Absent || replies[..k][i].Failed?);
      var all := set i | 0 <= i < |replies| && (replies[i] == Absent || replies[i].Failed?);
      assert all == before + if replies[k] == Absent || replies[k].Failed? then {k} else {};
    }
  }

  /** The answers fit what the node holds as the adds go in, one after the other. */
  predicate Truthful(node: Node, todo: seq<Wanted>, replies: seq<Reply>)
    requires |replies| == |todo|
    decreases |todo|
  {
    todo == [] ||
    (CanAdd(node, todo[0].email, replies[0])
     && Truthful(AfterAdd(node, todo[0].email, todo[0].credential, replies[0]), todo[1..], replies[1..]))
  }

  function AfterTodo(node: Node, todo: seq<Wanted>, replies: seq<Reply>): Node
    requires |replies| == |todo|
    decreases |todo|
  {
    if todo == [] then node
    else AfterTodo(AfterAdd(node, todo[0].email, todo[0].credential, replies[0]), todo[1..], replies[1..])
  }

  /** A pass keeps what the node held, adds nothing but wanted clients with their stored credentials, and
      when no call failed has added all of them. */
  lemma {:induction false} AfterTodoExtends(node: Node, todo: seq<Wanted>, replies: seq<Reply>)
    requires |replies| == |todo| && Truthful(node, todo, replies)
    ensures ExtendsByWanted(node, AfterTodo(node, todo, replies), todo)
    ensures Failures(replies) == 0 ==> forall w :: w in todo ==> w.email in AfterTodo(node, todo, replies)
    decreases |todo|
  {
    if todo != [] {
      var w, node' := todo[0], AfterAdd(node, todo[0].email, todo[0].credential, replies[0]);
      AfterTodoExtends(node', todo[1..], replies[1..]);
      var final := AfterTodo(node', todo[1..], replies[1..]);
      assert todo == [w] + todo[1..];
      forall e | e in final && e !in node
        ensures Wanted(e, final[e]) in todo
      {
        if e !in node' {
          assert Wanted(e, final[e]) in todo[1..];
        }
      }
    }
  }

  class RemoteNode {
    var clients: Node

    constructor (clients: Node)
      ensures this.clients == clients
    {
      this.clients := clients;
    }

    /** Reachability and the replies come from the network, have is what the node reports. */
    method ReconcileOneNode(want: seq<Wanted>, reachable: bool, have: seq<Identity>, replies: seq<Reply>)
      returns (st: NodeStatus)
      requires reachable ==>
                 var todo := Missing(want, clients.Keys);
                 (set e | e in have) == clients.Keys && |replies| == |todo| && Truthful(clients, todo, replies)
      modifies this
      ensures st.reachable == reachable && st.target == |want|
      ensures !reachable ==> clients == old(clients) && !st.applyOK
      ensures reachable ==>
                && st.present == |have| && st.applyErrors == Failures(replies)
                && (st.applyOK <==> st.applyErrors == 0)
                && clients == AfterTodo(old(clients), Missing(want, old(clients).Keys), replies)
      ensures ExtendsByWanted(old(clients), clients, want)
      ensures reachable && st.applyOK ==> forall w :: w in want ==> w.email in clients
    {
      if !reachable {
        return NodeStatus(false, false, |want|, 0, 0);
      }
      var todo := ClientsToAdd(want, have);
      FilterMembers(Lacking(clients.Keys), want);
      AfterTodoExtends(clients, todo, replies);
      var applyErrors := 0;
      for i := 0 to |todo|
        invariant AfterTodo(clients, todo[i..], replies[i..]) == AfterTodo(old(clients), todo, replies)
        invariant applyErrors == Failures(replies[..i])
      {
        var w, r := todo[i], replies[i];
        assert todo[i..][1..] == todo[i + 1..] && replies[i..][1..] == replies[i + 1..];
        assert replies[..i + 1] == replies[..i] + [r];
        FailuresAppend(replies[..i], r);
        clients := AfterAdd(clients, w.email, w.credential, r);
        if r != Ok && r != Exists {
          applyErrors := applyErrors + 1;
        }
      }
      assert replies[..|todo|] == replies;
      st := NodeStatus(true, applyErrors == 0, |want|, |have|, applyErrors);
    }
  }
}
