/** The fallback killswitch: a persisted flag, a mutex, enable/disable handlers and a periodic reconcile,
    all acting on the inbound set of an Xray process that may restart at any moment.
    First as interleaved steps, one per remote call, then as the handlers themselves. */
module Killswitch {
  import opened Lists
  import opened Options
  import opened Text

  type Tag = string

  datatype Settings = Settings(apiAddr: string, killSwitchTags: seq<Tag>, fallbackTags: seq<Tag>)

  /** The killswitch tags when set, the fallback tags otherwise. */
  function ConfiguredTags(c: Settings): seq<Tag> {
    if |c.killSwitchTags| > 0 then c.killSwitchTags else c.fallbackTags
  }

  predicate NonBlank(t: Tag) {
    t != ""
  }

  /** The tags acted on, in order: trimmed, without blanks; none at all without an API address. */
  function Plan(c: Settings): seq<Tag> {
    if Trim(c.apiAddr) == "" then [] else Filter(NonBlank, Map(Trim, ConfiguredTags(c)))
  }

  function Controlled(c: Settings): set<Tag> {
    set t | t in Plan(c)
  }

  ghost predicate IsTrimOf(t: Tag, configured: seq<Tag>) {
    exists raw :: raw in configured && Trim(raw) == t
  }

  /** Whether the settings put a tag under the killswitch, without the order of the calls: there is an address to
      call, and the tag is not blank and the trimmed form of a killswitch tag or, when none is set, of a fallback
      tag. */
  ghost predicate ActedOn(c: Settings, t: Tag) {
    && Trim(c.apiAddr) != "" && t != ""
    && if c.killSwitchTags != [] then IsTrimOf(t, c.killSwitchTags) else IsTrimOf(t, c.fallbackTags)
  }

  lemma ControlledExactly(c: Settings)
    ensures forall t :: t in Controlled(c) <==> ActedOn(c, t)
  {
    hide Trim;
    var configured := if c.killSwitchTags != [] then c.killSwitchTags else c.fallbackTags;
    var trimmed := Map(Trim, configured);
    FilterMembers(NonBlank, trimmed);
    forall t
      ensures t in trimmed <==> IsTrimOf(t, configured)
    {
      if IsTrimOf(t, configured) {
        var raw :| raw in configured && Trim(raw) == t;
        var i :| 0 <= i < |configured| && configured[i] == raw;
        assert trimmed[i] == t;
      }
    }
  }

  /** With killswitch tags set the fallback tags do not matter; a disable answered truthfully removes the former. */
  lemma KillSwitchTagsWin()
    ensures var c := Settings("127.0.0.1:8080", [" ks "], ["fb"]);
            && ActedOn(c, "ks") && !ActedOn(c, "fb") && Plan(c) == ["ks"]
            && Applied(Plan(c), false, [Done], {"ks", "fb"}) == {"fb"}
  {
    var c := Settings("127.0.0.1:8080", [" ks "], ["fb"]);
    assert Trim(" ks ") == "ks" && Trim("127.0.0.1:8080") != "" && Trim("fb") == "fb";
    hide Trim;
    assert " ks " in c.killSwitchTags && "ks"[0] != "fb"[0];
    var trimmed := Map(Trim, [" ks "]);
    assert trimmed == ["ks"];
    FilterAll(NonBlank, trimmed);
    assert ["ks"][1..] == [];
  }

  lemma PlanTexts()
    ensures Trim("b") == "b" && Trim(" ") == "" && Trim("a") == "a" && Trim("api") == "api"
    ensures NonBlank("b") && NonBlank("a") && !NonBlank("")
  {
  }

  lemma NoTags()
    ensures Filter(NonBlank, []) == []
  {
  }

  /** The tags keep the order of the settings, and blank ones are passed over. */
  lemma PlanKeepsOrder()
    ensures Plan(Settings("api", [], ["b", " ", "a"])) == ["b", "a"]
  {
    PlanTexts();
    hide Trim, Filter, NonBlank;
    var c := Settings("api", [], ["b", " ", "a"]);
    var trimmed := Map(Trim, c.fallbackTags);
    assert trimmed == ["b"] + (["", "a"]);
    FilterHead(NonBlank, "b", ["", "a"]);
    assert ["", "a"] == [""] + ["a"] && ["a"] == ["a"] + [];
    FilterHead(NonBlank, "", ["a"]);
    FilterHead(NonBlank, "a", []);
    NoTags();
  }

  // ----- replies -----

  /** What one remote call came back with. Done: applied. Benign: already in the wanted state. Failed: an
      error, after which the call may nevertheless have taken effect. Skipped: no usable row in the inbounds
      table, so no call was made. */
  datatype Outcome = Done | Benign | Failed(took: bool) | Skipped

  predicate Possible(enable: bool, tag: Tag, o: Outcome, runtime: set<Tag>) {
    match o
    case Done => (tag in runtime) != enable
    case Benign => (tag in runtime) == enable
    case Failed(_) => true
    case Skipped => enable
  }

  function Effect(enable: bool, tag: Tag, o: Outcome, runtime: set<Tag>): set<Tag> {
    if o == Done || o == Failed(true) then
      if enable then runtime + {tag} else runtime - {tag}
    else runtime
  }

  // ----- the protocol, step by step -----

  datatype Kind = Enable | Disable | Tick

  /** Leaving covers every early exit: a database error, or a tick that finds the flag on. */
  datatype Pc = Waiting(kind: Kind) | Entered(kind: Kind) | Applying(enable: bool, next: nat) | Leaving

  datatype State = State(flag: bool, runtime: set<Tag>, holder: Option<nat>, procs: map<nat, Pc>)

  datatype Step =
    | Spawn(pid: nat, kind: Kind)
    | Acquire(pid: nat)
    | WriteFlag(pid: nat, ok: bool)
    | ReadFlag(pid: nat, ok: bool)
    | Rpc(pid: nat, outcome: Outcome)
    | Release(pid: nat)
    | Restart(loaded: set<Tag>)

  predicate At(s: State, pid: nat, pc: Pc) {
    pid in s.procs && s.procs[pid] == pc
  }

  predicate Can(c: Settings, s: State, step: Step) {
    match step
    case Spawn(pid, _) => pid !in s.procs
    case Acquire(pid) => s.holder == None && pid in s.procs && s.procs[pid].Waiting?
    case WriteFlag(pid, _) => At(s, pid, Entered(Enable)) || At(s, pid, Entered(Disable))
    case ReadFlag(pid, _) => At(s, pid, Entered(Tick))
    case Rpc(pid, o) =>
      && pid in s.procs && s.procs[pid].Applying? && s.procs[pid].next < |Plan(c)|
      && Possible(s.procs[pid].enable, Plan(c)[s.procs[pid].next], o, s.runtime)
    case Release(pid) =>
      pid in s.procs && (s.procs[pid].Leaving? || (s.procs[pid].Applying? && s.procs[pid].next == |Plan(c)|))
    case Restart(_) => true
  }

  function Next(c: Settings, s: State, step: Step): State
    requires Can(c, s, step)
  {
    match step
    case Spawn(pid, kind) => s.(procs := s.procs[pid := Waiting(kind)])
    case Acquire(pid) => s.(holder := Some(pid), procs := s.procs[pid := Entered(s.procs[pid].kind)])
    case WriteFlag(pid, ok) =>
      var on := s.procs[pid].kind == Enable;
      if ok then s.(flag := on, procs := s.procs[pid := Applying(on, 0)])
      else s.(procs := s.procs[pid := Leaving])
    case ReadFlag(pid, ok) =>
      s.(procs := s.procs[pid := if ok && !s.flag then Applying(false, 0) else Leaving])
    case Rpc(pid, o) =>
      var pc := s.procs[pid];
      s.(runtime := Effect(pc.enable, Plan(c)[pc.next], o, s.runtime),
         procs := s.procs[pid := Applying(pc.enable, pc.next + 1)])
    case Release(pid) => s.(holder := None, procs := s.procs - {pid})
    case Restart(loaded) => s.(runtime := loaded)
  }

  /** states[i] is where the run stands before steps[i]. */
  datatype Run = Run(states: seq<State>, steps: seq<Step>)

  predicate Init(s: State) {
    s.holder == None && s.procs == map[]
  }

  ghost predicate Follows(c: Settings, run: Run) {
    && |run.states| == |run.steps| + 1
    && forall i :: 0 <= i < |run.steps| ==>
         Can(c, run.states[i], run.steps[i]) && run.states[i + 1] == Next(c, run.states[i], run.steps[i])
  }

  ghost predicate IsRun(c: Settings, run: Run) {
    Follows(c, run) && Init(run.states[0])
  }

  lemma StepAt(c: Settings, run: Run, k: nat)
    requires Follows(c, run) && k + 1 < |run.states|
    ensures k < |run.steps| && |run.states| == |run.steps| + 1
    ensures Can(c, run.states[k], run.steps[k]) && run.states[k + 1] == Next(c, run.states[k], run.steps[k])
  {
  }

  predicate Faulty(step: Step) {
    match step
    case WriteFlag(_, ok) => !ok
    case ReadFlag(_, ok) => !ok
    case Rpc(_, o) => o.Failed? || o.Skipped?
    case _ => false
  }

  // ----- mutual exclusion -----

  predicate Exclusive(s: State) {
    && (forall p :: p in s.procs && !s.procs[p].Waiting? ==> s.holder == Some(p))
    && (s.holder.Some? ==> s.holder.value in s.procs && !s.procs[s.holder.value].Waiting?)
  }

  lemma {:induction false} AlwaysExclusive(c: Settings, run: Run, n: nat)
    requires IsRun(c, run) && n < |run.states|
    ensures Exclusive(run.states[n])
  {
    if n > 0 {
      AlwaysExclusive(c, run, n - 1);
      assert Can(c, run.states[n - 1], run.steps[n - 1]);
    }
  }

  // ----- flag off -----

  /** Inside and after a critical section in which nothing has gone wrong so far. */
  ghost predicate CleanSoFar(c: Settings, s: State) {
    match s.holder
    case None => !s.flag ==> s.runtime !! Controlled(c)
    case Some(p) =>
      && p in s.procs
      && match s.procs[p]
         case Waiting(_) => false
         case Entered(_) => true
         case Leaving => s.flag
         case Applying(enable, next) =>
           && enable == s.flag && next <= |Plan(c)|
           && (!enable ==> forall j :: 0 <= j < next ==> Plan(c)[j] !in s.runtime)
  }

  lemma CleanStep(c: Settings, s: State, step: Step)
    requires Can(c, s, step) && Exclusive(s) && CleanSoFar(c, s)
    requires !step.Acquire? && !step.Restart? && !Faulty(step)
    ensures CleanSoFar(c, Next(c, s, step))
  {
    hide Plan;
  }

  lemma CleanStart(c: Settings, s: State, p: nat)
    requires Can(c, s, Acquire(p))
    ensures CleanSoFar(c, Next(c, s, Acquire(p)))
  {
  }

  lemma {:induction false} CleanRun(c: Settings, run: Run, b: nat, n: nat)
    requires IsRun(c, run) && b < n < |run.states|
    requires run.steps[b].Acquire?
    requires forall k :: b < k < n ==> !run.steps[k].Acquire? && !run.steps[k].Restart? && !Faulty(run.steps[k])
    ensures CleanSoFar(c, run.states[n])
  {
    hide Follows, Can, Next, CleanSoFar, Init, Exclusive;
    StepAt(c, run, n - 1);
    if n == b + 1 {
      CleanStart(c, run.states[b], run.steps[b].pid);
    } else {
      AlwaysExclusive(c, run, n - 1);
      CleanRun(c, run, b, n - 1);
      CleanStep(c, run.states[n - 1], run.steps[n - 1]);
    }
  }

  /** Main result: whenever the mutex is free, flag off means no controlled inbound is running, provided the
      last critical section saw no error and Xray has not restarted since it began. What happened before that
      section does not matter, so one clean tick recovers from anything. */
  lemma OffMeansGone(c: Settings, run: Run, b: nat, n: nat)
    requires IsRun(c, run) && b < n < |run.states|
    requires run.steps[b].Acquire?
    requires forall k :: b < k < n ==> !run.steps[k].Acquire? && !run.steps[k].Restart? && !Faulty(run.steps[k])
    requires run.states[n].holder == None && !run.states[n].flag
    ensures run.states[n].runtime !! Controlled(c)
    ensures forall t :: ActedOn(c, t) ==> t !in run.states[n].runtime
  {
    hide Follows, Plan, ActedOn;
    ControlledExactly(c);
    CleanRun(c, run, b, n);
  }

  // ----- flag on -----

  /** Process p is inside its enable section and has brought up the inbounds before position next. */
  ghost predicate BringingUp(c: Settings, s: State, p: nat) {
    && s.holder == Some(p) && p in s.procs
    && match s.procs[p]
       case Entered(kind) => kind == Enable
       case Applying(enable, next) =>
         enable && s.flag && next <= |Plan(c)| && forall j :: 0 <= j < next ==> Plan(c)[j] in s.runtime
       case _ => false
  }

  lemma {:induction false} EnableSection(c: Settings, run: Run, b: nat, n: nat, p: nat)
    requires IsRun(c, run) && b < n < |run.states|
    requires run.steps[b] == Acquire(p) && At(run.states[b], p, Waiting(Enable))
    requires forall k :: b < k < n ==> !run.steps[k].Release? && !run.steps[k].Restart? && !Faulty(run.steps[k])
    ensures BringingUp(c, run.states[n], p)
  {
    hide Plan;
    AlwaysExclusive(c, run, n - 1);
    assert Can(c, run.states[n - 1], run.steps[n - 1]);
    if n > b + 1 {
      EnableSection(c, run, b, n - 1, p);
    }
  }

  /** Up and not about to be torn down. */
  ghost predicate Up(c: Settings, s: State) {
    && s.flag && Controlled(c) <= s.runtime
    && forall p :: p in s.procs && s.procs[p].Applying? ==> s.procs[p].enable
  }

  lemma EnableDone(c: Settings, s: State, p: nat)
    requires Exclusive(s) && BringingUp(c, s, p) && Can(c, s, Release(p))
    ensures Up(c, Next(c, s, Release(p)))
  {
    hide Plan;
  }

  lemma UpStep(c: Settings, s: State, step: Step)
    requires Up(c, s) && Can(c, s, step) && !step.Restart? && Next(c, s, step).flag
    ensures Up(c, Next(c, s, step))
  {
    hide Plan;
  }

  /** Main result: after an enable without errors every controlled inbound stays up, whatever ticks, failing
      calls and further enables follow, until Xray restarts or the flag is switched off. */
  lemma {:induction false} OnMeansPresent(c: Settings, run: Run, b: nat, e: nat, n: nat, p: nat)
    requires IsRun(c, run) && b < e < n < |run.states|
    requires run.steps[b] == Acquire(p) && At(run.states[b], p, Waiting(Enable)) && run.steps[e] == Release(p)
    requires forall k :: b < k < e ==> !run.steps[k].Release? && !Faulty(run.steps[k])
    requires forall k :: b < k < n ==> !run.steps[k].Restart? && (run.states[k].flag ==> run.states[k + 1].flag)
    ensures Up(c, run.states[n])
    ensures forall t :: ActedOn(c, t) ==> t in run.states[n].runtime
  {
    hide Follows, Can, Next, Init, Up, BringingUp, Exclusive, At, ActedOn, Controlled;
    ControlledExactly(c);
    StepAt(c, run, n - 1);
    if n == e + 1 {
      AlwaysExclusive(c, run, e);
      EnableSection(c, run, b, e, p);
      EnableDone(c, run.states[e], p);
    } else {
      OnMeansPresent(c, run, b, e, n - 1, p);
      UpHasFlag(c, run.states[n - 1]);
      assert run.states[n - 1].flag ==> run.states[n - 1 + 1].flag;
      UpStep(c, run.states[n - 1], run.steps[n - 1]);
    }
    UpHasFlag(c, run.states[n]);
  }

  lemma UpHasFlag(c: Settings, s: State)
    requires Up(c, s)
    ensures s.flag && Controlled(c) <= s.runtime
  {
  }

  // ----- framing and recovery -----

  /** Nothing but a restart touches an inbound outside the controlled tags. */
  lemma OthersUntouched(c: Settings, s: State, step: Step)
    requires Can(c, s, step) && !step.Restart?
    ensures Next(c, s, step).runtime - Controlled(c) == s.runtime - Controlled(c)
    ensures forall t :: !ActedOn(c, t) ==> (t in Next(c, s, step).runtime <==> t in s.runtime)
  {
    hide Plan, ActedOn;
    ControlledExactly(c);
  }

  /** Over a whole run without restarts the uncontrolled inbounds stay as they were. */
  lemma {:induction false} OthersUntouchedOverRuns(c: Settings, run: Run, b: nat, n: nat)
    requires IsRun(c, run) && b <= n < |run.states|
    requires forall k :: b <= k < n ==> !run.steps[k].Restart?
    ensures run.states[n].runtime - Controlled(c) == run.states[b].runtime - Controlled(c)
    ensures forall t :: !ActedOn(c, t) ==> (t in run.states[n].runtime <==> t in run.states[b].runtime)
  {
    hide ActedOn;
    if n > b {
      OthersUntouchedOverRuns(c, run, b, n - 1);
      assert Can(c, run.states[n - 1], run.steps[n - 1]);
      OthersUntouched(c, run.states[n - 1], run.steps[n - 1]);
    }
  }

  /** A tick that finds the flag on changes neither the flag nor the runtime: it never brings anything back. */
  lemma {:induction false} TickWithFlagOnIsIdle(c: Settings, run: Run, b: nat, n: nat, p: nat)
    requires IsRun(c, run) && b < n < |run.states|
    requires run.steps[b] == Acquire(p) && At(run.states[b], p, Waiting(Tick)) && run.states[b].flag
    requires forall k :: b < k < n ==> !run.steps[k].Release? && !run.steps[k].Restart?
    ensures run.states[n].flag && run.states[n].runtime == run.states[b].runtime
    ensures At(run.states[n], p, Entered(Tick)) || At(run.states[n], p, Leaving)
  {
    hide Plan;
    AlwaysExclusive(c, run, n - 1);
    AlwaysExclusive(c, run, n);
    assert Can(c, run.states[n - 1], run.steps[n - 1]);
    if n > b + 1 {
      TickWithFlagOnIsIdle(c, run, b, n - 1, p);
    }
  }

  function TagsFrom(plan: seq<Tag>, i: nat): set<Tag>
    requires i <= |plan|
  {
    set t | t in plan[i..]
  }

  /** Removing the tags from position i on, every call answered truthfully. */
  lemma {:induction false} RemovalsRun(c: Settings, s: State, p: nat, i: nat) returns (run: Run)
    requires i <= |Plan(c)| && At(s, p, Applying(false, i))
    ensures Follows(c, run) && run.states[0] == s
    ensures forall k :: 0 <= k < |run.steps| ==> run.steps[k].Rpc? && !Faulty(run.steps[k])
    ensures run.states[|run.steps|] == s.(runtime := s.runtime - TagsFrom(Plan(c), i),
                                          procs := s.procs[p := Applying(false, |Plan(c)|)])
    decreases |Plan(c)| - i
  {
    hide Plan;
    if i == |Plan(c)| {
      run := Run([s], []);
      assert s.procs[p := Applying(false, i)] == s.procs;
    } else {
      var step := Rpc(p, if Plan(c)[i] in s.runtime then Done else Benign);
      var s' := Next(c, s, step);
      var rest := RemovalsRun(c, s', p, i + 1);
      run := Run([s] + rest.states, [step] + rest.steps);
      var later := TagsFrom(Plan(c), i + 1);
      assert Plan(c)[i..] == [Plan(c)[i]] + Plan(c)[i + 1..];
      assert TagsFrom(Plan(c), i) == {Plan(c)[i]} + later;
      assert s'.runtime - later == s.runtime - ({Plan(c)[i]} + later);
      forall k | 0 <= k < |run.steps|
        ensures Can(c, run.states[k], run.steps[k]) && run.states[k + 1] == Next(c, run.states[k], run.steps[k])
      {
        if k > 0 {
          assert Can(c, rest.states[k - 1], rest.steps[k - 1]);
        }
      }
    }
  }

  /** Recovery is always possible: with the mutex free and the flag off, a tick answered truthfully can run
      to its end, and leaves exactly the uncontrolled inbounds. */
  lemma TickRecovers(c: Settings, s: State, p: nat) returns (run: Run)
    requires s.holder == None && !s.flag && p !in s.procs
    ensures Follows(c, run) && run.states[0] == s
    ensures forall k :: 0 <= k < |run.steps| ==> !Faulty(run.steps[k]) && !run.steps[k].Restart?
    ensures run.states[|run.steps|] == s.(runtime := s.runtime - Controlled(c))
    ensures forall t :: t in run.states[|run.steps|].runtime <==> t in s.runtime && !ActedOn(c, t)
  {
    hide Plan, ActedOn;
    ControlledExactly(c);
    var s1 := Next(c, s, Spawn(p, Tick));
    var s2 := Next(c, s1, Acquire(p));
    var s3 := Next(c, s2, ReadFlag(p, true));
    var mid := RemovalsRun(c, s3, p, 0);
    var s4 := mid.states[|mid.steps|];
    var s5 := Next(c, s4, Release(p));
    run := Run([s, s1, s2] + mid.states + [s5], [Spawn(p, Tick), Acquire(p), ReadFlag(p, true)] + mid.steps + [Release(p)]);
    assert Plan(c)[0..] == Plan(c);
    assert s5.procs == s.procs;
    forall k | 0 <= k < |run.steps|
      ensures Can(c, run.states[k], run.steps[k]) && run.states[k + 1] == Next(c, run.states[k], run.steps[k])
      ensures !Faulty(run.steps[k]) && !run.steps[k].Restart?
    {
      if 3 <= k < 3 + |mid.steps| {
        assert run.steps[k] == mid.steps[k - 3] && run.states[k] == mid.states[k - 3];
        assert Can(c, mid.states[k - 3], mid.steps[k - 3]);
      } else if k == 3 + |mid.steps| {
        assert run.states[k] == s4;
      }
    }
  }

  // ----- the handlers -----

  /** The runtime after applying a plan, one outcome per tag. */
  function Applied(plan: seq<Tag>, enable: bool, outcomes: seq<Outcome>, runtime: set<Tag>): set<Tag>
    requires |outcomes| == |plan|
  {
    if plan == [] then runtime
    else Applied(plan[1..], enable, outcomes[1..], Effect(enable, plan[0], outcomes[0], runtime))
  }

  lemma {:induction false} AppliedAppend(plan: seq<Tag>, t: Tag, enable: bool, outcomes: seq<Outcome>, o: Outcome, runtime: set<Tag>)
    requires |outcomes| == |plan|
    ensures Applied(plan + [t], enable, outcomes + [o], runtime) == Effect(enable, t, o, Applied(plan, enable, outcomes, runtime))
  {
    if plan == [] {
      assert Applied([t], enable, [o], runtime) == Applied([t][1..], enable, [o][1..], Effect(enable, t, o, runtime));
      assert plan + [t] == [t] && outcomes + [o] == [o];
    } else {
      AppliedAppend(plan[1..], t, enable, outcomes[1..], o, Effect(enable, plan[0], outcomes[0], runtime));
      assert (plan + [t])[1..] == plan[1..] + [t] && (outcomes + [o])[1..] == outcomes[1..] + [o];
    }
  }

  /** What a whole plan achieves, tag by tag: a tag ends as wanted if some call for it took effect, and as it
      was otherwise. */
  lemma {:induction false} AppliedPointwise(plan: seq<Tag>, enable: bool, outcomes: seq<Outcome>, runtime: set<Tag>, t: Tag)
    requires |outcomes| == |plan|
    ensures t in Applied(plan, enable, outcomes, runtime) <==>
            if exists i :: 0 <= i < |plan| && plan[i] == t && (outcomes[i] == Done || outcomes[i] == Failed(true)) then enable
            else t in runtime
  {
    if plan != [] {
      var rt := Effect(enable, plan[0], outcomes[0], runtime);
      AppliedPointwise(plan[1..], enable, outcomes[1..], rt, t);
      if i :| 0 <= i < |plan[1..]| && plan[1..][i] == t && (outcomes[1..][i] == Done || outcomes[1..][i] == Failed(true)) {
        assert plan[i + 1] == t && outcomes[i + 1] == outcomes[1..][i];
      } else {
        assert forall i :: 1 <= i < |plan| ==> plan[i] == plan[1..][i - 1] && outcomes[i] == outcomes[1..][i - 1];
      }
    }
  }

  /** What the calls of process p came back with, in order. */
  function Outcomes(steps: seq<Step>, p: nat): seq<Outcome> {
    if steps == [] then []
    else if steps[0].Rpc? && steps[0].pid == p then [steps[0].outcome] + Outcomes(steps[1..], p)
    else Outcomes(steps[1..], p)
  }

  /** Inside a critical section of p, a step of anybody else that is not a restart changes nothing p works on. */
  lemma OthersStayOut(c: Settings, s: State, p: nat, pc: Pc, step: Step)
    requires Exclusive(s) && s.holder == Some(p) && At(s, p, pc) && pc.Applying? && Can(c, s, step)
    requires !step.Restart? && step != Release(p) && !(step.Rpc? && step.pid == p)
    ensures var s' := Next(c, s, step);
            Exclusive(s') && s'.holder == Some(p) && At(s', p, pc) && s'.runtime == s.runtime
  {
    hide Plan;
  }

  /** A call of p itself. */
  lemma OwnCall(c: Settings, s: State, p: nat, enable: bool, i: nat, o: Outcome)
    requires Exclusive(s) && s.holder == Some(p) && At(s, p, Applying(enable, i)) && Can(c, s, Rpc(p, o))
    ensures i < |Plan(c)|
    ensures var s' := Next(c, s, Rpc(p, o));
            Exclusive(s') && s'.holder == Some(p) && At(s', p, Applying(enable, i + 1))
            && s'.runtime == Effect(enable, Plan(c)[i], o, s.runtime)
  {
    hide Plan, Effect;
  }

  lemma AppliedHead(plan: seq<Tag>, i: nat, n: nat, enable: bool, o: Outcome, more: seq<Outcome>, runtime: set<Tag>)
    requires i + 1 + n <= |plan| && n == |more|
    ensures Applied(plan[i..i + 1 + n], enable, [o] + more, runtime)
         == Applied(plan[i + 1..i + 1 + n], enable, more, Effect(enable, plan[i], o, runtime))
  {
    hide Effect;
    assert plan[i..i + 1 + n][1..] == plan[i + 1..i + 1 + n];
    assert ([o] + more)[1..] == more;
  }

  /** From inside a critical section of p on, as long as p does not leave it and Xray does not restart, the runtime
      is what applying the next tags with p's outcomes makes of it, whoever else is scheduled in between. */
  lemma {:induction false} SectionIsApplied(c: Settings, run: Run, p: nat, enable: bool, i: nat)
    requires Follows(c, run) && Exclusive(run.states[0]) && run.states[0].holder == Some(p)
    requires At(run.states[0], p, Applying(enable, i)) && i <= |Plan(c)|
    requires forall k :: 0 <= k < |run.steps| ==> !run.steps[k].Restart? && run.steps[k] != Release(p)
    ensures var outcomes, last := Outcomes(run.steps, p), run.states[|run.steps|];
            && i + |outcomes| <= |Plan(c)|
            && last.runtime == Applied(Plan(c)[i..i + |outcomes|], enable, outcomes, run.states[0].runtime)
            && last.holder == Some(p) && At(last, p, Applying(enable, i + |outcomes|))
    decreases |run.steps|
  {
    hide Plan, Exclusive, Can, Next, Applied, Effect;
    if run.steps == [] {
      assert Plan(c)[i..i] == [];
      NothingApplied(enable, run.states[0].runtime);
    } else {
      var s, step := run.states[0], run.steps[0];
      var rest := Run(run.states[1..], run.steps[1..]);
      assert Can(c, s, step) && run.states[0 + 1] == Next(c, s, step);
      forall k | 0 <= k < |rest.steps|
        ensures Can(c, rest.states[k], rest.steps[k]) && rest.states[k + 1] == Next(c, rest.states[k], rest.steps[k])
        ensures !rest.steps[k].Restart? && rest.steps[k] != Release(p)
      {
        assert Can(c, run.states[k + 1], run.steps[k + 1]) && rest.steps[k] == run.steps[k + 1];
      }
      var more := Outcomes(rest.steps, p);
      if step.Rpc? && step.pid == p {
        OwnCall(c, s, p, enable, i, step.outcome);
        SectionIsApplied(c, rest, p, enable, i + 1);
        AppliedHead(Plan(c), i, |more|, enable, step.outcome, more, s.runtime);
      } else {
        OthersStayOut(c, s, p, Applying(enable, i), step);
        SectionIsApplied(c, rest, p, enable, i);
      }
    }
  }

  /** The server side of one Xray process. Replies are supplied by the environment, in call order. */
  class Server {
    const settings: Settings
    var flag: bool
    var runtime: set<Tag>

    constructor (settings: Settings, flag: bool, runtime: set<Tag>)
      ensures this.settings == settings && this.flag == flag && this.runtime == runtime
    {
      this.settings, this.flag, this.runtime := settings, flag, runtime;
    }

    method ApplyKillSwitchInboundsLocked(enable: bool, outcomes: seq<Outcome>)
      requires |outcomes| == |Plan(settings)|
      modifies this`runtime
      ensures runtime == Applied(Plan(settings), enable, outcomes, old(runtime))
    {
      hide Trim, Applied, Filter;
      var tags := if |settings.killSwitchTags| > 0 then settings.killSwitchTags else settings.fallbackTags;
      if Trim(settings.apiAddr) == "" || |tags| == 0 {
        NothingApplied(enable, runtime);
        FilterNone(NonBlank, Map(Trim, tags[..0]));
        assert tags[..0] == [] && (|tags| == 0 ==> tags == []);
        return;
      }
      ghost var trimmed := Map(Trim, tags);
      ghost var plan := Filter(NonBlank, trimmed);
      var calls := 0;
      NothingApplied(enable, runtime);
      FilterNone(NonBlank, trimmed[..0]);
      assert outcomes[..0] == [] && Filter(NonBlank, trimmed[..0]) == [];
      for i := 0 to |tags|
        invariant Filter(NonBlank, trimmed) == plan == Plan(settings)
        invariant calls == |Filter(NonBlank, trimmed[..i])| <= |plan|
        invariant runtime == Applied(Filter(NonBlank, trimmed[..i]), enable, outcomes[..calls], old(runtime))
      {
        hide Plan, Map;
        PlanStep(trimmed, i);
        var tag := Trim(tags[i]);
        if tag == "" {
          continue;
        }
        var o := outcomes[calls];
        assert outcomes[..calls] + [o] == outcomes[..calls + 1];
        AppliedAppend(Filter(NonBlank, trimmed[..i]), tag, enable, outcomes[..calls], o, old(runtime));
        if o == Done || o == Failed(true) {
          runtime := if enable then runtime + {tag} else runtime - {tag};
        }
        calls := calls + 1;
      }
      assert trimmed[..|tags|] == trimmed && outcomes[..|plan|] == outcomes;
    }

    method EnableFallback(saved: bool, outcomes: seq<Outcome>) returns (ok: bool)
      requires |outcomes| == |Plan(settings)|
      modifies this
      ensures ok == saved
      ensures flag == (saved || old(flag))
      ensures runtime == if saved then Applied(Plan(settings), true, outcomes, old(runtime)) else old(runtime)
    {
      if !saved {
        return false;
      }
      flag := true;
      ApplyKillSwitchInboundsLocked(true, outcomes);
      return true;
    }

    method DisableFallback(saved: bool, outcomes: seq<Outcome>) returns (ok: bool)
      requires |outcomes| == |Plan(settings)|
      modifies this
      ensures ok == saved
      ensures flag == (!saved && old(flag))
      ensures runtime == if saved then Applied(Plan(settings), false, outcomes, old(runtime)) else old(runtime)
    {
      if !saved {
        return false;
      }
      flag := false;
      ApplyKillSwitchInboundsLocked(false, outcomes);
      return true;
    }

    method ReconcileKillSwitchLocked(readable: bool, outcomes: seq<Outcome>)
      requires |outcomes| == |Plan(settings)|
      modifies this`runtime
      ensures runtime == if readable && !flag then Applied(Plan(settings), false, outcomes, old(runtime)) else old(runtime)
    {
      if !readable || flag {
        return;
      }
      ApplyKillSwitchInboundsLocked(false, outcomes);
    }
  }

  /** One more tag of the list. */
  lemma PlanStep(trimmed: seq<string>, i: nat)
    requires i < |trimmed|
    ensures Filter(NonBlank, trimmed[..i + 1]) == Filter(NonBlank, trimmed[..i]) + if trimmed[i] == "" then [] else [trimmed[i]]
    ensures trimmed[i] == "" ==> Filter(NonBlank, trimmed[..i + 1]) == Filter(NonBlank, trimmed[..i])
    ensures |Filter(NonBlank, trimmed[..i + 1])| <= |Filter(NonBlank, trimmed)|
  {
    hide Filter;
    FilterStep(NonBlank, trimmed, i);
    assert Filter(NonBlank, trimmed[..i]) + [] == Filter(NonBlank, trimmed[..i]);
    assert trimmed == trimmed[..i + 1] + trimmed[i + 1..];
    FilterConcat(NonBlank, trimmed[..i + 1], trimmed[i + 1..]);
  }

  lemma NothingApplied(enable: bool, runtime: set<Tag>)
    ensures Applied([], enable, [], runtime) == runtime
  {
  }
}
