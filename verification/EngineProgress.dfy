/**
 Termination of the engine, and the states in which it stops. Every action uses up part of a bounded measure, so no
 run is longer than a number read off the program. A run that cannot go on has pushed every operation, and what has
 not finished waits for something appended earlier.
 */
module EngineProgress {
  import opened EngineVar
  import opened Engine
  import opened EngineVarProofs
  import opened EngineProofs
  import opened EngineTheorems

  // ----- the measure

  function RefWeight(phase: map<Ref, Phase>, q: Ref): nat {
    if q !in phase then 4 else
      match phase[q]
      case Queued => 3
      case Triggered => 2
      case Granted => 1
      case Completed => 0
  }

  function StatusWeight<T>(status: Status<T>): nat {
    match status
    case Unpushed => 6
    case Pushing(_) => 5
    case Waiting => 4
    case Ready => 3
    case Running(_) => 2
    case Completing(_, _) => 1
    case Finished => 0
  }

  function DepsWeight(phase: map<Ref, Phase>, o: nat, n: nat): nat {
    if n == 0 then 0 else DepsWeight(phase, o, n - 1) + RefWeight(phase, Ref(o, n - 1))
  }

  function OpsWeight<T>(p: Program<T>, s: State<T>, k: nat): nat
    requires k <= |p.ops| && |s.status| == |p.ops|
  {
    if k == 0 then 0
    else OpsWeight(p, s, k - 1) + StatusWeight(s.status[k - 1]) + DepsWeight(s.phase, k - 1, NDeps(p, k - 1))
  }

  function Measure<T>(p: Program<T>, s: State<T>): nat
    requires |s.status| == |p.ops|
  {
    OpsWeight(p, s, |p.ops|)
  }

  lemma {:induction false} DepsWeightFalls(phase: map<Ref, Phase>, phase': map<Ref, Phase>, o: nat, n: nat)
    requires forall q :: RefWeight(phase', q) <= RefWeight(phase, q)
    ensures DepsWeight(phase', o, n) <= DepsWeight(phase, o, n)
    ensures (exists j :: 0 <= j < n && RefWeight(phase', Ref(o, j)) < RefWeight(phase, Ref(o, j))) ==>
      DepsWeight(phase', o, n) < DepsWeight(phase, o, n)
  {
    if n > 0 { DepsWeightFalls(phase, phase', o, n - 1); }
  }

  /** Something about operation o has moved forward. */
  ghost predicate Moved<T>(p: Program<T>, s: State<T>, s': State<T>, o: nat)
    requires o < |p.ops| && |s.status| == |s'.status| == |p.ops|
  {
    || StatusWeight(s'.status[o]) < StatusWeight(s.status[o])
    || exists j :: 0 <= j < NDeps(p, o) && RefWeight(s'.phase, Ref(o, j)) < RefWeight(s.phase, Ref(o, j))
  }

  lemma {:induction false} OpsWeightFalls<T>(p: Program<T>, s: State<T>, s': State<T>, k: nat)
    requires k <= |p.ops| && |s.status| == |s'.status| == |p.ops|
    requires forall q :: RefWeight(s'.phase, q) <= RefWeight(s.phase, q)
    requires forall o :: 0 <= o < k ==> StatusWeight(s'.status[o]) <= StatusWeight(s.status[o])
    ensures OpsWeight(p, s', k) <= OpsWeight(p, s, k)
    ensures (exists o :: 0 <= o < k && Moved(p, s, s', o)) ==> OpsWeight(p, s', k) < OpsWeight(p, s, k)
  {
    if k > 0 {
      OpsWeightFalls(p, s, s', k - 1);
      DepsWeightFalls(s.phase, s'.phase, k - 1, NDeps(p, k - 1));
    }
  }

  /** Nothing has moved back, and something about an operation has moved forward. */
  ghost predicate Advances<T>(p: Program<T>, s: State<T>, s': State<T>)
    requires |s.status| == |p.ops|
  {
    && |s'.status| == |p.ops|
    && (forall q :: RefWeight(s'.phase, q) <= RefWeight(s.phase, q))
    && (forall o :: 0 <= o < |p.ops| ==> StatusWeight(s'.status[o]) <= StatusWeight(s.status[o]))
    && exists o :: 0 <= o < |p.ops| && Moved(p, s, s', o)
  }

  lemma AdvancesBy<T>(p: Program<T>, s: State<T>, s': State<T>, q: Ref)
    requires |s.status| == |s'.status| == |p.ops| && IsRef(p, q)
    requires forall a :: RefWeight(s'.phase, a) <= RefWeight(s.phase, a)
    requires RefWeight(s'.phase, q) < RefWeight(s.phase, q)
    requires forall o :: 0 <= o < |p.ops| ==> StatusWeight(s'.status[o]) <= StatusWeight(s.status[o])
    ensures Advances(p, s, s')
  {
    assert q == Ref(q.op, q.dep) && Moved(p, s, s', q.op);
  }

  lemma CompleteWeights(phase: map<Ref, Phase>, q: Ref, triggered: seq<Ref>)
    requires q in phase && phase[q] == Granted
    requires forall a :: a in triggered ==> a in phase && phase[a] == Queued
    ensures var phase' := Mark(Mark(phase, [q], Completed), triggered, Triggered);
      (forall a :: RefWeight(phase', a) <= RefWeight(phase, a)) && RefWeight(phase', q) < RefWeight(phase, q)
  {
  }

  lemma CompleteAdvances<T>(p: Program<T>, s: State<T>, o: nat)
    requires CoreInv(p, s) && Enabled(p, s, CompleteDep(o)) && Checks(p, s, CompleteDep(o))
    ensures Advances(p, s, Do(p, s, CompleteDep(o)))
  {
    NextIsGranted(p, s, o);
    CompleteVar(p, s, o);
    CompleteStepAdvances(p, s, Ref(o, s.status[o].at));
  }

  lemma CompleteStepAdvances<T>(p: Program<T>, s: State<T>, q: Ref)
    requires |s.status| == |p.ops| && IsRef(p, q) && q in s.phase && s.phase[q] == Granted && s.status[q.op].Completing?
    requires VarOf(p, q) < |s.vars| && (IsWrite(p, q) ==> s.vars[VarOf(p, q)].queue != [])
    requires forall a :: a in CompleteStep(p, s, q).status[q.op].todo ==> a in s.phase && s.phase[a] == Queued
    ensures Advances(p, s, CompleteStep(p, s, q))
  {
    var s' := CompleteStep(p, s, q);
    CompleteWeights(s.phase, q, s'.status[q.op].todo);
    AdvancesBy(p, s, s', q);
  }

  lemma DecrWaitAdvances<T>(p: Program<T>, s: State<T>, o: nat)
    requires CoreInv(p, s) && Enabled(p, s, DecrWait(o)) && Checks(p, s, DecrWait(o))
    ensures Advances(p, s, Do(p, s, DecrWait(o)))
  {
    TriggeredWaits(p, s, o);
    GrantAdvances(p, s, o, s.status[o].todo[0]);
  }

  lemma GrantAdvances<T>(p: Program<T>, s: State<T>, o: nat, q: Ref)
    requires ValidProgram(p) && Enabled(p, s, DecrWait(o)) && Checks(p, s, DecrWait(o)) && q == s.status[o].todo[0]
    requires IsRef(p, q) && q in s.phase && s.phase[q] == Triggered && StillAwaits(s, q.op)
    ensures Advances(p, s, Do(p, s, DecrWait(o)))
  {
    AdvancesBy(p, s, Do(p, s, DecrWait(o)), q);
  }

  lemma StepFalls<T>(p: Program<T>, s: State<T>, a: Action)
    requires CoreInv(p, s) && Enabled(p, s, a) && Checks(p, s, a)
    ensures |Do(p, s, a).status| == |p.ops| && Measure(p, Do(p, s, a)) < Measure(p, s)
  {
    StepAdvances(p, s, a);
    OpsWeightFalls(p, s, Do(p, s, a), |p.ops|);
  }

  lemma StepAdvances<T>(p: Program<T>, s: State<T>, a: Action)
    requires CoreInv(p, s) && Enabled(p, s, a) && Checks(p, s, a)
    ensures Advances(p, s, Do(p, s, a))
  {
    if a.CompleteDep? {
      CompleteAdvances(p, s, a.op);
    } else if a.DecrWait? {
      DecrWaitAdvances(p, s, a.op);
    } else if a.Append? {
      AppendAdvances(p, s, Ref(a.op, s.status[a.op].next));
    } else {
      StatusAdvances(p, s, a);
    }
  }

  lemma StatusAdvances<T>(p: Program<T>, s: State<T>, a: Action)
    requires ValidProgram(p) && Enabled(p, s, a) && Checks(p, s, a)
    requires !a.CompleteDep? && !a.DecrWait? && !a.Append?
    ensures Advances(p, s, Do(p, s, a))
  {
    assert Moved(p, s, Do(p, s, a), a.op);
  }

  lemma AppendAdvances<T>(p: Program<T>, s: State<T>, q: Ref)
    requires ShapeInv(p, s) && IsRef(p, q) && VarOf(p, q) < |s.vars| && s.status[q.op] == Pushing(q.dep)
    ensures Advances(p, s, AppendStep(p, s, q))
  {
    AppendShape(p, s, q);
    AdvancesBy(p, s, AppendStep(p, s, q), q);
  }

  /** The longest a run can be: six actions an operation and four a dependency. */
  function Bound<T>(p: Program<T>, k: nat): nat
    requires k <= |p.ops|
  {
    if k == 0 then 0 else Bound(p, k - 1) + 6 + 4 * NDeps(p, k - 1)
  }

  lemma {:induction false} InitWeight<T>(p: Program<T>, k: nat)
    requires k <= |p.ops|
    ensures OpsWeight(p, Init(p), k) == Bound(p, k)
  {
    if k > 0 {
      InitWeight(p, k - 1);
      FreshWeight(k - 1, NDeps(p, k - 1));
    }
  }

  lemma {:induction false} FreshWeight(o: nat, n: nat)
    ensures DepsWeight(map[], o, n) == 4 * n
  {
    if n > 0 { FreshWeight(o, n - 1); }
  }

  lemma {:induction false} RunMeasure<T>(p: Program<T>, states: seq<State<T>>, actions: seq<Action>, i: nat)
    requires ValidProgram(p) && IsRun(p, states, actions) && i < |states|
    ensures |states[i].status| == |p.ops| && i + Measure(p, states[i]) <= Bound(p, |p.ops|)
  {
    if i == 0 {
      InitWeight(p, |p.ops|);
    } else {
      RunMeasure(p, states, actions, i - 1);
      NextFalls(p, states, actions, i - 1);
    }
  }

  lemma NextFalls<T>(p: Program<T>, states: seq<State<T>>, actions: seq<Action>, i: nat)
    requires ValidProgram(p) && IsRun(p, states, actions) && i < |actions|
    ensures |states[i].status| == |states[i + 1].status| == |p.ops|
    ensures Measure(p, states[i + 1]) < Measure(p, states[i])
  {
    RunCore(p, states, actions, i);
    StepFalls(p, states[i], actions[i]);
  }

  /** No run goes on for ever. */
  lemma RunsAreBounded<T>(p: Program<T>, states: seq<State<T>>, actions: seq<Action>)
    requires ValidProgram(p) && IsRun(p, states, actions)
    ensures |actions| <= Bound(p, |p.ops|)
  {
    RunMeasure(p, states, actions, |actions|);
  }

  // ----- states in which nothing can happen

  ghost predicate Stuck<T>(p: Program<T>, s: State<T>) {
    forall a :: !Enabled(p, s, a)
  }

  /** In a stuck state every operation has been pushed and either waits or has finished. */
  lemma StuckShape<T>(p: Program<T>, s: State<T>)
    requires CoreInv(p, s) && Stuck(p, s)
    ensures forall o :: 0 <= o < |p.ops| ==> s.status[o].Waiting? || s.status[o].Finished?
    ensures forall q :: IsRef(p, q) ==> q in s.phase && s.phase[q] != Triggered
  {
    forall o | 0 <= o < |p.ops| ensures s.status[o].Waiting? || s.status[o].Finished? {
      assert OpInv(p, s, o);
      assert !Enabled(p, s, BeginPush(o)) && !Enabled(p, s, Append(o)) && !Enabled(p, s, EndPush(o));
      assert !Enabled(p, s, Start(o)) && !Enabled(p, s, Return(o)) && !Enabled(p, s, CompleteDep(o));
      assert !Enabled(p, s, DecrWait(o)) && !Enabled(p, s, Retire(o));
    }
    forall q | IsRef(p, q) ensures q in s.phase && s.phase[q] != Triggered {
      assert Appended(s, q);
      assert forall o :: !HasTodo(s, o, q);
    }
  }

  /** What keeps dependency q waiting: a conflicting one that was appended earlier and has not completed. */
  lemma Blocker<T>(p: Program<T>, s: State<T>, q: Ref) returns (a: Ref)
    requires CoreInv(p, s) && q in s.phase && s.phase[q] == Queued
    ensures a in s.phase && Conflict(p, q, a) && Before(s.time, a, q) && s.phase[a] != Completed
  {
    var v := VarOf(p, q);
    var x := s.vars[v];
    assert VarInv(p, v, x, s.phase, s.time);
    assert InQueue(x, q);
    var i :| 0 <= i < |x.queue| && x.queue[i].trigger == q;
    var w := x.queue[0].trigger;
    if i > 0 {
      a := w;
    } else {
      a := ReaderBefore(p, s, v);
    }
  }

  /** A write at the front waits for a reader. */
  lemma ReaderBefore<T>(p: Program<T>, s: State<T>, v: nat) returns (a: Ref)
    requires CoreInv(p, s) && v < |s.vars| && s.vars[v].queue != []
    requires s.vars[v].queue[0].trigger in s.phase && s.phase[s.vars[v].queue[0].trigger] == Queued
    ensures
      var w := s.vars[v].queue[0].trigger;
      a in s.phase && Conflict(p, w, a) && Before(s.time, a, w) && s.phase[a] != Completed
  {
    var x := s.vars[v];
    var w := x.queue[0].trigger;
    assert VarInv(p, v, x, s.phase, s.time);
    assert Readers(p, v, s.phase) != {};
    a :| a in Readers(p, v, s.phase);
    assert Conflict(p, w, a);
    assert Before(s.time, a, w) || Before(s.time, w, a);
  }

  lemma WaitsFor<T>(p: Program<T>, s: State<T>, o: nat) returns (q: Ref)
    requires CoreInv(p, s) && Stuck(p, s) && o < |p.ops| && s.status[o].Waiting?
    ensures q.op == o && q in s.phase && s.phase[q] == Queued
  {
    StuckShape(p, s);
    assert OpInv(p, s, o);
    var n := NDeps(p, o);
    if forall j :: 0 <= j < n ==> Settled(s.phase, Ref(o, j)) {
      AllSettled(s.phase, o, n);
    }
    var j :| 0 <= j < n && !Settled(s.phase, Ref(o, j));
    q := Ref(o, j);
  }

  lemma {:induction false} AllSettled(phase: map<Ref, Phase>, o: nat, n: nat)
    requires forall j :: 0 <= j < n ==> Settled(phase, Ref(o, j))
    ensures Outstanding(phase, o, n) == 0
  {
    if n > 0 { AllSettled(phase, o, n - 1); }
  }

  /** The run with one more action. */
  lemma OneMore<T>(p: Program<T>, states: seq<State<T>>, actions: seq<Action>, a: Action)
    requires ValidProgram(p) && IsRun(p, states, actions) && Enabled(p, states[|actions|], a)
    ensures Checks(p, states[|actions|], a)
    ensures IsRun(p, states + [Do(p, states[|actions|], a)], actions + [a])
    ensures |actions| < Bound(p, |p.ops|)
  {
    RunInv(p, states, actions, |actions|);
    ChecksHold(p, states[|actions|], a);
    RunsAreBounded(p, states + [Do(p, states[|actions|], a)], actions + [a]);
  }

  /** Any run can be continued until it is stuck. */
  lemma RunToStuck<T>(p: Program<T>, states: seq<State<T>>, actions: seq<Action>)
    returns (states': seq<State<T>>, actions': seq<Action>)
    requires ValidProgram(p) && IsRun(p, states, actions)
    ensures IsRun(p, states', actions') && Stuck(p, states'[|actions'|])
    ensures states <= states' && actions <= actions'
    decreases Bound(p, |p.ops|) - |actions|
  {
    var s := states[|actions|];
    if Stuck(p, s) {
      states', actions' := states, actions;
    } else {
      var a :| Enabled(p, s, a);
      OneMore(p, states, actions, a);
      states', actions' := RunToStuck(p, states + [Do(p, s, a)], actions + [a]);
    }
  }

  /** An operation that conflicts with itself is never dispatched. */
  lemma {:induction false} SelfConflictNeverRuns<T>(p: Program<T>, states: seq<State<T>>, actions: seq<Action>, i: nat,
                                                    a: Ref, b: Ref)
    requires ValidProgram(p) && IsRun(p, states, actions) && i < |states|
    requires IsRef(p, a) && IsRef(p, b) && a.op == b.op && Conflict(p, a, b)
    ensures |states[i].status| == |p.ops| && NotDispatched(states[i].status[a.op])
  {
    if i == 0 {
    } else {
      SelfConflictNeverRuns(p, states, actions, i - 1, a, b);
      SelfConflictNext(p, states, actions, i - 1, a, b);
    }
  }

  lemma SelfConflictNext<T>(p: Program<T>, states: seq<State<T>>, actions: seq<Action>, i: nat, a: Ref, b: Ref)
    requires ValidProgram(p) && IsRun(p, states, actions) && i < |actions|
    requires IsRef(p, a) && IsRef(p, b) && a.op == b.op && Conflict(p, a, b)
    requires |states[i].status| == |p.ops| && NotDispatched(states[i].status[a.op])
    ensures |states[i + 1].status| == |p.ops| && NotDispatched(states[i + 1].status[a.op])
  {
    RunCore(p, states, actions, i + 1);
    SelfConflictStays(p, states[i], actions[i], states[i + 1], a, b);
  }

  lemma SelfConflictStays<T>(p: Program<T>, s: State<T>, action: Action, s': State<T>, a: Ref, b: Ref)
    requires ValidProgram(p) && Next(p, s, action, s') && CoreInv(p, s') && |s.status| == |p.ops|
    requires IsRef(p, a) && IsRef(p, b) && a.op == b.op && Conflict(p, a, b) && NotDispatched(s.status[a.op])
    ensures NotDispatched(s'.status[a.op])
  {
    StatusesForward(p, s, action, a.op);
    if InFlight(s', b.op) { NeverBoth(p, s', a, b); }
  }

  predicate NotDispatched<T>(status: Status<T>) {
    status.Unpushed? || status.Pushing? || status.Waiting?
  }

  lemma StatusesForward<T>(p: Program<T>, s: State<T>, a: Action, o: nat)
    requires ValidProgram(p) && Enabled(p, s, a) && Checks(p, s, a)
    requires o < |s.status| && NotDispatched(s.status[o])
    ensures o < |Do(p, s, a).status| && (NotDispatched(Do(p, s, a).status[o]) || Do(p, s, a).status[o].Ready?)
  {
  }
}
