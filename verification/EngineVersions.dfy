/**
 Version numbers: a variable's version counts the writes completed on it, so that it ends where the
 naive engine, which counts the mutable variables of every pushed operation, leaves it.
 */
module EngineVersions {
  import opened EngineVar
  import opened Engine
  import opened EngineVarProofs
  import opened EngineProofs
  import opened EngineTheorems
  import opened EngineOrders
  import opened EngineOnePusher
  import opened Sequences

  ghost function CompletedWrites<T>(p: Program<T>, v: nat, phase: map<Ref, Phase>): set<Ref>
    requires PhasesAreRefs(p, phase)
  {
    set q | q in phase && VarOf(p, q) == v && IsWrite(p, q) && phase[q] == Completed
  }

  ghost predicate VersionsInv<T>(p: Program<T>, s: State<T>)
    requires PhasesAreRefs(p, s.phase)
  {
    forall v :: 0 <= v < |s.vars| ==> s.vars[v].version == |CompletedWrites(p, v, s.phase)|
  }

  lemma CompleteCounts<T>(p: Program<T>, v: nat, phase: map<Ref, Phase>, q: Ref, triggered: seq<Ref>)
    requires PhasesAreRefs(p, phase) && q in phase && phase[q] == Granted
    requires forall a :: a in triggered ==> a in phase && phase[a] == Queued
    ensures var phase' := Mark(Mark(phase, [q], Completed), triggered, Triggered);
      |CompletedWrites(p, v, phase')| ==
        |CompletedWrites(p, v, phase)| + if VarOf(p, q) == v && IsWrite(p, q) then 1 else 0
  {
    var phase' := Mark(Mark(phase, [q], Completed), triggered, Triggered);
    var before, now := CompletedWrites(p, v, phase), CompletedWrites(p, v, phase');
    assert forall a :: a in phase && a != q ==> (phase'[a] == Completed <==> phase[a] == Completed);
    if VarOf(p, q) == v && IsWrite(p, q) {
      assert now == before + {q};
    } else {
      assert now == before;
    }
  }

  lemma CompleteVersions<T>(p: Program<T>, s: State<T>, o: nat)
    requires CoreInv(p, s) && Enabled(p, s, CompleteDep(o)) && Checks(p, s, CompleteDep(o)) && VersionsInv(p, s)
    ensures PhasesAreRefs(p, Do(p, s, CompleteDep(o)).phase) && VersionsInv(p, Do(p, s, CompleteDep(o)))
  {
    NextIsGranted(p, s, o);
    CompleteVar(p, s, o);
    CompleteStepVersions(p, s, Ref(o, s.status[o].at));
  }

  lemma CompleteStepVersions<T>(p: Program<T>, s: State<T>, q: Ref)
    requires PhasesAreRefs(p, s.phase) && VersionsInv(p, s) && q in s.phase && s.phase[q] == Granted
    requires VarOf(p, q) < |s.vars| && q.op < |s.status| && (IsWrite(p, q) ==> s.vars[VarOf(p, q)].queue != [])
    requires forall a :: a in CompleteStep(p, s, q).status[q.op].todo ==> a in s.phase && s.phase[a] == Queued
    ensures
      var s' := CompleteStep(p, s, q);
      PhasesAreRefs(p, s'.phase) && VersionsInv(p, s')
  {
    var s' := CompleteStep(p, s, q);
    forall v | 0 <= v < |s.vars| ensures s'.vars[v].version == |CompletedWrites(p, v, s'.phase)| {
      CompleteCounts(p, v, s.phase, q, s'.status[q.op].todo);
    }
  }

  lemma StepVersions<T>(p: Program<T>, s: State<T>, a: Action)
    requires CoreInv(p, s) && Enabled(p, s, a) && Checks(p, s, a) && VersionsInv(p, s)
    ensures PhasesAreRefs(p, Do(p, s, a).phase) && VersionsInv(p, Do(p, s, a))
  {
    if a.CompleteDep? {
      CompleteVersions(p, s, a.op);
    } else if a.Append? {
      AppendVersions(p, s, Ref(a.op, s.status[a.op].next));
    } else if a.DecrWait? {
      TriggeredWaits(p, s, a.op);
      DecrWaitVersions(p, s, a.op);
    }
  }

  lemma AppendVersions<T>(p: Program<T>, s: State<T>, q: Ref)
    requires ShapeInv(p, s) && PhasesAreRefs(p, s.phase) && VersionsInv(p, s)
    requires IsRef(p, q) && VarOf(p, q) < |s.vars| && s.status[q.op] == Pushing(q.dep)
    ensures PhasesAreRefs(p, AppendStep(p, s, q).phase) && VersionsInv(p, AppendStep(p, s, q))
  {
    AppendShape(p, s, q);
    SameWrites(p, s, AppendStep(p, s, q));
  }

  lemma DecrWaitVersions<T>(p: Program<T>, s: State<T>, o: nat)
    requires ValidProgram(p) && PhasesAreRefs(p, s.phase) && VersionsInv(p, s)
    requires Enabled(p, s, DecrWait(o)) && Checks(p, s, DecrWait(o))
    requires s.status[o].todo[0] in s.phase && s.phase[s.status[o].todo[0]] == Triggered
    ensures PhasesAreRefs(p, Do(p, s, DecrWait(o)).phase) && VersionsInv(p, Do(p, s, DecrWait(o)))
  {
    SameWrites(p, s, Do(p, s, DecrWait(o)));
  }

  /** A step that completes no write and changes no version. */
  lemma SameWrites<T>(p: Program<T>, s: State<T>, s': State<T>)
    requires PhasesAreRefs(p, s.phase) && PhasesAreRefs(p, s'.phase) && VersionsInv(p, s) && |s'.vars| == |s.vars|
    requires forall v :: 0 <= v < |s.vars| ==> s'.vars[v].version == s.vars[v].version
    requires forall q :: q in s'.phase && s'.phase[q] == Completed ==> q in s.phase && s.phase[q] == Completed
    requires forall q :: q in s.phase && s.phase[q] == Completed ==> q in s'.phase && s'.phase[q] == Completed
    ensures VersionsInv(p, s')
  {
    forall v | 0 <= v < |s.vars| ensures s'.vars[v].version == |CompletedWrites(p, v, s'.phase)| {
      assert CompletedWrites(p, v, s'.phase) == CompletedWrites(p, v, s.phase);
    }
  }

  lemma {:induction false} RunVersions<T>(p: Program<T>, states: seq<State<T>>, actions: seq<Action>, i: nat)
    requires ValidProgram(p) && IsRun(p, states, actions) && i < |states|
    ensures PhasesAreRefs(p, states[i].phase) && VersionsInv(p, states[i])
  {
    if i == 0 {
      assert forall v :: CompletedWrites(p, v, states[0].phase) == {};
    } else {
      RunVersions(p, states, actions, i - 1);
      NextVersions(p, states, actions, i - 1);
    }
  }

  lemma NextVersions<T>(p: Program<T>, states: seq<State<T>>, actions: seq<Action>, i: nat)
    requires ValidProgram(p) && IsRun(p, states, actions) && i < |actions|
    requires PhasesAreRefs(p, states[i].phase) && VersionsInv(p, states[i])
    ensures PhasesAreRefs(p, states[i + 1].phase) && VersionsInv(p, states[i + 1])
  {
    RunCore(p, states, actions, i);
    StepVersions(p, states[i], actions[i]);
  }

  function Occurrences(vars: seq<nat>, v: nat): nat {
    if vars == [] then 0
    else Occurrences(vars[..|vars| - 1], v) + if vars[|vars| - 1] == v then 1 else 0
  }

  /** The version of v the naive engine reaches with the operations of an order. */
  function VersionInTurn<T>(p: Program<T>, v: nat, order: seq<nat>): nat
    requires forall i :: 0 <= i < |order| ==> order[i] < |p.ops|
  {
    if order == [] then 0
    else VersionInTurn(p, v, order[..|order| - 1]) + Occurrences(p.ops[order[|order| - 1]].mutableVars, v)
  }

  ghost predicate WritesTo<T>(p: Program<T>, v: nat, q: Ref) {
    IsRef(p, q) && IsWrite(p, q) && VarOf(p, q) == v
  }

  /** The writes to v among the first n mutable variables of operation k. */
  ghost function WritesBelow<T>(p: Program<T>, v: nat, k: nat, n: nat): (ws: set<Ref>)
    requires k < |p.ops| && n <= |p.ops[k].mutableVars|
    ensures forall q :: q in ws <==> q.op == k && WritesTo(p, v, q) && q.dep < |p.ops[k].constVars| + n
  {
    if n == 0 then {}
    else
      var c, m := p.ops[k].constVars, p.ops[k].mutableVars;
      WritesBelow(p, v, k, n - 1) + if m[n - 1] == v then {Ref(k, |c| + n - 1)} else {}
  }

  lemma {:induction false} WritesOfOp<T>(p: Program<T>, v: nat, k: nat, n: nat)
    requires k < |p.ops| && n <= |p.ops[k].mutableVars|
    ensures |WritesBelow(p, v, k, n)| == Occurrences(p.ops[k].mutableVars[..n], v)
  {
    if n > 0 {
      var m := p.ops[k].mutableVars;
      WritesOfOp(p, v, k, n - 1);
      OccurrencesNext(m, v, n);
      var ws, q := WritesBelow(p, v, k, n - 1), Ref(k, |p.ops[k].constVars| + n - 1);
      assert q !in ws && |ws + {q}| == |ws| + 1;
    }
  }

  lemma OccurrencesNext(m: seq<nat>, v: nat, n: nat)
    requires 0 < n <= |m|
    ensures Occurrences(m[..n], v) == Occurrences(m[..n - 1], v) + if m[n - 1] == v then 1 else 0
  {
    assert m[..n][..n - 1] == m[..n - 1];
  }

  /** The writes to v of the operations of an order. */
  ghost predicate AreWritesOf<T>(p: Program<T>, v: nat, order: seq<nat>, ws: set<Ref>) {
    forall q :: q in ws <==> q.op in order && WritesTo(p, v, q)
  }

  lemma {:induction false} AllWrites<T>(p: Program<T>, v: nat, order: seq<nat>, ws: set<Ref>)
    requires AreOps(p, order) && Distinct(order) && AreWritesOf(p, v, order, ws)
    ensures |ws| == VersionInTurn(p, v, order)
  {
    if order == [] {
      assert ws == {};
    } else {
      var n := |order| - 1;
      var o := order[n];
      var m := p.ops[o].mutableVars;
      var last := WritesBelow(p, v, o, |m|);
      WritesOfOp(p, v, o, |m|);
      assert m[..|m|] == m;
      WritesOfOthers(p, v, order, ws, last);
      AllWrites(p, v, order[..n], ws - last);
    }
  }

  lemma WritesOfOthers<T>(p: Program<T>, v: nat, order: seq<nat>, ws: set<Ref>, last: set<Ref>)
    requires Distinct(order) && order != [] && AreWritesOf(p, v, order, ws)
    requires forall q :: q in last <==> q.op == order[|order| - 1] && WritesTo(p, v, q)
    ensures AreWritesOf(p, v, order[..|order| - 1], ws - last) && |ws| == |ws - last| + |last|
  {
    var n := |order| - 1;
    assert order == order[..n] + [order[n]];
    assert order[n] !in order[..n];
    assert ws == (ws - last) + last;
  }

  /** Once nothing is pending, each version is the number of times the pushed operations mutate it. */
  lemma VersionsRefineInTurn<T>(p: Program<T>, states: seq<State<T>>, actions: seq<Action>, v: nat, order: seq<nat>)
    requires ValidProgram(p) && IsRun(p, states, actions) && v < |p.init|
    requires states[|actions|].pending == 0 && ArePushed(states[|actions|], order)
    ensures var s := states[|actions|];
      |s.vars| == |p.init| && AreOps(p, order) && s.vars[v].version == VersionInTurn(p, v, order)
  {
    var s := states[|actions|];
    RunInv(p, states, actions, |actions|);
    RunVersions(p, states, actions, |actions|);
    ActiveZero(s.status);
    assert forall i :: 0 <= i < |order| ==> order[i] in order;
    AllCompleted(p, s, v, order);
    AllWrites(p, v, order, CompletedWrites(p, v, s.phase));
  }

  lemma AllCompleted<T>(p: Program<T>, s: State<T>, v: nat, order: seq<nat>)
    requires OpsInv(p, s) && PhasesAreRefs(p, s.phase) && ArePushed(s, order)
    requires forall o :: 0 <= o < |s.status| ==> s.status[o].Unpushed? || s.status[o].Finished?
    ensures AreWritesOf(p, v, order, CompletedWrites(p, v, s.phase))
  {
    forall q ensures q in CompletedWrites(p, v, s.phase) <==> q.op in order && WritesTo(p, v, q) {
      if IsRef(p, q) {
        assert OpInv(p, s, q.op);
        assert q == Ref(q.op, q.dep);
      }
    }
  }

  /** After the pushes of one thread, each version is the one the naive engine leaves. */
  lemma VersionsRefineSequential<T>(p: Program<T>, states: seq<State<T>>, actions: seq<Action>, v: nat)
    requires ValidProgram(p) && IsRun(p, states, actions) && OnePusher(p, states, actions) && v < |p.init|
    requires states[|actions|].pending == 0
    ensures var s := states[|actions|];
      exists k: nat :: FirstPushed(s, k) && k <= |p.ops| && |s.vars| == |p.init| &&
        s.vars[v].version == VersionInTurn(p, v, Numbers(k))
  {
    var s := states[|actions|];
    RunSerial(p, states, actions, |actions|);
    var k := PushedCount(s);
    forall o: nat ensures o in Numbers(k) <==> o < k {
      if o < k { assert Numbers(k)[o] == o; }
    }
    assert ArePushed(s, Numbers(k));
    VersionsRefineInTurn(p, states, actions, v, Numbers(k));
  }
}
