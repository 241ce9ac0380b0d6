/**
 The invariant of the whole engine and its preservation by every action.
 */
module EngineProofs {
  import opened EngineVar
  import opened Engine
  import opened EngineVarProofs
  import opened Sequences

  // ----- the invariant

  predicate Settled(phase: map<Ref, Phase>, q: Ref) {
    q in phase && (phase[q].Granted? || phase[q].Completed?)
  }

  /** How many of the first n dependencies of operation o have not decremented its wait counter. */
  function Outstanding(phase: map<Ref, Phase>, o: nat, n: nat): nat {
    if n == 0 then 0
    else Outstanding(phase, o, n - 1) + if Settled(phase, Ref(o, n - 1)) then 0 else 1
  }

  ghost predicate Appended<T>(s: State<T>, q: Ref) {
    q.op < |s.status| && !s.status[q.op].Unpushed? && (s.status[q.op].Pushing? ==> q.dep < s.status[q.op].next)
  }

  ghost predicate ShapeInv<T>(p: Program<T>, s: State<T>) {
    && |s.vars| == |s.mem| == |p.init|
    && |s.wait| == |s.status| == |p.ops|
    && (forall q :: q in s.phase <==> IsRef(p, q) && Appended(s, q))
  }

  predicate AllIn(phase: map<Ref, Phase>, o: nat, lo: nat, hi: nat, ph: Phase) {
    forall j :: lo <= j < hi ==> Ref(o, j) in phase && phase[Ref(o, j)] == ph
  }

  predicate NoneIn(phase: map<Ref, Phase>, o: nat, n: nat, ph: Phase) {
    forall j :: 0 <= j < n && Ref(o, j) in phase ==> phase[Ref(o, j)] != ph
  }

  /** Append times are distinct, in the past, and in order within an operation. */
  ghost predicate TimeInv<T>(s: State<T>) {
    && s.time.Keys == s.phase.Keys
    && (forall q :: q in s.time ==> s.time[q] < s.clock)
    && (forall a, b :: a in s.time && b in s.time && a != b ==> s.time[a] != s.time[b])
    && (forall a, b :: a in s.time && b in s.time && a.op == b.op && a.dep < b.dep ==> s.time[a] < s.time[b])
  }

  /** What an operation's status says about its dependencies and its wait counter. */
  ghost predicate OpInv<T>(p: Program<T>, s: State<T>, o: nat)
    requires ShapeInv(p, s) && o < |p.ops|
  {
    var n := NDeps(p, o);
    match s.status[o]
    case Unpushed => true
    case Pushing(next) => next <= n && s.wait[o] == Outstanding(s.phase, o, n) + 1 && NoneIn(s.phase, o, n, Completed)
    case Waiting => s.wait[o] == Outstanding(s.phase, o, n) > 0 && NoneIn(s.phase, o, n, Completed)
    case Ready => AllIn(s.phase, o, 0, n, Granted)
    case Running(_) => AllIn(s.phase, o, 0, n, Granted)
    case Completing(at, _) => at <= n && AllIn(s.phase, o, 0, at, Completed) && AllIn(s.phase, o, at, n, Granted)
    case Finished => AllIn(s.phase, o, 0, n, Completed)
  }

  ghost predicate HasTodo<T>(s: State<T>, o: nat, q: Ref) {
    o < |s.status| && s.status[o].Completing? && q in s.status[o].todo
  }

  /** The triggers not yet decremented are exactly the triggered dependencies, each with one worker. */
  ghost predicate TodoInv<T>(s: State<T>) {
    && (forall o, q :: HasTodo(s, o, q) ==> q in s.phase && s.phase[q] == Triggered)
    && (forall o, o', q :: HasTodo(s, o, q) && HasTodo(s, o', q) ==> o == o')
    && (forall q :: q in s.phase && s.phase[q] == Triggered ==> exists o :: HasTodo(s, o, q))
    && (forall o :: 0 <= o < |s.status| && s.status[o].Completing? ==> Distinct(s.status[o].todo))
  }

  ghost predicate VarsInv<T>(p: Program<T>, s: State<T>) {
    PhasesAreRefs(p, s.phase) && forall v :: 0 <= v < |s.vars| ==> VarInv(p, v, s.vars[v], s.phase, s.time)
  }

  ghost predicate OpsInv<T>(p: Program<T>, s: State<T>) {
    ShapeInv(p, s) && forall o :: 0 <= o < |p.ops| ==> OpInv(p, s, o)
  }

  ghost predicate CoreInv<T>(p: Program<T>, s: State<T>) {
    ValidProgram(p) && VarsInv(p, s) && OpsInv(p, s) && TodoInv(s) && TimeInv(s)
  }

  // ----- counting

  lemma {:induction false} OutstandingZero(phase: map<Ref, Phase>, o: nat, n: nat)
    requires Outstanding(phase, o, n) == 0
    ensures forall j :: 0 <= j < n ==> Settled(phase, Ref(o, j))
  {
    if n > 0 { OutstandingZero(phase, o, n - 1); }
  }

  lemma {:induction false} OutstandingSome(phase: map<Ref, Phase>, o: nat, n: nat, j: nat)
    requires j < n && !Settled(phase, Ref(o, j))
    ensures Outstanding(phase, o, n) > 0
  {
    if j < n - 1 { OutstandingSome(phase, o, n - 1, j); }
  }

  lemma {:induction false} OutstandingSettle(phase: map<Ref, Phase>, phase': map<Ref, Phase>, q: Ref, o: nat, n: nat)
    requires !Settled(phase, q) && Settled(phase', q)
    requires forall j :: 0 <= j < n && Ref(o, j) != q ==> Settled(phase', Ref(o, j)) == Settled(phase, Ref(o, j))
    ensures Outstanding(phase, o, n) == Outstanding(phase', o, n) + if q.op == o && q.dep < n then 1 else 0
  {
    if n > 0 { OutstandingSettle(phase, phase', q, o, n - 1); }
  }

  lemma {:induction false} OutstandingSame(phase: map<Ref, Phase>, phase': map<Ref, Phase>, o: nat, n: nat)
    requires forall j :: 0 <= j < n ==> Settled(phase', Ref(o, j)) == Settled(phase, Ref(o, j))
    ensures Outstanding(phase, o, n) == Outstanding(phase', o, n)
  {
    if n > 0 { OutstandingSame(phase, phase', o, n - 1); }
  }

  lemma {:induction false} OutstandingFresh(phase: map<Ref, Phase>, o: nat, n: nat)
    requires forall j :: 0 <= j < n ==> Ref(o, j) !in phase
    ensures Outstanding(phase, o, n) == n
  {
    if n > 0 { OutstandingFresh(phase, o, n - 1); }
  }

  /** Operations none of whose dependencies moved keep their part of the invariant. */
  lemma OpInvFrame<T>(p: Program<T>, s: State<T>, s': State<T>, o: nat)
    requires ShapeInv(p, s) && ShapeInv(p, s') && o < |p.ops| && OpInv(p, s, o)
    requires s'.status[o] == s.status[o] && s'.wait[o] == s.wait[o]
    requires forall j :: 0 <= j < NDeps(p, o) ==>
      Settled(s'.phase, Ref(o, j)) == Settled(s.phase, Ref(o, j)) &&
      (Settled(s.phase, Ref(o, j)) ==> s'.phase[Ref(o, j)] == s.phase[Ref(o, j)])
    ensures OpInv(p, s', o)
  {
    OutstandingSame(s.phase, s'.phase, o, NDeps(p, o));
  }

  /** Variables none of whose dependencies moved keep theirs. */
  lemma VarsInvFrame<T>(p: Program<T>, s: State<T>, s': State<T>, v: nat)
    requires VarsInv(p, s) && PhasesAreRefs(p, s'.phase)
    requires forall q :: q in s.phase ==> q in s.time && q in s'.time && s'.time[q] == s.time[q]
    requires v < |s.vars| == |s'.vars| && VarInv(p, v, s'.vars[v], s'.phase, s'.time)
    requires forall u :: 0 <= u < |s.vars| && u != v ==> s'.vars[u] == s.vars[u]
    requires forall q :: q in s.phase && VarOf(p, q) != v ==> q in s'.phase && s'.phase[q] == s.phase[q]
    requires forall q :: q in s'.phase && VarOf(p, q) != v ==> q in s.phase
    ensures VarsInv(p, s')
  {
    forall u | 0 <= u < |s.vars| && u != v ensures VarInv(p, u, s'.vars[u], s'.phase, s'.time) {
      VarInvFrame(p, u, s.vars[u], s.phase, s.time, s'.phase, s'.time);
    }
  }

  // ----- each action keeps the invariant

  lemma InitCore<T>(p: Program<T>)
    requires ValidProgram(p)
    ensures CoreInv(p, Init(p))
  {
    var s := Init(p);
    forall v | 0 <= v < |s.vars| ensures VarInv(p, v, s.vars[v], s.phase, s.time) {
      assert Readers(p, v, s.phase) == {};
    }
  }

  lemma BeginPushCore<T>(p: Program<T>, s: State<T>, o: nat)
    requires CoreInv(p, s) && Enabled(p, s, BeginPush(o))
    ensures CoreInv(p, Do(p, s, BeginPush(o)))
  {
    var s' := Do(p, s, BeginPush(o));
    OutstandingFresh(s.phase, o, NDeps(p, o));
    StatusOps(p, s, s', o);
    StatusTodo(s, s', o);
  }

  lemma AppendCore<T>(p: Program<T>, s: State<T>, o: nat)
    requires CoreInv(p, s) && Enabled(p, s, Append(o))
    ensures Checks(p, s, Append(o))
    ensures CoreInv(p, Do(p, s, Append(o)))
  {
    AppendVar(p, s, o);
    AppendOps(p, s, o);
    AppendTodo(p, s, Ref(o, s.status[o].next));
  }

  lemma AppendTodo<T>(p: Program<T>, s: State<T>, q: Ref)
    requires IsRef(p, q) && VarOf(p, q) < |s.vars| && q.op < |s.wait| && q.op < |s.status| && q !in s.phase
    requires TodoInv(s) && TimeInv(s) && s.status[q.op].Pushing?
    requires forall a :: a in s.phase && a.op == q.op ==> a.dep < q.dep
    ensures TodoInv(AppendStep(p, s, q)) && TimeInv(AppendStep(p, s, q))
  {
    var s' := AppendStep(p, s, q);
    assert forall o, a :: HasTodo(s', o, a) == HasTodo(s, o, a);
  }

  lemma AppendOps<T>(p: Program<T>, s: State<T>, o: nat)
    requires ValidProgram(p) && OpsInv(p, s) && Enabled(p, s, Append(o))
    ensures OpsInv(p, AppendStep(p, s, Ref(o, s.status[o].next)))
  {
    var s' := AppendStep(p, s, Ref(o, s.status[o].next));
    AppendOwnOp(p, s, o);
    forall o' | 0 <= o' < |p.ops| && o' != o ensures OpInv(p, s', o') {
      assert OpInv(p, s, o');
      OpInvFrame(p, s, s', o');
    }
  }

  lemma AppendVar<T>(p: Program<T>, s: State<T>, o: nat)
    requires CoreInv(p, s) && Enabled(p, s, Append(o))
    ensures Checks(p, s, Append(o))
    ensures VarsInv(p, AppendStep(p, s, Ref(o, s.status[o].next)))
  {
    var q := Ref(o, s.status[o].next);
    assert OpInv(p, s, o);
    assert VarInv(p, VarOf(p, q), s.vars[VarOf(p, q)], s.phase, s.time);
    AppendStepKeeps(p, s, q);
  }

  lemma AppendStepKeeps<T>(p: Program<T>, s: State<T>, q: Ref)
    requires ValidProgram(p) && VarsInv(p, s) && |s.vars| == |p.init| && |s.wait| == |s.status| == |p.ops|
    requires IsRef(p, q) && Newest(s.phase, s.time, q, s.clock)
    ensures s.vars[VarOf(p, q)].queue == [] ==> s.vars[VarOf(p, q)].pendingReads >= 0
    ensures VarsInv(p, AppendStep(p, s, q))
  {
    var v := VarOf(p, q);
    assert VarInv(p, v, s.vars[v], s.phase, s.time);
    AppendOneVar(p, s, q);
    VarsInvFrame(p, s, AppendStep(p, s, q), v);
  }

  lemma AppendOneVar<T>(p: Program<T>, s: State<T>, q: Ref)
    requires PhasesAreRefs(p, s.phase) && IsRef(p, q) && Newest(s.phase, s.time, q, s.clock)
    requires VarOf(p, q) < |s.vars| && VarInv(p, VarOf(p, q), s.vars[VarOf(p, q)], s.phase, s.time)
    requires q.op < |s.wait| && q.op < |s.status|
    ensures s.vars[VarOf(p, q)].queue == [] ==> s.vars[VarOf(p, q)].pendingReads >= 0
    ensures
      var s' := AppendStep(p, s, q);
      PhasesAreRefs(p, s'.phase) && VarInv(p, VarOf(p, q), s'.vars[VarOf(p, q)], s'.phase, s'.time)
  {
    var v := VarOf(p, q);
    if IsWrite(p, q) {
      AppendWriteKeeps(p, v, s.vars[v], s.phase, s.time, q, s.clock);
    } else {
      AppendReadKeeps(p, v, s.vars[v], s.phase, s.time, q, s.clock);
    }
  }

  lemma AppendOwnOp<T>(p: Program<T>, s: State<T>, o: nat)
    requires ValidProgram(p) && OpsInv(p, s) && Enabled(p, s, Append(o))
    ensures ShapeInv(p, AppendStep(p, s, Ref(o, s.status[o].next)))
    ensures OpInv(p, AppendStep(p, s, Ref(o, s.status[o].next)), o)
  {
    var q := Ref(o, s.status[o].next);
    var s' := AppendStep(p, s, q);
    var n := NDeps(p, o);
    assert OpInv(p, s, o);
    AppendShape(p, s, q);
    if s'.phase[q] == Granted {
      OutstandingSettle(s.phase, s'.phase, q, o, n);
    } else {
      OutstandingSame(s.phase, s'.phase, o, n);
    }
  }

  lemma AppendShape<T>(p: Program<T>, s: State<T>, q: Ref)
    requires ShapeInv(p, s) && IsRef(p, q) && VarOf(p, q) < |s.vars| && s.status[q.op] == Pushing(q.dep)
    ensures q !in s.phase && ShapeInv(p, AppendStep(p, s, q))
  {
    var s' := AppendStep(p, s, q);
    forall a ensures a in s'.phase <==> IsRef(p, a) && Appended(s', a) {
      assert a in s.phase <==> IsRef(p, a) && Appended(s, a);
    }
  }

  lemma EndPushCore<T>(p: Program<T>, s: State<T>, o: nat)
    requires CoreInv(p, s) && Enabled(p, s, EndPush(o))
    ensures Checks(p, s, EndPush(o))
    ensures CoreInv(p, Do(p, s, EndPush(o)))
  {
    EndPushOwnOp(p, s, o);
    var s' := Do(p, s, EndPush(o));
    StatusOps(p, s, s', o);
    StatusTodo(s, s', o);
  }

  lemma EndPushOwnOp<T>(p: Program<T>, s: State<T>, o: nat)
    requires ValidProgram(p) && OpsInv(p, s) && Enabled(p, s, EndPush(o))
    ensures Checks(p, s, EndPush(o))
    ensures ShapeInv(p, Do(p, s, EndPush(o))) && OpInv(p, Do(p, s, EndPush(o)), o)
  {
    assert OpInv(p, s, o);
    if s.wait[o] == 1 { OutstandingZero(s.phase, o, NDeps(p, o)); }
  }

  /** Start, Return and Retire only change the status of one operation. */
  lemma StatusCore<T>(p: Program<T>, s: State<T>, s': State<T>, o: nat)
    requires CoreInv(p, s) && o < |p.ops|
    requires |s'.mem| == |s.mem| && |s'.status| == |s.status|
    requires s' == s.(mem := s'.mem, pending := s'.pending, started := s'.started,
      status := s.status[o := s'.status[o]])
    requires !s.status[o].Unpushed? && !s.status[o].Pushing? && !s'.status[o].Unpushed? && !s'.status[o].Pushing?
    requires !s.status[o].Completing? || s.status[o].todo == []
    requires !s'.status[o].Completing? || s'.status[o].todo == []
    requires OpInv(p, s', o)
    ensures CoreInv(p, s')
  {
    StatusOps(p, s, s', o);
    StatusTodo(s, s', o);
  }

  lemma StatusOps<T>(p: Program<T>, s: State<T>, s': State<T>, o: nat)
    requires OpsInv(p, s) && ShapeInv(p, s') && o < |p.ops| && OpInv(p, s', o)
    requires s'.phase == s.phase && s'.status == s.status[o := s'.status[o]]
    requires forall o' :: 0 <= o' < |p.ops| && o' != o ==> s'.wait[o'] == s.wait[o']
    ensures OpsInv(p, s')
  {
    forall o' | 0 <= o' < |p.ops| && o' != o ensures OpInv(p, s', o') {
      assert OpInv(p, s, o');
    }
  }

  lemma StatusTodo<T>(s: State<T>, s': State<T>, o: nat)
    requires TodoInv(s) && o < |s.status| == |s'.status|
    requires s'.phase == s.phase && s'.status == s.status[o := s'.status[o]]
    requires !s.status[o].Completing? || s.status[o].todo == []
    requires !s'.status[o].Completing? || s'.status[o].todo == []
    ensures TodoInv(s')
  {
    forall o', q ensures HasTodo(s', o', q) == HasTodo(s, o', q) {}
  }

  lemma CompleteVar<T>(p: Program<T>, s: State<T>, o: nat)
    requires CoreInv(p, s) && Enabled(p, s, CompleteDep(o))
    ensures Checks(p, s, CompleteDep(o))
    ensures
      var s' := Do(p, s, CompleteDep(o));
      && s'.status[o].Completing? && Distinct(s'.status[o].todo)
      && (forall a :: a in s'.status[o].todo ==> a in s.phase && s.phase[a] == Queued)
      && VarsInv(p, s')
  {
    NextIsGranted(p, s, o);
    CompleteStepKeeps(p, s, Ref(o, s.status[o].at));
  }

  lemma NextIsGranted<T>(p: Program<T>, s: State<T>, o: nat)
    requires ValidProgram(p) && OpsInv(p, s) && Enabled(p, s, CompleteDep(o))
    ensures var q := Ref(o, s.status[o].at); IsRef(p, q) && q in s.phase && s.phase[q] == Granted
  {
    assert OpInv(p, s, o);
  }

  lemma CompleteStepKeeps<T>(p: Program<T>, s: State<T>, q: Ref)
    requires ValidProgram(p) && VarsInv(p, s) && |s.vars| == |p.init| && |s.status| == |p.ops|
    requires s.time.Keys == s.phase.Keys && q in s.phase && s.phase[q] == Granted
    ensures var x := s.vars[VarOf(p, q)];
      if IsWrite(p, q) then x.queue != [] && x.pendingReads == WRITE_TRIGGERED else x.pendingReads > 0
    ensures
      var s' := CompleteStep(p, s, q);
      && Distinct(s'.status[q.op].todo) && VarsInv(p, s')
      && forall a :: a in s'.status[q.op].todo ==> a in s.phase && s.phase[a] == Queued
  {
    var v := VarOf(p, q);
    assert VarInv(p, v, s.vars[v], s.phase, s.time);
    CompleteOneVar(p, s, q);
    VarsInvFrame(p, s, CompleteStep(p, s, q), v);
  }

  lemma CompleteOneVar<T>(p: Program<T>, s: State<T>, q: Ref)
    requires PhasesAreRefs(p, s.phase) && q in s.phase && s.phase[q] == Granted && q.op < |s.status|
    requires VarOf(p, q) < |s.vars| && VarInv(p, VarOf(p, q), s.vars[VarOf(p, q)], s.phase, s.time)
    ensures var x := s.vars[VarOf(p, q)];
      if IsWrite(p, q) then x.queue != [] && x.pendingReads == WRITE_TRIGGERED else x.pendingReads > 0
    ensures
      var s' := CompleteStep(p, s, q);
      && PhasesAreRefs(p, s'.phase) && VarInv(p, VarOf(p, q), s'.vars[VarOf(p, q)], s'.phase, s.time)
      && Distinct(s'.status[q.op].todo)
      && forall a :: a in s'.status[q.op].todo ==> a in s.phase && s.phase[a] == Queued && VarOf(p, a) == VarOf(p, q)
  {
    var v := VarOf(p, q);
    CompleteDistinct(s.vars[v], p, v, s.phase, s.time);
    if IsWrite(p, q) {
      CompleteWriteKeeps(p, v, s.vars[v], s.phase, s.time, q);
    } else {
      CompleteReadKeeps(p, v, s.vars[v], s.phase, s.time, q);
    }
  }

  lemma CompleteCore<T>(p: Program<T>, s: State<T>, o: nat)
    requires CoreInv(p, s) && Enabled(p, s, CompleteDep(o))
    ensures Checks(p, s, CompleteDep(o))
    ensures CoreInv(p, Do(p, s, CompleteDep(o)))
  {
    NextIsGranted(p, s, o);
    CompleteVar(p, s, o);
    CompleteStepCore(p, s, Ref(o, s.status[o].at));
  }

  lemma CompleteStepCore<T>(p: Program<T>, s: State<T>, q: Ref)
    requires OpsInv(p, s) && TodoInv(s) && q in s.phase && s.phase[q] == Granted && IsRef(p, q)
    requires s.status[q.op].Completing? && s.status[q.op].at == q.dep && s.status[q.op].todo == []
    requires VarOf(p, q) < |s.vars| && (IsWrite(p, q) ==> s.vars[VarOf(p, q)].queue != [])
    requires var todo := CompleteStep(p, s, q).status[q.op].todo;
      Distinct(todo) && forall a :: a in todo ==> a in s.phase && s.phase[a] == Queued
    ensures OpsInv(p, CompleteStep(p, s, q)) && TodoInv(CompleteStep(p, s, q))
  {
    var s' := CompleteStep(p, s, q);
    CompleteOps(p, s, s', q, s'.status[q.op].todo);
    CompleteTodo(p, s, s', q, s'.status[q.op].todo);
  }

  lemma CompleteOps<T>(p: Program<T>, s: State<T>, s': State<T>, q: Ref, triggered: seq<Ref>)
    requires OpsInv(p, s)
    requires q.op < |p.ops| && s.status[q.op].Completing? && s.status[q.op].at == q.dep < NDeps(p, q.op)
    requires s' == s.(vars := s'.vars, phase := s'.phase, status := s.status[q.op := Completing(q.dep + 1, triggered)])
    requires |s'.vars| == |s.vars|
    requires s'.phase == Mark(Mark(s.phase, [q], Completed), triggered, Triggered)
    requires forall a :: a in triggered ==> a in s.phase && s.phase[a] == Queued
    ensures OpsInv(p, s')
  {
    forall o | 0 <= o < |p.ops| ensures OpInv(p, s', o) {
      if o == q.op { CompleteOwnOp(p, s, s', q, triggered); } else { CompleteOtherOp(p, s, s', q, triggered, o); }
    }
  }

  lemma CompleteOwnOp<T>(p: Program<T>, s: State<T>, s': State<T>, q: Ref, triggered: seq<Ref>)
    requires ShapeInv(p, s) && ShapeInv(p, s') && q.op < |p.ops| && OpInv(p, s, q.op)
    requires s.status[q.op].Completing? && s.status[q.op].at == q.dep < NDeps(p, q.op)
    requires s'.status[q.op] == Completing(q.dep + 1, triggered)
    requires s'.phase == Mark(Mark(s.phase, [q], Completed), triggered, Triggered)
    requires forall a :: a in triggered ==> a in s.phase && s.phase[a] == Queued
    ensures OpInv(p, s', q.op)
  {
    assert forall j :: 0 <= j < NDeps(p, q.op) ==> Ref(q.op, j) !in triggered;
  }

  lemma CompleteOtherOp<T>(p: Program<T>, s: State<T>, s': State<T>, q: Ref, triggered: seq<Ref>, o: nat)
    requires ShapeInv(p, s) && ShapeInv(p, s') && o < |p.ops| && OpInv(p, s, o) && o != q.op
    requires s'.status[o] == s.status[o] && s'.wait[o] == s.wait[o]
    requires s'.phase == Mark(Mark(s.phase, [q], Completed), triggered, Triggered)
    requires forall a :: a in triggered ==> a in s.phase && s.phase[a] == Queued
    ensures OpInv(p, s', o)
  {
    OpInvFrame(p, s, s', o);
  }

  lemma CompleteDistinct<T>(x: VarState, p: Program<T>, v: nat, phase: map<Ref, Phase>, time: map<Ref, nat>)
    requires PhasesAreRefs(p, phase) && QueueInv(p, v, x, phase, time)
    ensures Distinct(CompleteRead(x).triggered)
    ensures x.queue != [] ==> Distinct(CompleteWrite(x).triggered)
  {
  }

  lemma CompleteTodo<T>(p: Program<T>, s: State<T>, s': State<T>, q: Ref, triggered: seq<Ref>)
    requires TodoInv(s) && q.op < |s.status| && s.status[q.op].Completing? && s.status[q.op].todo == []
    requires s'.status == s.status[q.op := Completing(q.dep + 1, triggered)]
    requires q in s.phase && s.phase[q] == Granted
    requires s'.phase == Mark(Mark(s.phase, [q], Completed), triggered, Triggered)
    requires forall a :: a in triggered ==> a in s.phase && s.phase[a] == Queued
    requires Distinct(triggered)
    ensures TodoInv(s')
  {
    forall o, a ensures HasTodo(s', o, a) == if o == q.op then a in triggered else HasTodo(s, o, a) {}
    forall a | a in s'.phase && s'.phase[a] == Triggered ensures exists o :: HasTodo(s', o, a) {
      if a in triggered {
        assert HasTodo(s', q.op, a);
      } else {
        var o :| HasTodo(s, o, a);
        assert HasTodo(s', o, a);
      }
    }
  }

  lemma DecrWaitCore<T>(p: Program<T>, s: State<T>, o: nat)
    requires CoreInv(p, s) && Enabled(p, s, DecrWait(o))
    ensures Checks(p, s, DecrWait(o))
    ensures CoreInv(p, Do(p, s, DecrWait(o)))
  {
    var q := s.status[o].todo[0];
    TriggeredWaits(p, s, o);
    DecrWaitVars(p, s, o);
    DecrWaitOps(p, s, o, q);
    DecrWaitTodos(p, s, o);
  }

  lemma DecrWaitTodos<T>(p: Program<T>, s: State<T>, o: nat)
    requires ValidProgram(p) && TodoInv(s) && Enabled(p, s, DecrWait(o)) && Checks(p, s, DecrWait(o))
    requires StillAwaits(s, s.status[o].todo[0].op)
    ensures TodoInv(Do(p, s, DecrWait(o)))
  {
    DecrWaitTodo(p, s, Do(p, s, DecrWait(o)), o);
  }

  lemma DecrWaitVars<T>(p: Program<T>, s: State<T>, o: nat)
    requires ValidProgram(p) && VarsInv(p, s) && Enabled(p, s, DecrWait(o)) && Checks(p, s, DecrWait(o))
    requires s.status[o].todo[0] in s.phase && s.phase[s.status[o].todo[0]] == Triggered
    ensures VarsInv(p, Do(p, s, DecrWait(o)))
  {
    var s' := Do(p, s, DecrWait(o));
    forall v | 0 <= v < |s.vars| ensures VarInv(p, v, s'.vars[v], s'.phase, s'.time) {
      GrantKeeps(p, v, s.vars[v], s.phase, s.time, s.status[o].todo[0]);
    }
  }

  lemma TriggeredWaits<T>(p: Program<T>, s: State<T>, o: nat)
    requires VarsInv(p, s) && OpsInv(p, s) && TodoInv(s) && Enabled(p, s, DecrWait(o))
    ensures
      var q := s.status[o].todo[0];
      q in s.phase && s.phase[q] == Triggered && q.op < |p.ops| && StillAwaits(s, q.op)
  {
    var q := s.status[o].todo[0];
    assert HasTodo(s, o, q);
    assert OpInv(p, s, q.op);
    assert q == Ref(q.op, q.dep);
    OutstandingSome(s.phase, q.op, NDeps(p, q.op), q.dep);
  }

  /** The operation waits for at least one of its dependencies, beside the end of its push. */
  ghost predicate StillAwaits<T>(s: State<T>, o: nat) {
    o < |s.status| == |s.wait| &&
    ((s.status[o].Pushing? && s.wait[o] >= 2) || (s.status[o].Waiting? && s.wait[o] >= 1))
  }

  lemma DecrWaitOps<T>(p: Program<T>, s: State<T>, o: nat, q: Ref)
    requires ValidProgram(p) && OpsInv(p, s)
    requires Enabled(p, s, DecrWait(o)) && Checks(p, s, DecrWait(o)) && q == s.status[o].todo[0]
    requires q in s.phase && s.phase[q] == Triggered && StillAwaits(s, q.op)
    ensures OpsInv(p, Do(p, s, DecrWait(o)))
  {
    var s' := Do(p, s, DecrWait(o));
    DecrWaitOwnOp(p, s, s', q);
    forall o' | 0 <= o' < |p.ops| && o' != q.op ensures OpInv(p, s', o') {
      DecrWaitOtherOp(p, s, s', q, o');
    }
  }

  lemma DecrWaitOtherOp<T>(p: Program<T>, s: State<T>, s': State<T>, q: Ref, o: nat)
    requires OpsInv(p, s) && ShapeInv(p, s') && o < |p.ops| && o != q.op && q in s.phase
    requires s'.phase == Mark(s.phase, [q], Granted) && s'.wait[o] == s.wait[o]
    requires
      || s'.status[o] == s.status[o]
      || (s.status[o].Completing? && s'.status[o].Completing? && s'.status[o].at == s.status[o].at)
    ensures OpInv(p, s', o)
  {
    assert OpInv(p, s, o);
    OutstandingSame(s.phase, s'.phase, o, NDeps(p, o));
  }

  lemma DecrWaitOwnOp<T>(p: Program<T>, s: State<T>, s': State<T>, q: Ref)
    requires OpsInv(p, s) && ShapeInv(p, s')
    requires q in s.phase && s.phase[q] == Triggered && StillAwaits(s, q.op)
    requires s'.phase == Mark(s.phase, [q], Granted) && s'.wait[q.op] == s.wait[q.op] - 1
    requires s'.status[q.op] == if s.wait[q.op] == 1 then Ready else s.status[q.op]
    ensures OpInv(p, s', q.op)
  {
    var n := NDeps(p, q.op);
    assert OpInv(p, s, q.op);
    OutstandingSettle(s.phase, s'.phase, q, q.op, n);
    if s.wait[q.op] == 1 { OutstandingZero(s'.phase, q.op, n); }
  }

  lemma DecrWaitTodo<T>(p: Program<T>, s: State<T>, s': State<T>, o: nat)
    requires TodoInv(s) && o < |s.status| && s.status[o].Completing? && s.status[o].todo != []
    requires |s'.status| == |s.status|
    requires s'.phase == Mark(s.phase, [s.status[o].todo[0]], Granted)
    requires s'.status[o] == Completing(s.status[o].at, s.status[o].todo[1..])
    requires forall o' :: 0 <= o' < |s.status| && o' != o ==>
      (s.status[o'].Completing? || s'.status[o'].Completing? ==> s'.status[o'] == s.status[o'])
    ensures TodoInv(s')
  {
    var todo := s.status[o].todo;
    var q := todo[0];
    assert todo == [q] + todo[1..];
    assert q !in todo[1..];
    assert HasTodo(s, o, q);
    forall o', a ensures HasTodo(s', o', a) == (HasTodo(s, o', a) && a != q) {}
    forall a | a in s'.phase && s'.phase[a] == Triggered ensures exists o' :: HasTodo(s', o', a) {
      var o' :| HasTodo(s, o', a);
      assert HasTodo(s', o', a);
    }
  }
}
