/**
 What the engine promises over every run, whatever the number of pushing threads: no CHECK fails, conflicting
 operations never overlap and run in the order of their appends, and the contents are those of running the
 operations one after another.
 */
module EngineTheorems {
  import opened EngineVar
  import opened Engine
  import opened EngineOrders
  import opened EngineVarProofs
  import opened EngineProofs
  import opened Sequences

  // ----- contents

  ghost predicate HasStarted<T>(status: Status<T>) {
    status.Running? || status.Completing? || status.Finished?
  }

  /** Whether operation o may touch its variables now. */
  ghost predicate InFlight<T>(s: State<T>, o: nat) {
    o < |s.status| && (s.status[o].Ready? || s.status[o].Running?)
  }

  /** The history of starts has each operation that has started, once. */
  ghost predicate StartedInv<T>(p: Program<T>, s: State<T>) {
    && |s.status| == |p.ops| && Distinct(s.started) && AreOps(p, s.started)
    && forall o: nat :: o in s.started <==> o < |p.ops| && HasStarted(s.status[o])
  }

  /** Operations have started in the order of their conflicting appends. */
  ghost predicate RespectInv<T>(p: Program<T>, s: State<T>)
    requires PhasesAreRefs(p, s.phase) && s.time.Keys == s.phase.Keys
  {
    forall a, b | a in s.time && b in s.time && Conflict(p, a, b) && Before(s.time, a, b) && b.op in s.started ::
      Precedes(s.started, a.op, b.op)
  }

  /** Except where an operation is running, the contents are those of running the operations in turn. What a running
      operation has seen is what it would see in turn and what is still there, and what it will store is what it would
      store in turn. */
  ghost predicate ContentInv<T>(p: Program<T>, s: State<T>)
    requires ShapeInv(p, s) && AreOps(p, s.started)
  {
    IdleRight(p, s) && StoresRight(p, s) && ViewsRight(p, s) && ViewsStay(p, s)
  }

  ghost predicate IdleRight<T>(p: Program<T>, s: State<T>)
    requires ShapeInv(p, s) && AreOps(p, s.started)
  {
    forall v | 0 <= v < |p.init| && Idle(p, s, v) :: s.mem[v] == InTurn(p, s.started)[v]
  }

  ghost predicate StoresRight<T>(p: Program<T>, s: State<T>)
    requires ShapeInv(p, s) && AreOps(p, s.started)
  {
    forall r, v | 0 <= r < |p.ops| && s.status[r].Running? && v < |p.init| && v in p.ops[r].mutableVars ::
      InTurn(p, s.started)[v] == p.fn(r, s.status[r].view, v)
  }

  ghost predicate ViewsRight<T>(p: Program<T>, s: State<T>)
    requires ShapeInv(p, s) && AreOps(p, s.started)
  {
    forall i | 0 <= i < |s.started| && s.status[s.started[i]].Running? ::
      s.status[s.started[i]].view == View(p, s.started[i], InTurn(p, s.started[..i]))
  }

  ghost predicate ViewsStay<T>(p: Program<T>, s: State<T>)
    requires ShapeInv(p, s)
  {
    forall r | 0 <= r < |p.ops| && s.status[r].Running? :: s.status[r].view == View(p, r, s.mem)
  }

  /** No running operation mutates v. */
  ghost predicate Idle<T>(p: Program<T>, s: State<T>, v: nat)
    requires |s.status| == |p.ops|
  {
    forall r :: 0 <= r < |p.ops| && s.status[r].Running? ==> v !in p.ops[r].mutableVars
  }

  ghost predicate MemInv<T>(p: Program<T>, s: State<T>)
    requires ShapeInv(p, s) && PhasesAreRefs(p, s.phase) && s.time.Keys == s.phase.Keys
  {
    StartedInv(p, s) && RespectInv(p, s) && ContentInv(p, s)
  }

  /** Of two conflicting dependencies, the earlier has completed when the later has been let through. */
  lemma EarlierCompleted<T>(p: Program<T>, s: State<T>, a: Ref, b: Ref)
    requires VarsInv(p, s) && OpsInv(p, s) && a in s.phase && b in s.phase && VarOf(p, a) < |s.vars|
    requires Before(s.time, a, b) && Conflict(p, a, b) && s.phase[b] != Queued
    ensures s.phase[a] == Completed
    ensures s.status[a.op].Finished? || (s.status[a.op].Completing? && s.status[a.op].at > a.dep)
  {
    assert VarInv(p, VarOf(p, a), s.vars[VarOf(p, a)], s.phase, s.time);
    assert OpInv(p, s, a.op);
    assert a == Ref(a.op, a.dep);
  }

  lemma InFlightGranted<T>(p: Program<T>, s: State<T>, q: Ref)
    requires OpsInv(p, s) && IsRef(p, q) && InFlight(s, q.op)
    ensures q in s.phase && s.phase[q] == Granted
  {
    assert OpInv(p, s, q.op);
    assert q == Ref(q.op, q.dep);
  }

  lemma NotBothGranted<T>(p: Program<T>, s: State<T>, a: Ref, b: Ref)
    requires CoreInv(p, s) && a in s.phase && b in s.phase && Conflict(p, a, b)
    ensures !(s.phase[a] == Granted && s.phase[b] == Granted)
  {
    assert Conflict(p, b, a) && (Before(s.time, a, b) || Before(s.time, b, a));
    assert VarInv(p, VarOf(p, a), s.vars[VarOf(p, a)], s.phase, s.time);
  }

  /** No two operations that conflict are dispatched or running at once. */
  lemma NeverBoth<T>(p: Program<T>, s: State<T>, a: Ref, b: Ref)
    requires CoreInv(p, s) && IsRef(p, a) && IsRef(p, b) && Conflict(p, a, b) && InFlight(s, b.op)
    ensures !InFlight(s, a.op)
  {
    InFlightGranted(p, s, b);
    if InFlight(s, a.op) {
      InFlightGranted(p, s, a);
      NotBothGranted(p, s, a, b);
    }
  }

  /** What a running operation mutates, another one that is dispatched or running does not touch. */
  lemma Alone<T>(p: Program<T>, s: State<T>, r: nat, o: nat, v: nat)
    requires CoreInv(p, s) && r < |p.ops| && o < |p.ops| && r != o && InFlight(s, r) && InFlight(s, o)
    requires v in p.ops[r].mutableVars
    ensures v !in p.ops[o].constVars + p.ops[o].mutableVars
  {
    if v in p.ops[o].constVars + p.ops[o].mutableVars {
      var a := DepOn(p, r, v);
      var b := DepOn(p, o, v);
      NeverBoth(p, s, a, b);
    }
  }

  lemma VarsBelow<T>(p: Program<T>, o: nat, v: nat)
    requires ValidProgram(p) && o < |p.ops| && v in p.ops[o].constVars + p.ops[o].mutableVars
    ensures v < |p.init|
  {
    var q := DepOn(p, o, v);
  }

  /** An operation that is dispatched finds what running the operations in turn would give it. */
  lemma ReadySees<T>(p: Program<T>, s: State<T>, o: nat)
    requires CoreInv(p, s) && StartedInv(p, s) && ContentInv(p, s) && o < |p.ops| && s.status[o].Ready?
    ensures View(p, o, s.mem) == View(p, o, InTurn(p, s.started))
  {
    forall v | v in p.ops[o].constVars + p.ops[o].mutableVars
      ensures v < |p.init| && s.mem[v] == InTurn(p, s.started)[v]
    {
      VarsBelow(p, o, v);
      forall r | 0 <= r < |p.ops| && s.status[r].Running? ensures v !in p.ops[r].mutableVars {
        if v in p.ops[r].mutableVars { Alone(p, s, r, o, v); }
      }
      assert Idle(p, s, v);
    }
  }

  lemma StartContent<T>(p: Program<T>, s: State<T>, o: nat)
    requires CoreInv(p, s) && StartedInv(p, s) && ContentInv(p, s) && Enabled(p, s, Start(o))
    requires ShapeInv(p, Do(p, s, Start(o)))
    ensures AreOps(p, Do(p, s, Start(o)).started) && ContentInv(p, Do(p, s, Start(o)))
  {
    ReadySees(p, s, o);
    InTurnSnoc(p, s.started, o);
    StartIdle(p, s, o);
    StartStores(p, s, o);
    StartViews(p, s, o);
  }

  lemma StartIdle<T>(p: Program<T>, s: State<T>, o: nat)
    requires ShapeInv(p, s) && AreOps(p, s.started) && IdleRight(p, s) && o < |p.ops| && s.status[o].Ready?
    requires InTurn(p, s.started + [o]) == Store(p, o, View(p, o, InTurn(p, s.started)), InTurn(p, s.started))
    ensures forall v | 0 <= v < |p.init| && Idle(p, s, v) && v !in p.ops[o].mutableVars ::
      s.mem[v] == InTurn(p, s.started + [o])[v]
    ensures forall v, x | Idle(p, s.(status := s.status[o := Running(x)]), v) ::
      Idle(p, s, v) && v !in p.ops[o].mutableVars
  {
    forall v, x | Idle(p, s.(status := s.status[o := Running(x)]), v)
      ensures Idle(p, s, v) && v !in p.ops[o].mutableVars
    {
      var s' := s.(status := s.status[o := Running(x)]);
      assert s'.status[o].Running?;
      forall r | 0 <= r < |p.ops| && s.status[r].Running? ensures v !in p.ops[r].mutableVars {
        assert s'.status[r].Running?;
      }
    }
  }

  lemma StartStores<T>(p: Program<T>, s: State<T>, o: nat)
    requires CoreInv(p, s) && AreOps(p, s.started) && StoresRight(p, s) && o < |p.ops| && s.status[o].Ready?
    requires View(p, o, s.mem) == View(p, o, InTurn(p, s.started))
    requires InTurn(p, s.started + [o]) == Store(p, o, View(p, o, InTurn(p, s.started)), InTurn(p, s.started))
    ensures forall r, v |
      0 <= r < |p.ops| && (r == o || s.status[r].Running?) && v < |p.init| && v in p.ops[r].mutableVars ::
      InTurn(p, s.started + [o])[v] == p.fn(r, if r == o then View(p, o, s.mem) else s.status[r].view, v)
  {
    forall r, v | 0 <= r < |p.ops| && r != o && s.status[r].Running? && v in p.ops[r].mutableVars
      ensures v !in p.ops[o].mutableVars
    {
      Alone(p, s, r, o, v);
    }
  }

  lemma StartViews<T>(p: Program<T>, s: State<T>, o: nat)
    requires ShapeInv(p, s) && StartedInv(p, s) && ViewsRight(p, s) && o < |p.ops| && s.status[o].Ready?
    requires View(p, o, s.mem) == View(p, o, InTurn(p, s.started))
    ensures
      var started', status' := s.started + [o], s.status[o := Running(View(p, o, s.mem))];
      forall i | 0 <= i < |started'| && status'[started'[i]].Running? ::
        status'[started'[i]].view == View(p, started'[i], InTurn(p, started'[..i]))
  {
    var started', status' := s.started + [o], s.status[o := Running(View(p, o, s.mem))];
    forall i | 0 <= i < |started'| && status'[started'[i]].Running?
      ensures status'[started'[i]].view == View(p, started'[i], InTurn(p, started'[..i]))
    {
      assert started'[..i] == if i < |s.started| then s.started[..i] else s.started;
      assert i < |s.started| ==> s.started[i] in s.started;
    }
  }

  lemma ReturnContent<T>(p: Program<T>, s: State<T>, o: nat)
    requires CoreInv(p, s) && StartedInv(p, s) && ContentInv(p, s) && Enabled(p, s, Return(o))
    requires ShapeInv(p, Do(p, s, Return(o)))
    ensures ContentInv(p, Do(p, s, Return(o)))
  {
    ReturnIdle(p, s, o);
    ReturnStays(p, s, o);
  }

  lemma ReturnIdle<T>(p: Program<T>, s: State<T>, o: nat)
    requires ShapeInv(p, s) && AreOps(p, s.started) && IdleRight(p, s) && StoresRight(p, s) && o < |p.ops|
    requires s.status[o].Running?
    ensures
      var s' := s.(status := s.status[o := Completing(0, [])]);
      forall v | 0 <= v < |p.init| && Idle(p, s', v) ::
        Store(p, o, s.status[o].view, s.mem)[v] == InTurn(p, s.started)[v]
  {
    var s' := s.(status := s.status[o := Completing(0, [])]);
    forall v | 0 <= v < |p.init| && Idle(p, s', v)
      ensures Store(p, o, s.status[o].view, s.mem)[v] == InTurn(p, s.started)[v]
    {
      if v !in p.ops[o].mutableVars {
        forall r | 0 <= r < |p.ops| && s.status[r].Running? ensures v !in p.ops[r].mutableVars {
          assert r != o ==> s'.status[r].Running?;
        }
        assert Idle(p, s, v);
      }
    }
  }

  lemma ReturnStays<T>(p: Program<T>, s: State<T>, o: nat)
    requires CoreInv(p, s) && ViewsStay(p, s) && o < |p.ops| && s.status[o].Running?
    ensures forall r | 0 <= r < |p.ops| && r != o && s.status[r].Running? ::
      s.status[r].view == View(p, r, Store(p, o, s.status[o].view, s.mem))
  {
    forall r | 0 <= r < |p.ops| && r != o && s.status[r].Running?
      ensures s.status[r].view == View(p, r, Store(p, o, s.status[o].view, s.mem))
    {
      forall v | v in p.ops[o].mutableVars ensures v !in p.ops[r].constVars + p.ops[r].mutableVars {
        Alone(p, s, o, r, v);
      }
    }
  }

  lemma StartRespects<T>(p: Program<T>, s: State<T>, o: nat)
    requires CoreInv(p, s) && StartedInv(p, s) && RespectInv(p, s) && Enabled(p, s, Start(o))
    ensures RespectInv(p, Do(p, s, Start(o)))
  {
    var s' := Do(p, s, Start(o));
    forall a, b | a in s.time && b in s.time && Conflict(p, a, b) && Before(s.time, a, b) && b.op in s'.started
      ensures Precedes(s'.started, a.op, b.op)
    {
      if b.op in s.started {
        PrecedesMore(s.started, a.op, b.op, o);
      } else {
        assert b.op == o;
        InFlightGranted(p, s, b);
        EarlierCompleted(p, s, a, b);
        assert a.op in s.started;
        PrecedesLast(s.started, a.op, o);
      }
    }
  }

  lemma PrecedesMore(order: seq<nat>, x: nat, y: nat, o: nat)
    requires Precedes(order, x, y)
    ensures Precedes(order + [o], x, y)
  {
    var i, j :| 0 <= i < j < |order| && order[i] == x && order[j] == y;
    assert (order + [o])[i] == x && (order + [o])[j] == y;
  }

  lemma PrecedesLast(order: seq<nat>, x: nat, o: nat)
    requires x in order
    ensures Precedes(order + [o], x, o)
  {
    var i :| 0 <= i < |order| && order[i] == x;
    assert (order + [o])[i] == x && (order + [o])[|order|] == o;
  }

  lemma AppendRespects<T>(p: Program<T>, s: State<T>, q: Ref)
    requires CoreInv(p, s) && StartedInv(p, s) && RespectInv(p, s) && IsRef(p, q) && s.status[q.op] == Pushing(q.dep)
    ensures PhasesAreRefs(p, AppendStep(p, s, q).phase) && RespectInv(p, AppendStep(p, s, q))
  {
    var s' := AppendStep(p, s, q);
    AppendShape(p, s, q);
    forall a, b | a in s'.time && b in s'.time && Conflict(p, a, b) && Before(s'.time, a, b) && b.op in s'.started
      ensures Precedes(s'.started, a.op, b.op)
    {
      assert b != q && a != q;
    }
  }

  /** Actions that neither start nor end a function leave the contents' invariant alone. */
  lemma ContentFrame<T>(p: Program<T>, s: State<T>, s': State<T>)
    requires ShapeInv(p, s) && ShapeInv(p, s') && StartedInv(p, s) && ContentInv(p, s)
    requires s'.mem == s.mem && s'.started == s.started
    requires forall o :: 0 <= o < |p.ops| ==> HasStarted(s'.status[o]) == HasStarted(s.status[o])
    requires forall o :: 0 <= o < |p.ops| && (s.status[o].Running? || s'.status[o].Running?) ==>
      s'.status[o] == s.status[o]
    ensures StartedInv(p, s') && ContentInv(p, s')
  {
    forall v | 0 <= v < |p.init| && Idle(p, s', v) ensures s'.mem[v] == InTurn(p, s'.started)[v] {
      forall r | 0 <= r < |p.ops| && s.status[r].Running? ensures v !in p.ops[r].mutableVars {
        assert s'.status[r].Running?;
      }
      assert Idle(p, s, v);
    }
  }

  // ----- pending_

  function Active<T>(status: seq<Status<T>>): nat {
    if status == [] then 0 else
      var last := status[|status| - 1];
      Active(status[..|status| - 1]) + (if last.Unpushed? || last.Finished? then 0 else 1)
  }

  lemma {:induction false} ActiveUpdate<T>(status: seq<Status<T>>, o: nat, x: Status<T>)
    requires o < |status|
    ensures Active(status[o := x]) ==
      Active(status) - Active([status[o]]) + Active([x])
  {
    var n := |status| - 1;
    var status' := status[o := x];
    if o < n {
      ActiveUpdate(status[..n], o, x);
      assert status'[..n] == status[..n][o := x];
    } else {
      assert status'[..n] == status[..n];
    }
  }

  lemma {:induction false} ActiveZero<T>(status: seq<Status<T>>)
    requires Active(status) == 0
    ensures forall o :: 0 <= o < |status| ==> status[o].Unpushed? || status[o].Finished?
  {
    if status != [] { ActiveZero(status[..|status| - 1]); }
  }

  lemma {:induction false} ActiveSome<T>(status: seq<Status<T>>, o: nat)
    requires o < |status| && !status[o].Unpushed? && !status[o].Finished?
    ensures Active(status) > 0
  {
    var n := |status| - 1;
    if o < n { ActiveSome(status[..n], o); }
  }

  lemma {:induction false} ActiveUnpushed<T>(status: seq<Status<T>>)
    requires forall o :: 0 <= o < |status| ==> status[o].Unpushed?
    ensures Active(status) == 0
  {
    if status != [] { ActiveUnpushed(status[..|status| - 1]); }
  }

  // ----- every step

  ghost predicate Inv<T>(p: Program<T>, s: State<T>) {
    CoreInv(p, s) && MemInv(p, s) && s.pending == Active(s.status)
  }

  lemma InitInv<T>(p: Program<T>)
    requires ValidProgram(p)
    ensures Inv(p, Init(p))
  {
    InitCore(p);
    ActiveUnpushed(Init(p).status);
  }

  /** In a state the engine can reach, an action that can be taken passes all its CHECKs. */
  lemma ChecksHold<T>(p: Program<T>, s: State<T>, a: Action)
    requires Inv(p, s) && Enabled(p, s, a)
    ensures Checks(p, s, a)
  {
    match a
    case Append(o) => AppendVar(p, s, o);
    case EndPush(o) => EndPushCore(p, s, o);
    case CompleteDep(o) => CompleteVar(p, s, o);
    case DecrWait(o) => DecrWaitCore(p, s, o);
    case Retire(o) => ActiveSome(s.status, o);
    case _ =>
  }

  lemma StepCore<T>(p: Program<T>, s: State<T>, a: Action)
    requires CoreInv(p, s) && Enabled(p, s, a) && Checks(p, s, a)
    ensures CoreInv(p, Do(p, s, a))
  {
    match a
    case BeginPush(o) => BeginPushCore(p, s, o);
    case Append(o) => AppendCore(p, s, o);
    case EndPush(o) => EndPushCore(p, s, o);
    case CompleteDep(o) => CompleteCore(p, s, o);
    case DecrWait(o) => DecrWaitCore(p, s, o);
    case _ =>
      assert OpInv(p, s, a.op);
      StatusCore(p, s, Do(p, s, a), a.op);
  }

  lemma StepMem<T>(p: Program<T>, s: State<T>, a: Action)
    requires CoreInv(p, s) && MemInv(p, s) && Enabled(p, s, a) && Checks(p, s, a) && CoreInv(p, Do(p, s, a))
    ensures MemInv(p, Do(p, s, a))
  {
    match a
    case Start(o) => StartMem(p, s, o);
    case Return(o) => ReturnMem(p, s, o);
    case DecrWait(o) => DecrWaitMem(p, s, o);
    case Append(o) => AppendMem(p, s, o);
    case _ => QuietMem(p, s, a);
  }

  lemma StartMem<T>(p: Program<T>, s: State<T>, o: nat)
    requires CoreInv(p, s) && MemInv(p, s) && Enabled(p, s, Start(o)) && ShapeInv(p, Do(p, s, Start(o)))
    ensures MemInv(p, Do(p, s, Start(o)))
  {
    StartContent(p, s, o);
    StartRespects(p, s, o);
  }

  lemma ReturnMem<T>(p: Program<T>, s: State<T>, o: nat)
    requires CoreInv(p, s) && MemInv(p, s) && Enabled(p, s, Return(o)) && ShapeInv(p, Do(p, s, Return(o)))
    ensures MemInv(p, Do(p, s, Return(o)))
  {
    ReturnContent(p, s, o);
  }

  lemma AppendMem<T>(p: Program<T>, s: State<T>, o: nat)
    requires CoreInv(p, s) && MemInv(p, s) && Enabled(p, s, Append(o)) && Checks(p, s, Append(o))
    requires CoreInv(p, Do(p, s, Append(o)))
    ensures MemInv(p, Do(p, s, Append(o)))
  {
    AppendRespects(p, s, Ref(o, s.status[o].next));
    AppendedContent(p, s, Ref(o, s.status[o].next));
  }

  lemma AppendedContent<T>(p: Program<T>, s: State<T>, q: Ref)
    requires ShapeInv(p, s) && StartedInv(p, s) && ContentInv(p, s)
    requires IsRef(p, q) && VarOf(p, q) < |s.vars| && s.status[q.op] == Pushing(q.dep)
    requires ShapeInv(p, AppendStep(p, s, q))
    ensures StartedInv(p, AppendStep(p, s, q)) && ContentInv(p, AppendStep(p, s, q))
  {
    ContentFrame(p, s, AppendStep(p, s, q));
  }

  lemma DecrWaitMem<T>(p: Program<T>, s: State<T>, o: nat)
    requires CoreInv(p, s) && MemInv(p, s) && Enabled(p, s, DecrWait(o)) && Checks(p, s, DecrWait(o))
    requires CoreInv(p, Do(p, s, DecrWait(o)))
    ensures MemInv(p, Do(p, s, DecrWait(o)))
  {
    TriggeredWaits(p, s, o);
    AwaitingMem(p, s, o);
  }

  lemma AwaitingMem<T>(p: Program<T>, s: State<T>, o: nat)
    requires ValidProgram(p) && ShapeInv(p, s) && PhasesAreRefs(p, s.phase) && s.time.Keys == s.phase.Keys
    requires MemInv(p, s)
    requires Enabled(p, s, DecrWait(o)) && Checks(p, s, DecrWait(o)) && StillAwaits(s, s.status[o].todo[0].op)
    requires ShapeInv(p, Do(p, s, DecrWait(o)))
    ensures MemInv(p, Do(p, s, DecrWait(o)))
  {
    ContentFrame(p, s, Do(p, s, DecrWait(o)));
  }

  lemma QuietMem<T>(p: Program<T>, s: State<T>, a: Action)
    requires ValidProgram(p) && ShapeInv(p, s) && PhasesAreRefs(p, s.phase) && s.time.Keys == s.phase.Keys
    requires MemInv(p, s) && Enabled(p, s, a) && Checks(p, s, a) && ShapeInv(p, Do(p, s, a))
    requires a.BeginPush? || a.EndPush? || a.CompleteDep? || a.Retire?
    ensures MemInv(p, Do(p, s, a))
  {
    ContentFrame(p, s, Do(p, s, a));
  }

  lemma StepPending<T>(p: Program<T>, s: State<T>, a: Action)
    requires CoreInv(p, s) && s.pending == Active(s.status) && Enabled(p, s, a) && Checks(p, s, a)
    ensures Do(p, s, a).pending == Active(Do(p, s, a).status)
  {
    if a.DecrWait? {
      DecrWaitPending(p, s, a.op);
    } else {
      OperationPending(p, s, a);
    }
  }

  lemma OperationPending<T>(p: Program<T>, s: State<T>, a: Action)
    requires ValidProgram(p) && s.pending == Active(s.status) && Enabled(p, s, a) && Checks(p, s, a) && !a.DecrWait?
    ensures Do(p, s, a).pending == Active(Do(p, s, a).status)
  {
    var s' := Do(p, s, a);
    assert s'.status == s.status[a.op := s'.status[a.op]];
    ActiveUpdate(s.status, a.op, s'.status[a.op]);
  }

  lemma DecrWaitPending<T>(p: Program<T>, s: State<T>, o: nat)
    requires CoreInv(p, s) && Enabled(p, s, DecrWait(o)) && Checks(p, s, DecrWait(o))
    ensures Active(Do(p, s, DecrWait(o)).status) == Active(s.status)
  {
    var Completing(at, todo) := s.status[o];
    TriggeredWaits(p, s, o);
    ActiveUpdate(s.status, o, Completing(at, todo[1..]));
    ActiveUpdate(s.status[o := Completing(at, todo[1..])], todo[0].op, Ready);
  }

  lemma {:induction false} RunInv<T>(p: Program<T>, states: seq<State<T>>, actions: seq<Action>, i: nat)
    requires ValidProgram(p) && IsRun(p, states, actions) && i < |states|
    ensures Inv(p, states[i])
  {
    if i == 0 {
      InitInv(p);
    } else {
      RunInv(p, states, actions, i - 1);
      assert Next(p, states[i - 1], actions[i - 1], states[i]);
      StepCore(p, states[i - 1], actions[i - 1]);
      StepMem(p, states[i - 1], actions[i - 1]);
      StepPending(p, states[i - 1], actions[i - 1]);
    }
  }

  lemma RunCore<T>(p: Program<T>, states: seq<State<T>>, actions: seq<Action>, i: nat)
    requires ValidProgram(p) && IsRun(p, states, actions) && i < |states|
    ensures CoreInv(p, states[i])
  {
    RunInv(p, states, actions, i);
  }

  // ----- the promises

  /** No run reaches a state in which an operation could only go on by failing a CHECK. */
  lemma NoCheckFails<T>(p: Program<T>, states: seq<State<T>>, actions: seq<Action>, a: Action)
    requires ValidProgram(p) && IsRun(p, states, actions) && Enabled(p, states[|actions|], a)
    ensures Checks(p, states[|actions|], a)
  {
    RunInv(p, states, actions, |actions|);
    ChecksHold(p, states[|actions|], a);
  }

  /** While an operation is dispatched or running, no conflicting one is; every conflicting one that was appended
      earlier has completed the dependency they share, and every other one has not been dispatched. */
  lemma ConflictsInAppendOrder<T>(p: Program<T>, states: seq<State<T>>, actions: seq<Action>, a: Ref, b: Ref)
    requires ValidProgram(p) && IsRun(p, states, actions)
    requires IsRef(p, a) && IsRef(p, b) && Conflict(p, a, b) && InFlight(states[|actions|], b.op)
    ensures
      var s := states[|actions|];
      && |s.status| == |p.ops| && !InFlight(s, a.op)
      && (if Before(s.time, a, b)
          then s.status[a.op].Finished? || (s.status[a.op].Completing? && s.status[a.op].at > a.dep)
          else s.status[a.op].Unpushed? || s.status[a.op].Pushing? || s.status[a.op].Waiting?)
  {
    var s := states[|actions|];
    RunInv(p, states, actions, |actions|);
    NeverBoth(p, s, a, b);
    InFlightGranted(p, s, b);
    if Before(s.time, a, b) {
      EarlierCompleted(p, s, a, b);
    } else {
      LaterWaits(p, s, a, b);
    }
  }

  lemma LaterWaits<T>(p: Program<T>, s: State<T>, a: Ref, b: Ref)
    requires CoreInv(p, s) && IsRef(p, a) && IsRef(p, b) && Conflict(p, a, b) && b in s.phase && s.phase[b] == Granted
    requires !Before(s.time, a, b)
    ensures s.status[a.op].Unpushed? || s.status[a.op].Pushing? || s.status[a.op].Waiting?
  {
    assert OpInv(p, s, a.op);
    assert a == Ref(a.op, a.dep) && Conflict(p, b, a);
    assert VarInv(p, VarOf(p, a), s.vars[VarOf(p, a)], s.phase, s.time);
    assert a in s.phase ==> Before(s.time, b, a);
  }

  /** The function of every operation sees the contents of running the operations in turn, in the order in which they
      have started; nobody changes what it sees while it runs. */
  lemma OperationsSeeContentsInTurn<T>(p: Program<T>, states: seq<State<T>>, actions: seq<Action>, i: nat)
    requires ValidProgram(p) && IsRun(p, states, actions)
    requires var s := states[|actions|];
      i < |s.started| && s.started[i] < |p.ops| && |s.status| == |p.ops| && s.status[s.started[i]].Running?
    ensures
      var s := states[|actions|];
      && AreOps(p, s.started[..i])
      && Sees(p, s.started[i], s.status[s.started[i]].view, InTurn(p, s.started[..i]))
      && Sees(p, s.started[i], s.status[s.started[i]].view, s.mem)
  {
    var s := states[|actions|];
    RunInv(p, states, actions, |actions|);
    ViewSees(p, s.started[i], s.mem);
    ViewSees(p, s.started[i], InTurn(p, s.started[..i]));
  }

  /** An order of operations that has the conflicting ones in the order of their appends. */
  ghost predicate InAppendOrder<T>(p: Program<T>, s: State<T>, order: seq<nat>)
    requires PhasesAreRefs(p, s.phase) && s.time.Keys == s.phase.Keys
  {
    forall a, b | a in s.time && b in s.time && Conflict(p, a, b) && Before(s.time, a, b) :: Precedes(order, a.op, b.op)
  }

  /** The operations that have been pushed, each once. */
  ghost predicate ArePushed<T>(s: State<T>, order: seq<nat>) {
    Distinct(order) && forall o: nat :: o in order <==> o < |s.status| && !s.status[o].Unpushed?
  }

  /** Once nothing is pending, which is what WaitForAll waits for, the operations pushed have finished, and the contents
      are those of running them one after another, in any order that has conflicting ones in the order of their appends.
      There is such an order: the one in which they started. */
  lemma WaitForAllRefinesInTurn<T>(p: Program<T>, states: seq<State<T>>, actions: seq<Action>)
    requires ValidProgram(p) && IsRun(p, states, actions) && states[|actions|].pending == 0
    ensures
      var s := states[|actions|];
      && |s.status| == |p.ops| && PhasesAreRefs(p, s.phase) && s.time.Keys == s.phase.Keys
      && ArePushed(s, s.started) && InAppendOrder(p, s, s.started)
      && forall order | ArePushed(s, order) && InAppendOrder(p, s, order) ::
        AreOps(p, order) && s.mem == InTurn(p, order)
  {
    var s := states[|actions|];
    RunInv(p, states, actions, |actions|);
    ActiveZero(s.status);
    forall o: nat ensures o in s.started <==> o < |p.ops| && !s.status[o].Unpushed? {}
    StartedInOrder(p, s);
    InTurnWhenDone(p, s);
    forall order | ArePushed(s, order) && InAppendOrder(p, s, order)
      ensures AreOps(p, order) && s.mem == InTurn(p, order)
    {
      OrderFits(p, s, order);
      OrdersAgree(p, s.started, order);
    }
  }

  lemma StartedInOrder<T>(p: Program<T>, s: State<T>)
    requires CoreInv(p, s) && RespectInv(p, s) && ArePushed(s, s.started)
    ensures InAppendOrder(p, s, s.started)
  {
  }

  lemma InTurnWhenDone<T>(p: Program<T>, s: State<T>)
    requires ShapeInv(p, s) && AreOps(p, s.started) && IdleRight(p, s)
    requires forall o :: 0 <= o < |p.ops| ==> !s.status[o].Running?
    ensures s.mem == InTurn(p, s.started)
  {
    assert forall v :: Idle(p, s, v);
  }

  lemma OrderFits<T>(p: Program<T>, s: State<T>, order: seq<nat>)
    requires CoreInv(p, s) && ArePushed(s, s.started) && ArePushed(s, order) && AreOps(p, s.started)
    requires InAppendOrder(p, s, s.started) && InAppendOrder(p, s, order)
    requires forall o :: 0 <= o < |s.status| ==> !s.status[o].Pushing?
    ensures AreOps(p, order) && SameOps(s.started, order) && Agrees(p, s.started, order)
  {
    assert forall i :: 0 <= i < |order| ==> order[i] in order;
    forall x, y | OpsConflict(p, x, y) && Precedes(s.started, x, y) ensures Precedes(order, x, y) {
      var a, b :| IsRef(p, a) && IsRef(p, b) && a.op == x && b.op == y && Conflict(p, a, b);
      assert x in s.started && y in s.started;
      assert Appended(s, a) && Appended(s, b) && Conflict(p, b, a);
      if Before(s.time, b, a) { OneWay(s.started, x, y); }
    }
  }

  lemma OneWay(order: seq<nat>, x: nat, y: nat)
    requires Distinct(order) && Precedes(order, x, y)
    ensures !Precedes(order, y, x)
  {
  }
}
