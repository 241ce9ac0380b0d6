/**
 A single pushing thread. Its pushes do not overlap, so the order of the appends is the order of the pushes, the
 contents are those the naive engine computes, and only an operation that conflicts with itself is never run.
 */
module EngineOnePusher {
  import opened EngineVar
  import opened Engine
  import opened EngineOrders
  import opened EngineVarProofs
  import opened EngineProofs
  import opened EngineTheorems
  import opened EngineProgress
  import opened EngineDeadlock
  import opened Sequences

  // ----- pushes one after another

  /** Once a push has begun, the earlier ones have ended. */
  ghost predicate PushedInTurn<T>(s: State<T>) {
    forall o, o' :: 0 <= o < o' < |s.status| && !s.status[o'].Unpushed? ==>
      !s.status[o].Unpushed? && !s.status[o].Pushing?
  }

  /** What an earlier operation appends, it appends earlier. */
  ghost predicate AppendedInTurn(time: map<Ref, nat>) {
    forall a, b :: a in time && b in time && a.op < b.op ==> time[a] < time[b]
  }

  ghost predicate SerialInv<T>(s: State<T>) {
    PushedInTurn(s) && AppendedInTurn(s.time)
  }

  lemma SerialStep<T>(p: Program<T>, s: State<T>, a: Action)
    requires CoreInv(p, s) && SerialInv(s) && Enabled(p, s, a) && Checks(p, s, a)
    requires a.BeginPush? ==> PushedBelow(s, a.op)
    ensures SerialInv(Do(p, s, a))
  {
    if a.Append? {
      AppendSerial(p, s, Ref(a.op, s.status[a.op].next));
    } else if a.DecrWait? {
      TriggeredWaits(p, s, a.op);
      DecrWaitSerial(p, s, a.op);
    } else {
      StatusSerial(p, s, a);
    }
  }

  lemma AppendSerial<T>(p: Program<T>, s: State<T>, q: Ref)
    requires ShapeInv(p, s) && TimeInv(s) && SerialInv(s)
    requires IsRef(p, q) && VarOf(p, q) < |s.vars| && s.status[q.op] == Pushing(q.dep)
    ensures SerialInv(AppendStep(p, s, q))
  {
    forall a | a in s.time ensures a.op <= q.op {
      assert a in s.phase && Appended(s, a);
    }
  }

  lemma DecrWaitSerial<T>(p: Program<T>, s: State<T>, o: nat)
    requires ValidProgram(p) && SerialInv(s) && Enabled(p, s, DecrWait(o)) && Checks(p, s, DecrWait(o))
    requires StillAwaits(s, s.status[o].todo[0].op)
    ensures SerialInv(Do(p, s, DecrWait(o)))
  {
  }

  lemma StatusSerial<T>(p: Program<T>, s: State<T>, a: Action)
    requires ValidProgram(p) && SerialInv(s) && Enabled(p, s, a) && Checks(p, s, a) && !a.Append? && !a.DecrWait?
    requires a.BeginPush? ==> PushedBelow(s, a.op)
    ensures SerialInv(Do(p, s, a))
  {
  }

  lemma {:induction false} RunSerial<T>(p: Program<T>, states: seq<State<T>>, actions: seq<Action>, i: nat)
    requires ValidProgram(p) && IsRun(p, states, actions) && OnePusher(p, states, actions) && i < |states|
    ensures SerialInv(states[i])
  {
    if i == 0 {
    } else {
      RunSerial(p, states, actions, i - 1);
      NextSerial(p, states, actions, i - 1);
    }
  }

  lemma NextSerial<T>(p: Program<T>, states: seq<State<T>>, actions: seq<Action>, i: nat)
    requires ValidProgram(p) && IsRun(p, states, actions) && OnePusher(p, states, actions) && i < |actions|
    requires SerialInv(states[i])
    ensures SerialInv(states[i + 1])
  {
    RunCore(p, states, actions, i);
    SerialStep(p, states[i], actions[i]);
  }

  // ----- the contents

  /** The operations pushed are the first k. */
  ghost predicate FirstPushed<T>(s: State<T>, k: nat) {
    k <= |s.status| && forall o :: 0 <= o < |s.status| ==> (s.status[o].Unpushed? <==> o >= k)
  }

  lemma PushedCount<T>(s: State<T>) returns (k: nat)
    requires PushedInTurn(s)
    ensures FirstPushed(s, k)
  {
    k := 0;
    while k < |s.status| && !s.status[k].Unpushed?
      invariant k <= |s.status| && forall o :: 0 <= o < k ==> !s.status[o].Unpushed?
    {
      k := k + 1;
    }
  }

  /** Once nothing is pending the contents are those the naive engine leaves after the same pushes. */
  lemma WaitForAllRefinesSequential<T>(p: Program<T>, states: seq<State<T>>, actions: seq<Action>)
    requires ValidProgram(p) && IsRun(p, states, actions) && OnePusher(p, states, actions)
    requires states[|actions|].pending == 0
    ensures
      var s := states[|actions|];
      exists k: nat :: FirstPushed(s, k) && k <= |p.ops| && s.mem == Sequential(p, k)
  {
    var s := states[|actions|];
    RunSerial(p, states, actions, |actions|);
    WaitForAllRefinesInTurn(p, states, actions);
    SequentialWhenDone(p, s);
  }

  lemma SequentialWhenDone<T>(p: Program<T>, s: State<T>)
    requires |s.status| == |p.ops| && PhasesAreRefs(p, s.phase) && s.time.Keys == s.phase.Keys && SerialInv(s)
    requires ArePushed(s, s.started) && InAppendOrder(p, s, s.started)
    requires forall order | ArePushed(s, order) && InAppendOrder(p, s, order) ::
      AreOps(p, order) && s.mem == InTurn(p, order)
    ensures exists k: nat :: FirstPushed(s, k) && k <= |p.ops| && s.mem == Sequential(p, k)
  {
    var k := PushedCount(s);
    NumbersArePushed(p, s, k);
    assert FirstPushed(s, k) && s.mem == Sequential(p, k);
  }

  lemma NumbersArePushed<T>(p: Program<T>, s: State<T>, k: nat)
    requires PhasesAreRefs(p, s.phase) && s.time.Keys == s.phase.Keys && AppendedInTurn(s.time) && FirstPushed(s, k)
    requires ArePushed(s, s.started) && InAppendOrder(p, s, s.started)
    ensures ArePushed(s, Numbers(k)) && InAppendOrder(p, s, Numbers(k))
  {
    forall o: nat ensures o in Numbers(k) <==> o < k {
      if o < k { assert Numbers(k)[o] == o; }
    }
    forall a, b | a in s.time && b in s.time && Conflict(p, a, b) && Before(s.time, a, b)
      ensures Precedes(Numbers(k), a.op, b.op)
    {
      assert Precedes(s.started, a.op, b.op);
      StartedApart(s.started, a.op, b.op);
      assert Numbers(k)[a.op] == a.op && Numbers(k)[b.op] == b.op;
    }
  }

  lemma StartedApart(order: seq<nat>, x: nat, y: nat)
    requires Distinct(order) && Precedes(order, x, y)
    ensures x != y && x in order && y in order
  {
  }

  // ----- what each operation sees

  /** The numbers below n that are not in `started`, in order. */
  function Others(started: seq<nat>, n: nat): (r: seq<nat>)
    ensures forall o: nat :: o in r <==> o < n && o !in started
    ensures StrictlySorted(r)
  {
    if n == 0 then []
    else
      var r := Others(started, n - 1);
      if n - 1 in started then r else
        assert forall i :: 0 <= i < |r| ==> r[i] in r;
        r + [n - 1]
  }

  /** The operations that have started, then the others in the order of their numbers. */
  function Whole<T>(p: Program<T>, s: State<T>): seq<nat> {
    s.started + Others(s.started, |p.ops|)
  }

  lemma WholeIsAll<T>(p: Program<T>, s: State<T>)
    requires StartedInv(p, s)
    ensures AreOps(p, Whole(p, s)) && AreOps(p, Numbers(|p.ops|)) && SameOps(Whole(p, s), Numbers(|p.ops|))
  {
    var n, others := |p.ops|, Others(s.started, |p.ops|);
    assert forall i :: 0 <= i < |s.started| ==> s.started[i] in s.started;
    assert forall i :: 0 <= i < |others| ==> others[i] in others;
    forall o: nat ensures o in Numbers(n) <==> o < n {
      if o < n { assert Numbers(n)[o] == o; }
    }
    forall o: nat ensures o in Whole(p, s) <==> o < n {}
  }

  lemma LaterStarted(started: seq<nat>, others: seq<nat>, x: nat, y: nat)
    requires Precedes(started + others, x, y) && StrictlySorted(others) && y <= x
    ensures x in started
  {
    var i, j :| 0 <= i < j < |started + others| && (started + others)[i] == x && (started + others)[j] == y;
  }

  lemma PrecedesLonger(started: seq<nat>, others: seq<nat>, x: nat, y: nat)
    requires Precedes(started, x, y)
    ensures Precedes(started + others, x, y)
  {
    var i, j :| 0 <= i < j < |started| && started[i] == x && started[j] == y;
    assert (started + others)[i] == x && (started + others)[j] == y;
  }

  /** A started operation follows every conflicting one with a smaller number. */
  lemma SmallerStartsFirst<T>(p: Program<T>, s: State<T>, x: nat, y: nat)
    requires CoreInv(p, s) && StartedInv(p, s) && RespectInv(p, s) && SerialInv(s)
    requires OpsConflict(p, x, y) && y < x && x in s.started
    ensures Precedes(s.started, y, x)
  {
    var a, b :| IsRef(p, a) && IsRef(p, b) && a.op == x && b.op == y && Conflict(p, a, b);
    assert Appended(s, a) && Appended(s, b);
    assert Conflict(p, b, a) && Before(s.time, b, a);
  }

  /** Conflicting operations stand in the order of their numbers. */
  lemma ConflictsRise<T>(p: Program<T>, s: State<T>, x: nat, y: nat)
    requires CoreInv(p, s) && StartedInv(p, s) && RespectInv(p, s) && SerialInv(s)
    requires OpsConflict(p, x, y) && Precedes(Whole(p, s), x, y) && Distinct(Whole(p, s))
    ensures x < y
  {
    StartedApart(Whole(p, s), x, y);
    if y < x {
      LaterStarted(s.started, Others(s.started, |p.ops|), x, y);
      SmallerStartsFirst(p, s, x, y);
      PrecedesLonger(s.started, Others(s.started, |p.ops|), y, x);
      OneWay(Whole(p, s), x, y);
    }
  }

  lemma WholeAgrees<T>(p: Program<T>, s: State<T>)
    requires CoreInv(p, s) && StartedInv(p, s) && RespectInv(p, s) && SerialInv(s) && Distinct(Whole(p, s))
    ensures Agrees(p, Whole(p, s), Numbers(|p.ops|))
  {
    forall x: nat, y: nat | OpsConflict(p, x, y) && Precedes(Whole(p, s), x, y)
      ensures Precedes(Numbers(|p.ops|), x, y)
    {
      ConflictsRise(p, s, x, y);
      assert y < |p.ops|;
      assert Numbers(|p.ops|)[x] == x && Numbers(|p.ops|)[y] == y;
    }
  }

  /** The function of every operation sees the contents of running all earlier operations in turn. */
  lemma OperationsSeeSequentialContents<T>(p: Program<T>, states: seq<State<T>>, actions: seq<Action>, o: nat)
    requires ValidProgram(p) && IsRun(p, states, actions) && OnePusher(p, states, actions)
    requires o < |p.ops| == |states[|actions|].status| && states[|actions|].status[o].Running?
    ensures
      var s := states[|actions|];
      Sees(p, o, s.status[o].view, Sequential(p, o)) && Sees(p, o, s.status[o].view, s.mem)
  {
    var s := states[|actions|];
    RunInv(p, states, actions, |actions|);
    RunSerial(p, states, actions, |actions|);
    assert o in s.started;
    var i :| 0 <= i < |s.started| && s.started[i] == o;
    OperationsSeeContentsInTurn(p, states, actions, i);
    InTurnIsSequential(p, s, i);
    SeenIsView(p, o, s.status[o].view, s.mem);
    ViewSees(p, o, Sequential(p, o));
  }

  lemma InTurnIsSequential<T>(p: Program<T>, s: State<T>, i: nat)
    requires CoreInv(p, s) && StartedInv(p, s) && RespectInv(p, s) && SerialInv(s) && i < |s.started|
    ensures View(p, s.started[i], InTurn(p, s.started[..i])) == View(p, s.started[i], Sequential(p, s.started[i]))
  {
    var n, o := |p.ops|, s.started[i];
    WholeIsAll(p, s);
    WholeAgrees(p, s);
    ViewsAgreeInTurn(p, Whole(p, s), Numbers(n));
    assert Whole(p, s)[i] == o == Numbers(n)[o];
    assert Whole(p, s)[..i] == s.started[..i] && Numbers(n)[..o] == Numbers(o);
  }

  // ----- deadlock

  lemma NoOverlaps<T>(s: State<T>)
    requires AppendedInTurn(s.time)
    ensures forall o, o' :: !Overlap(s, o, o')
  {
  }

  /** What a single thread does next: whatever can be done without beginning a push, and else the next push. */
  lemma SerialAction<T>(p: Program<T>, s: State<T>) returns (a: Action)
    requires CoreInv(p, s) && !Stuck(p, s)
    ensures Enabled(p, s, a) && (a.BeginPush? ==> PushedBelow(s, a.op))
  {
    if b :| Enabled(p, s, b) && !b.BeginPush? {
      a := b;
    } else {
      var b :| Enabled(p, s, b);
      var o := 0;
      while !s.status[o].Unpushed?
        invariant o <= b.op && forall o' :: 0 <= o' < o ==> !s.status[o'].Unpushed?
        decreases b.op - o
      {
        o := o + 1;
      }
      a := BeginPush(o);
      forall o' | 0 <= o' < o ensures !s.status[o'].Pushing? {
        assert OpInv(p, s, o');
        assert !Enabled(p, s, Append(o')) && !Enabled(p, s, EndPush(o'));
      }
    }
  }

  lemma OneMorePushed<T>(p: Program<T>, states: seq<State<T>>, actions: seq<Action>, a: Action)
    requires ValidProgram(p) && IsRun(p, states, actions) && OnePusher(p, states, actions)
    requires Enabled(p, states[|actions|], a) && (a.BeginPush? ==> PushedBelow(states[|actions|], a.op))
    ensures Checks(p, states[|actions|], a) && |actions| < Bound(p, |p.ops|)
    ensures
      var states', actions' := states + [Do(p, states[|actions|], a)], actions + [a];
      IsRun(p, states', actions') && OnePusher(p, states', actions')
  {
    OneMore(p, states, actions, a);
  }

  lemma SerialRunToStuck<T>(p: Program<T>, states: seq<State<T>>, actions: seq<Action>)
    returns (states': seq<State<T>>, actions': seq<Action>)
    requires ValidProgram(p) && IsRun(p, states, actions) && OnePusher(p, states, actions)
    ensures IsRun(p, states', actions') && OnePusher(p, states', actions') && Stuck(p, states'[|actions'|])
    decreases Bound(p, |p.ops|) - |actions|
  {
    var s := states[|actions|];
    if Stuck(p, s) {
      states', actions' := states, actions;
    } else {
      RunCore(p, states, actions, |actions|);
      var a := SerialAction(p, s);
      OneMorePushed(p, states, actions, a);
      states', actions' := SerialRunToStuck(p, states + [Do(p, s, a)], actions + [a]);
    }
  }

  /** With one pushing thread, every run that cannot go on has finished every operation if and only if no operation
      conflicts with itself. */
  lemma OnePusherDeadlockFreeIff<T(!new)>(p: Program<T>)
    requires ValidProgram(p)
    ensures NoSelfConflict(p) <==>
      (forall states, actions ::
         IsRun(p, states, actions) && OnePusher(p, states, actions) && Stuck(p, states[|actions|]) ==>
           AllFinished(states[|actions|]))
  {
    if NoSelfConflict(p) {
      forall states, actions |
        IsRun(p, states, actions) && OnePusher(p, states, actions) && Stuck(p, states[|actions|])
        ensures AllFinished(states[|actions|])
      {
        RunSerial(p, states, actions, |actions|);
        NoOverlaps(states[|actions|]);
        if !AllFinished(states[|actions|]) { DeadlockNeedsOverlap(p, states, actions); }
      }
    } else {
      var a, b :| IsRef(p, a) && IsRef(p, b) && a.op == b.op && Conflict(p, a, b);
      assert IsRun(p, [Init(p)], []);
      var states, actions := SerialRunToStuck(p, [Init(p)], []);
      SelfConflictNeverRuns(p, states, actions, |actions|, a, b);
    }
  }
}
