/**
 Deadlock of the engine. Pushes take no lock from one append to the next, so two of them can append to two variables
 in opposite orders, and then wait for each other for ever. A program can deadlock exactly when its conflicts close a
 cycle that enters one of its operations before the place where it leaves it.
 */
module EngineDeadlock {
  import opened EngineVar
  import opened Engine
  import opened EngineOrders
  import opened EngineVarProofs
  import opened EngineProofs
  import opened EngineTheorems
  import opened EngineProgress
  import opened Sequences

  /** A dependency, and a conflicting one of the same or another operation that it may have to wait for. */
  datatype Link = Link(q: Ref, a: Ref)

  ghost predicate IsLink<T>(p: Program<T>, l: Link) {
    IsRef(p, l.q) && IsRef(p, l.a) && Conflict(p, l.q, l.a)
  }

  /** Each link leads to the operation of the next one, and no operation is left twice. */
  ghost predicate IsChain<T>(p: Program<T>, links: seq<Link>) {
    && (forall i :: 0 <= i < |links| ==> IsLink(p, links[i]))
    && (forall i, j :: 0 <= i < j < |links| && j == i + 1 ==> links[i].a.op == links[j].q.op)
    && (forall i, j :: 0 <= i < j < |links| ==> links[i].q.op != links[j].q.op)
  }

  ghost predicate IsClosed<T>(p: Program<T>, links: seq<Link>) {
    links != [] && IsChain(p, links) && links[|links| - 1].a.op == links[0].q.op
  }

  /** A closed chain that comes back to its first operation at a dependency pushed before the one it set out from. With
      one link it is an operation that conflicts with itself. */
  ghost predicate IsCycle<T>(p: Program<T>, links: seq<Link>) {
    IsClosed(p, links) && links[|links| - 1].a.dep < links[0].q.dep
  }

  ghost predicate HasCycle<T>(p: Program<T>) {
    exists links :: IsCycle(p, links)
  }

  /** What each link waits for was appended first. */
  ghost predicate Ordered(time: map<Ref, nat>, links: seq<Link>) {
    forall i :: 0 <= i < |links| ==> Before(time, links[i].a, links[i].q)
  }

  // ----- a stuck state has a cycle

  /** What a waiting operation waits for, in a stuck state. */
  lemma LinkFrom<T>(p: Program<T>, s: State<T>, o: nat) returns (l: Link)
    requires CoreInv(p, s) && Stuck(p, s) && o < |p.ops| && s.status[o].Waiting?
    ensures IsLink(p, l) && l.q.op == o && Before(s.time, l.a, l.q) && s.status[l.a.op].Waiting?
  {
    var q := WaitsFor(p, s, o);
    var a := Blocker(p, s, q);
    l := Link(q, a);
    StuckShape(p, s);
    assert OpInv(p, s, a.op);
    assert a == Ref(a.op, a.dep);
  }

  lemma ChainFits<T>(p: Program<T>, links: seq<Link>)
    requires IsChain(p, links)
    ensures |links| <= |p.ops|
  {
    var ops := seq(|links|, i requires 0 <= i < |links| => links[i].q.op);
    forall i | 0 <= i < |ops| ensures ops[i] < |p.ops| { assert IsLink(p, links[i]); }
    DistinctBelow(ops, |p.ops|);
  }

  lemma {:induction false} DistinctBelow(s: seq<nat>, n: nat)
    requires Distinct(s) && forall i :: 0 <= i < |s| ==> s[i] < n
    ensures |s| <= n
  {
    assert s != [] ==> s[0] < n;
    if n == 0 {
    } else if k :| 0 <= k < |s| && s[k] == n - 1 {
      Leaves(s, k);
      var s' := s[..k] + s[k + 1..];
      assert forall i :: 0 <= i < |s'| ==> s'[i] in s';
      DistinctBelow(s', n - 1);
    } else {
      DistinctBelow(s, n - 1);
    }
  }

  /** Following what operations wait for comes back to one passed before. */
  lemma Close<T>(p: Program<T>, s: State<T>, links: seq<Link>) returns (closed: seq<Link>)
    requires CoreInv(p, s) && Stuck(p, s) && links != [] && IsChain(p, links) && Ordered(s.time, links)
    requires links[|links| - 1].a.op < |p.ops| && s.status[links[|links| - 1].a.op].Waiting?
    ensures IsClosed(p, closed) && Ordered(s.time, closed)
    decreases |p.ops| - |links|
  {
    ChainFits(p, links);
    var last := links[|links| - 1];
    if j :| 0 <= j < |links| && links[j].q.op == last.a.op {
      ChainFrom(p, s.time, links, j);
      closed := links[j..];
    } else {
      var l := LinkFrom(p, s, last.a.op);
      LongerChain(p, s.time, links, l);
      var more := links + [l];
      assert more[|more| - 1] == l && |more| == |links| + 1;
      closed := Close(p, s, more);
    }
  }

  lemma LongerChain<T>(p: Program<T>, time: map<Ref, nat>, links: seq<Link>, l: Link)
    requires links != [] && IsChain(p, links) && Ordered(time, links) && IsLink(p, l) && Before(time, l.a, l.q)
    requires links[|links| - 1].a.op == l.q.op && forall j :: 0 <= j < |links| ==> links[j].q.op != l.q.op
    ensures IsChain(p, links + [l]) && Ordered(time, links + [l])
  {
  }

  lemma ChainFrom<T>(p: Program<T>, time: map<Ref, nat>, links: seq<Link>, j: nat)
    requires IsChain(p, links) && Ordered(time, links) && j < |links| && links[|links| - 1].a.op == links[j].q.op
    ensures IsClosed(p, links[j..]) && Ordered(time, links[j..])
  {
  }

  /** Without a step up to i, the waiting dependencies have been appended earlier and earlier. */
  lemma {:induction false} Descends<T>(p: Program<T>, s: State<T>, links: seq<Link>, i: nat)
    requires TimeInv(s) && IsChain(p, links) && Ordered(s.time, links) && i < |links|
    requires forall m, m' :: 0 <= m < m' <= i && m' == m + 1 ==> links[m].a.dep >= links[m'].q.dep
    ensures s.time[links[i].q] <= s.time[links[0].q]
  {
    if i == 0 {
      assert Before(s.time, links[0].a, links[0].q);
    } else {
      Descends(p, s, links, i - 1);
      DescendsOne(s, links[i - 1], links[i]);
    }
  }

  lemma DescendsOne<T>(s: State<T>, l: Link, m: Link)
    requires TimeInv(s) && Before(s.time, l.a, l.q) && Before(s.time, m.a, m.q)
    requires l.a.op == m.q.op && l.a.dep >= m.q.dep
    ensures s.time[m.q] < s.time[l.q]
  {
    SameOpOrder(s, m.q, l.a);
  }

  lemma SameOpOrder<T>(s: State<T>, a: Ref, b: Ref)
    requires TimeInv(s) && a in s.time && b in s.time && a.op == b.op
    ensures a.dep <= b.dep <==> s.time[a] <= s.time[b]
  {
    if a.dep == b.dep { assert a == b; }
  }

  /** Turning a closed chain so that it starts behind link j. */
  lemma Turn<T>(p: Program<T>, links: seq<Link>, j: nat)
    requires IsClosed(p, links) && j < |links| - 1
    ensures IsClosed(p, links[j + 1..] + links[..j + 1])
  {
    var n, turned := |links|, links[j + 1..] + links[..j + 1];
    forall i | 0 <= i < n ensures turned[i] == links[if i < n - j - 1 then i + j + 1 else i - (n - j - 1)] {}
    forall i | 0 <= i < n - 1 ensures turned[i].a.op == turned[i + 1].q.op {
      if i == n - j - 2 { assert turned[i] == links[n - 1] && turned[i + 1] == links[0]; }
    }
  }

  /** A closed chain of waiting comes back somewhere at an earlier dependency. */
  lemma FindStep<T>(p: Program<T>, s: State<T>, links: seq<Link>) returns (cycle: seq<Link>)
    requires TimeInv(s) && IsClosed(p, links) && Ordered(s.time, links)
    ensures IsCycle(p, cycle) && Ordered(s.time, cycle) && |cycle| == |links|
  {
    var n := |links| - 1;
    if j :| 0 <= j < n && links[j].a.dep < links[j + 1].q.dep {
      Turn(p, links, j);
      cycle := links[j + 1..] + links[..j + 1];
    } else {
      cycle := links;
      Descends(p, s, links, n);
      assert Before(s.time, links[n].a, links[n].q) && Before(s.time, links[0].a, links[0].q);
      SameOpOrder(s, links[0].q, links[n].a);
    }
  }

  lemma StuckHasCycle<T>(p: Program<T>, s: State<T>) returns (cycle: seq<Link>)
    requires CoreInv(p, s) && Stuck(p, s) && !AllFinished(s)
    ensures IsCycle(p, cycle) && Ordered(s.time, cycle)
  {
    StuckShape(p, s);
    var o :| 0 <= o < |s.status| && !s.status[o].Finished?;
    var l := LinkFrom(p, s, o);
    var closed := Close(p, s, [l]);
    cycle := FindStep(p, s, closed);
  }

  // ----- a cycle makes a run stick

  ghost predicate NoneCompleted<T>(s: State<T>) {
    forall q :: q in s.phase ==> s.phase[q] != Completed
  }

  /** The dependencies of o from number m on have just been appended, and nothing else has happened. */
  ghost predicate Appends<T>(s: State<T>, s': State<T>, o: nat, m: nat, n: nat) {
    && o < |s.status| && s'.status == s.status[o := Pushing(n)] && s.clock <= s'.clock
    && (forall q :: q in s.time ==> q in s'.time && s'.time[q] == s.time[q])
    && (forall j :: m <= j < n ==> Ref(o, j) in s'.time && s'.time[Ref(o, j)] >= s.clock)
  }

  lemma {:induction false} PushUpTo<T>(p: Program<T>, states: seq<State<T>>, actions: seq<Action>, o: nat, n: nat)
    returns (states': seq<State<T>>, actions': seq<Action>)
    requires ValidProgram(p) && IsRun(p, states, actions)
    requires
      var s := states[|actions|];
      && NoneCompleted(s) && o < |p.ops| && |s.status| == |p.ops| && s.status[o].Pushing?
      && s.status[o].next <= n <= NDeps(p, o)
    ensures IsRun(p, states', actions') && NoneCompleted(states'[|actions'|])
    ensures Appends(states[|actions|], states'[|actions'|], o, states[|actions|].status[o].next, n)
    decreases n - states[|actions|].status[o].next
  {
    var s := states[|actions|];
    var m := s.status[o].next;
    if m == n {
      states', actions' := states, actions;
    } else {
      var states1 := PushOne(p, states, actions, o);
      states', actions' := PushUpTo(p, states1, actions + [Append(o)], o, n);
      AppendsMore(p, s, states1[|actions| + 1], states'[|actions'|], o, m, n);
    }
  }

  lemma PushOne<T>(p: Program<T>, states: seq<State<T>>, actions: seq<Action>, o: nat) returns (states': seq<State<T>>)
    requires ValidProgram(p) && IsRun(p, states, actions)
    requires
      var s := states[|actions|];
      && NoneCompleted(s) && o < |p.ops| && |s.status| == |p.ops| && s.status[o].Pushing?
      && s.status[o].next < NDeps(p, o)
    ensures
      var s := states[|actions|];
      var q := Ref(o, s.status[o].next);
      && IsRun(p, states', actions + [Append(o)]) && NoneCompleted(states'[|actions| + 1])
      && q !in s.time && |s.wait| == |p.ops| && VarOf(p, q) < |s.vars| && states'[|actions| + 1] == AppendStep(p, s, q)
  {
    var s := states[|actions|];
    RunCore(p, states, actions, |actions|);
    OneMore(p, states, actions, Append(o));
    states' := states + [Do(p, s, Append(o))];
    AppendShape(p, s, Ref(o, s.status[o].next));
  }

  lemma AppendsMore<T>(p: Program<T>, s: State<T>, s1: State<T>, s2: State<T>, o: nat, m: nat, n: nat)
    requires IsRef(p, Ref(o, m)) && VarOf(p, Ref(o, m)) < |s.vars| && o < |s.wait| && o < |s.status| && m < n
    requires s1 == AppendStep(p, s, Ref(o, m)) && Appends(s1, s2, o, m + 1, n) && Ref(o, m) !in s.time
    ensures Appends(s, s2, o, m, n)
  {
  }

  /** Pushing a whole operation. */
  lemma PushWhole<T>(p: Program<T>, states: seq<State<T>>, actions: seq<Action>, o: nat, n: nat)
    returns (states': seq<State<T>>, actions': seq<Action>)
    requires ValidProgram(p) && IsRun(p, states, actions)
    requires
      var s := states[|actions|];
      NoneCompleted(s) && o < |p.ops| && |s.status| == |p.ops| && s.status[o].Unpushed? && n <= NDeps(p, o)
    ensures IsRun(p, states', actions') && NoneCompleted(states'[|actions'|])
    ensures Appends(states[|actions|], states'[|actions'|], o, 0, n)
  {
    var s := states[|actions|];
    RunCore(p, states, actions, |actions|);
    OneMore(p, states, actions, BeginPush(o));
    var s1 := Do(p, s, BeginPush(o));
    states', actions' := PushUpTo(p, states + [s1], actions + [BeginPush(o)], o, n);
  }

  /** The dependencies of the operations from link i on have been appended, in the order of the links. */
  ghost predicate TailAppended<T>(p: Program<T>, time: map<Ref, nat>, links: seq<Link>, i: nat)
    requires IsChain(p, links)
  {
    && (forall m :: i <= m < |links| ==> Before(time, links[m].a, links[m].q))
    && (forall m, j :: i <= m < |links| && 0 <= j < NDeps(p, links[m].q.op) ==> Ref(links[m].q.op, j) in time)
  }

  /** The first operation of the cycle is pushed up to where the cycle comes back, and those from number i on whole. */
  ghost predicate TailPushed<T>(p: Program<T>, s: State<T>, links: seq<Link>, i: nat)
    requires IsCycle(p, links)
  {
    var n := |links| - 1;
    && 1 <= i <= |links| && |s.status| == |p.ops| && NoneCompleted(s) && s.time.Keys == s.phase.Keys
    && s.status[links[0].q.op] == Pushing(links[n].a.dep + 1)
    && links[n].a in s.time
    && (forall m :: 1 <= m < i ==> s.status[links[m].q.op].Unpushed?)
    && TailAppended(p, s.time, links, i)
    && (forall q :: q in s.time ==> s.time[q] < s.clock)
  }

  lemma {:induction false} PushTail<T>(p: Program<T>, links: seq<Link>, i: nat)
    returns (states: seq<State<T>>, actions: seq<Action>)
    requires ValidProgram(p) && IsCycle(p, links) && 1 <= i <= |links|
    ensures IsRun(p, states, actions) && TailPushed(p, states[|actions|], links, i)
    decreases |links| - i
  {
    if i == |links| {
      states, actions := PushFirst(p, links);
    } else {
      states, actions := PushTail(p, links, i + 1);
      var s := states[|actions|];
      var o := links[i].q.op;
      assert IsLink(p, links[i]) && s.status[o].Unpushed?;
      states, actions := PushWhole(p, states, actions, o, NDeps(p, o));
      RunCore(p, states, actions, |actions|);
      TailGrows(p, s, states[|actions|], links, i);
    }
  }

  lemma PushFirst<T>(p: Program<T>, links: seq<Link>) returns (states: seq<State<T>>, actions: seq<Action>)
    requires ValidProgram(p) && IsCycle(p, links)
    ensures IsRun(p, states, actions) && TailPushed(p, states[|actions|], links, |links|)
  {
    var s := Init(p);
    assert IsRun(p, [s], []);
    var n := |links| - 1;
    assert IsLink(p, links[0]) && IsLink(p, links[n]);
    states, actions := PushWhole(p, [s], [], links[0].q.op, links[n].a.dep + 1);
    RunCore(p, states, actions, |actions|);
    assert links[n].a == Ref(links[0].q.op, links[n].a.dep);
    forall m | 1 <= m < |links| ensures states[|actions|].status[links[m].q.op].Unpushed? {
      assert IsLink(p, links[m]) && links[m].q.op != links[0].q.op;
    }
  }

  /** What link i waits for is there when the operation of the link is pushed. */
  lemma TailGrows<T>(p: Program<T>, s: State<T>, s': State<T>, links: seq<Link>, i: nat)
    requires IsCycle(p, links) && 1 <= i < |links| && TailPushed(p, s, links, i + 1)
    requires Appends(s, s', links[i].q.op, 0, NDeps(p, links[i].q.op)) && NoneCompleted(s')
    requires s'.time.Keys == s'.phase.Keys && forall q :: q in s'.time ==> s'.time[q] < s'.clock
    ensures TailPushed(p, s', links, i)
  {
    assert links[i].a in s.time by {
      assert IsLink(p, links[i]);
      if i < |links| - 1 { assert links[i].a == Ref(links[i + 1].q.op, links[i].a.dep); }
    }
    TailTimes(p, s, s', links, i);
    TailStatus(p, s, s', links, i);
  }

  lemma TailTimes<T>(p: Program<T>, s: State<T>, s': State<T>, links: seq<Link>, i: nat)
    requires IsChain(p, links) && i < |links| && TailAppended(p, s.time, links, i + 1)
    requires Appends(s, s', links[i].q.op, 0, NDeps(p, links[i].q.op))
    requires links[i].a in s.time && s.time[links[i].a] < s.clock
    ensures TailAppended(p, s'.time, links, i)
  {
    assert IsLink(p, links[i]) && links[i].q == Ref(links[i].q.op, links[i].q.dep);
    forall m | i <= m < |links| ensures Before(s'.time, links[m].a, links[m].q) {
      if m > i { assert Before(s.time, links[m].a, links[m].q); }
    }
  }

  lemma TailStatus<T>(p: Program<T>, s: State<T>, s': State<T>, links: seq<Link>, i: nat)
    requires IsChain(p, links) && 1 <= i < |links| && |s.status| == |p.ops|
    requires s'.status == s.status[links[i].q.op := Pushing(NDeps(p, links[i].q.op))]
    requires forall m :: 1 <= m < i ==> s.status[links[m].q.op].Unpushed?
    ensures s'.status[links[0].q.op] == s.status[links[0].q.op]
    ensures forall m :: 1 <= m < i ==> s'.status[links[m].q.op].Unpushed?
  {
    assert links[0].q.op != links[i].q.op;
    forall m | 1 <= m < i ensures s'.status[links[m].q.op].Unpushed? {
      assert IsLink(p, links[m]) && links[m].q.op != links[i].q.op;
    }
  }

  /** A run, with nothing completed yet, in which every dependency of the cycle stands behind the one it waits for. */
  lemma PushCycle<T>(p: Program<T>, links: seq<Link>) returns (states: seq<State<T>>, actions: seq<Action>)
    requires ValidProgram(p) && IsCycle(p, links)
    ensures IsRun(p, states, actions) && NoneCompleted(states[|actions|]) && Ordered(states[|actions|].time, links)
  {
    states, actions := PushTail(p, links, 1);
    var s := states[|actions|];
    var o := links[0].q.op;
    assert IsLink(p, links[0]);
    states, actions := PushUpTo(p, states, actions, o, NDeps(p, o));
    var s' := states[|actions|];
    assert links[0].q == Ref(o, links[0].q.dep);
    assert links[0].a in s.time by {
      if |links| > 1 { assert links[0].a == Ref(links[1].q.op, links[0].a.dep); }
    }
    forall m | 0 <= m < |links| ensures Before(s'.time, links[m].a, links[m].q) {
      if m > 0 { assert Before(s.time, links[m].a, links[m].q); }
    }
  }

  ghost predicate AllQueued<T>(s: State<T>, links: seq<Link>) {
    Ordered(s.time, links) && forall i :: 0 <= i < |links| ==> links[i].q in s.phase && s.phase[links[i].q] == Queued
  }

  lemma NotCompletedWaits<T>(p: Program<T>, s: State<T>, l: Link)
    requires CoreInv(p, s) && IsLink(p, l) && Before(s.time, l.a, l.q) && s.phase[l.a] != Completed
    ensures s.phase[l.q] == Queued
  {
    assert VarInv(p, VarOf(p, l.a), s.vars[VarOf(p, l.a)], s.phase, s.time);
    assert Conflict(p, l.a, l.q);
  }

  /** An operation with a queued dependency has not been dispatched and has completed nothing. */
  lemma QueuedNotDispatched<T>(p: Program<T>, s: State<T>, q: Ref)
    requires CoreInv(p, s) && q in s.phase && s.phase[q] == Queued
    ensures NotDispatched(s.status[q.op])
  {
    assert OpInv(p, s, q.op);
    assert q == Ref(q.op, q.dep);
  }

  lemma NothingCompleted<T>(p: Program<T>, s: State<T>, a: Ref)
    requires CoreInv(p, s) && a in s.phase && (NotDispatched(s.status[a.op]) || s.status[a.op].Ready?)
    ensures s.phase[a] != Completed
  {
    assert OpInv(p, s, a.op);
    assert a == Ref(a.op, a.dep);
  }

  /** Where the links wait for each other, they go on waiting. */
  lemma QueuedStep<T>(p: Program<T>, s: State<T>, a: Action, s': State<T>, links: seq<Link>)
    requires CoreInv(p, s) && CoreInv(p, s') && Next(p, s, a, s') && IsClosed(p, links) && AllQueued(s, links)
    ensures AllQueued(s', links)
  {
    TimesStay(p, s, a);
    forall i | 0 <= i < |links| ensures Before(s'.time, links[i].a, links[i].q) && s'.phase[links[i].q] == Queued {
      assert IsLink(p, links[i]) && Before(s.time, links[i].a, links[i].q);
      var next := if i == |links| - 1 then links[0] else links[i + 1];
      assert next in links;
      QueuedNotDispatched(p, s, next.q);
      StatusesForward(p, s, a, next.q.op);
      NothingCompleted(p, s', links[i].a);
      NotCompletedWaits(p, s', links[i]);
    }
  }

  lemma TimesStay<T>(p: Program<T>, s: State<T>, a: Action)
    requires CoreInv(p, s) && Enabled(p, s, a) && Checks(p, s, a)
    ensures forall q :: q in s.time ==> q in Do(p, s, a).time && Do(p, s, a).time[q] == s.time[q]
  {
    if a.Append? { AppendShape(p, s, Ref(a.op, s.status[a.op].next)); }
  }

  lemma {:induction false} QueuedRun<T>(p: Program<T>, states: seq<State<T>>, actions: seq<Action>, k: nat, i: nat,
                                        links: seq<Link>)
    requires ValidProgram(p) && IsRun(p, states, actions) && k <= i < |states|
    requires IsClosed(p, links) && AllQueued(states[k], links)
    ensures AllQueued(states[i], links)
    decreases i
  {
    if i > k {
      QueuedRun(p, states, actions, k, i - 1, links);
      QueuedNext(p, states, actions, i - 1, links);
    }
  }

  lemma QueuedNext<T>(p: Program<T>, states: seq<State<T>>, actions: seq<Action>, i: nat, links: seq<Link>)
    requires ValidProgram(p) && IsRun(p, states, actions) && i < |actions|
    requires IsClosed(p, links) && AllQueued(states[i], links)
    ensures AllQueued(states[i + 1], links)
  {
    RunCore(p, states, actions, i);
    RunCore(p, states, actions, i + 1);
    QueuedStep(p, states[i], actions[i], states[i + 1], links);
  }

  lemma CycleSticks<T>(p: Program<T>, links: seq<Link>) returns (states: seq<State<T>>, actions: seq<Action>)
    requires ValidProgram(p) && IsCycle(p, links)
    ensures IsRun(p, states, actions) && Stuck(p, states[|actions|]) && !AllFinished(states[|actions|])
  {
    var states0, actions0 := PushCycle(p, links);
    var k := |actions0|;
    RunCore(p, states0, actions0, k);
    forall i | 0 <= i < |links|
      ensures links[i].q in states0[k].phase && states0[k].phase[links[i].q] == Queued
    {
      assert IsLink(p, links[i]) && Before(states0[k].time, links[i].a, links[i].q);
      NotCompletedWaits(p, states0[k], links[i]);
    }
    states, actions := RunToStuck(p, states0, actions0);
    assert states[k] == states0[k];
    QueuedRun(p, states, actions, k, |actions|, links);
    RunCore(p, states, actions, |actions|);
    QueuedNotDispatched(p, states[|actions|], links[0].q);
  }

  // ----- the condition

  /** Every run that cannot go on has finished every operation. */
  ghost predicate DeadlockFree<T(!new)>(p: Program<T>)
    requires ValidProgram(p)
  {
    forall states, actions :: IsRun(p, states, actions) && Stuck(p, states[|actions|]) ==>
      AllFinished(states[|actions|])
  }

  /** However many threads push, a program cannot deadlock if and only if its conflicts close no cycle. */
  lemma DeadlockFreeIff<T(!new)>(p: Program<T>)
    requires ValidProgram(p)
    ensures DeadlockFree(p) <==> !HasCycle(p)
  {
    if HasCycle(p) {
      var links :| IsCycle(p, links);
      var states, actions := CycleSticks(p, links);
    } else {
      forall states, actions | IsRun(p, states, actions) && Stuck(p, states[|actions|])
        ensures AllFinished(states[|actions|])
      {
        RunCore(p, states, actions, |actions|);
        if !AllFinished(states[|actions|]) {
          var cycle := StuckHasCycle(p, states[|actions|]);
        }
      }
    }
  }

  // ----- overlapping pushes

  /** A dependency of operation o' has been appended between two of operation o. */
  ghost predicate Overlap<T>(s: State<T>, o: nat, o': nat) {
    o != o' && exists a: Ref, b: Ref, c: Ref ::
      a.op == b.op == o && c.op == o' && Before(s.time, a, c) && Before(s.time, c, b)
  }

  /** Where pushes do not overlap, one pair of dependencies tells which push came first. */
  lemma WholeBefore<T>(s: State<T>, a: Ref, b: Ref, a': Ref, b': Ref)
    requires TimeInv(s) && Before(s.time, a, b) && a.op != b.op && a'.op == a.op && b'.op == b.op
    requires a' in s.time && b' in s.time && !Overlap(s, a.op, b.op) && !Overlap(s, b.op, a.op)
    ensures Before(s.time, a', b')
  {
    if Before(s.time, b', a') {
      assert Before(s.time, a, b') || Before(s.time, b', a);
    }
  }

  /** Where no pushes overlap, only an operation that conflicts with itself waits for itself. */
  lemma NoOverlapSelfConflicts<T>(p: Program<T>, s: State<T>, links: seq<Link>)
    requires TimeInv(s) && IsClosed(p, links) && Ordered(s.time, links)
    requires forall o, o' :: !Overlap(s, o, o')
    ensures |links| == 1
  {
    var n := |links| - 1;
    if n > 0 {
      Earlier(p, s, links, n);
      assert Before(s.time, links[n].a, links[n].q) && Before(s.time, links[0].a, links[0].q);
      assert links[0].q.op != links[n].q.op;
      WholeBefore(s, links[n].a, links[n].q, links[0].q, links[n].q);
    }
  }

  lemma {:induction false} Earlier<T>(p: Program<T>, s: State<T>, links: seq<Link>, i: nat)
    requires TimeInv(s) && IsChain(p, links) && Ordered(s.time, links) && i < |links|
    requires forall o, o' :: !Overlap(s, o, o')
    ensures links[i].q in s.time && links[0].q in s.time && s.time[links[i].q] <= s.time[links[0].q]
  {
    assert Before(s.time, links[i].a, links[i].q) && Before(s.time, links[0].a, links[0].q);
    if i > 0 {
      Earlier(p, s, links, i - 1);
      assert Before(s.time, links[i - 1].a, links[i - 1].q) && links[i - 1].q.op != links[i].q.op;
      WholeBefore(s, links[i - 1].a, links[i - 1].q, links[i].q, links[i - 1].q);
    }
  }

  /** A deadlock without an operation that conflicts with itself takes two pushes that overlap. */
  lemma DeadlockNeedsOverlap<T>(p: Program<T>, states: seq<State<T>>, actions: seq<Action>)
    requires ValidProgram(p) && IsRun(p, states, actions) && NoSelfConflict(p)
    requires Stuck(p, states[|actions|]) && !AllFinished(states[|actions|])
    ensures exists o, o' :: Overlap(states[|actions|], o, o')
  {
    var s := states[|actions|];
    RunCore(p, states, actions, |actions|);
    var cycle := StuckHasCycle(p, s);
    assert IsLink(p, cycle[0]);
    if forall o, o' :: !Overlap(s, o, o') {
      NoOverlapSelfConflicts(p, s, cycle);
    }
  }

  // ----- inputs on which it deadlocks

  lemma CycleOfTwo<T(!new)>(p: Program<T>, l: Link, m: Link)
    requires ValidProgram(p) && IsLink(p, l) && IsLink(p, m) && l.q.op != m.q.op
    requires l.a.op == m.q.op && m.a.op == l.q.op && m.a.dep < l.q.dep
    ensures !DeadlockFree(p)
  {
    assert IsCycle(p, [l, m]);
    DeadlockFreeIff(p);
  }

  /** Two operations, each reading what the other writes. */
  lemma TwoPushersDeadlock<T(!new)>(init: seq<T>, fn: (nat, map<nat, T>, nat) -> T)
    requires |init| >= 2
    ensures
      var p := Program([Opr([0], [1]), Opr([1], [0])], init, fn);
      ValidProgram(p) && NoSelfConflict(p) && !DeadlockFree(p)
  {
    var p := Program([Opr([0], [1]), Opr([1], [0])], init, fn);
    CycleOfTwo(p, Link(Ref(0, 1), Ref(1, 0)), Link(Ref(1, 1), Ref(0, 0)));
  }

  /** One variable is enough when an operation reads it twice and another one mutates it. */
  lemma RepeatedReadDeadlocks<T(!new)>(init: seq<T>, fn: (nat, map<nat, T>, nat) -> T)
    requires |init| >= 1
    ensures
      var p := Program([Opr([0, 0], []), Opr([], [0])], init, fn);
      ValidProgram(p) && NoSelfConflict(p) && !DeadlockFree(p)
  {
    var p := Program([Opr([0, 0], []), Opr([], [0])], init, fn);
    CycleOfTwo(p, Link(Ref(0, 1), Ref(1, 0)), Link(Ref(1, 0), Ref(0, 0)));
  }
}
