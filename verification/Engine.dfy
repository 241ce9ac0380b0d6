/**
 The threaded dependency engine as a transition system: any number of threads push operations, and any
 number of worker threads run them and complete their dependencies. Each action is one atomic piece of
 src/engine/threaded_engine.cc: a lock scope, an atomic decrement, or local work. Push takes no lock from
 one append to the next, so the appends of several pushes interleave freely.
 */
module Engine {
  import opened EngineVar

  /** An operation: the variables it reads and the variables it mutates. */
  datatype Opr = Opr(constVars: seq<nat>, mutableVars: seq<nat>)

  /** The pushed operations, the initial contents of the variables, and what each operation's
      function stores into a variable it mutates, given the contents of all it depends on. */
  datatype Program<!T> = Program(ops: seq<Opr>, init: seq<T>, fn: (nat, map<nat, T>, nat) -> T)

  /** Where a dependency that has been appended to its variable stands. */
  datatype Phase = Queued | Triggered | Granted | Completed

  /** An operation's life. Pushing is inside Push, with the dependencies before `next` appended. Running
      remembers the contents its function saw; Completing is inside OnComplete, with the triggers of the last
      completed dependency not yet decremented. */
  datatype Status<T> =
    | Unpushed
    | Pushing(next: nat)
    | Waiting
    | Ready
    | Running(view: map<nat, T>)
    | Completing(at: nat, todo: seq<Ref>)
    | Finished

  /** The engine's state. The last four fields are history, which no action looks at: where each dependency
      stands, when it was appended, how many have been, and the operations in the order they started. */
  datatype State<T> = State(
    vars: seq<VarState>,
    mem: seq<T>,
    wait: seq<int>,
    status: seq<Status<T>>,
    pending: int,
    phase: map<Ref, Phase>,
    time: map<Ref, nat>,
    clock: nat,
    started: seq<nat>)

  datatype Action =
    | BeginPush(op: nat) | Append(op: nat) | EndPush(op: nat)
    | Start(op: nat) | Return(op: nat) | CompleteDep(op: nat) | DecrWait(op: nat) | Retire(op: nat)

  // ----- programs

  function NDeps<T>(p: Program<T>, o: nat): nat
    requires o < |p.ops|
  {
    |p.ops[o].constVars| + |p.ops[o].mutableVars|
  }

  predicate IsRef<T>(p: Program<T>, q: Ref) {
    q.op < |p.ops| && q.dep < NDeps(p, q.op)
  }

  predicate IsWrite<T>(p: Program<T>, q: Ref)
    requires IsRef(p, q)
  {
    q.dep >= |p.ops[q.op].constVars|
  }

  function VarOf<T>(p: Program<T>, q: Ref): nat
    requires IsRef(p, q)
  {
    var c := p.ops[q.op].constVars;
    if q.dep < |c| then c[q.dep] else p.ops[q.op].mutableVars[q.dep - |c|]
  }

  ghost predicate ValidProgram<T>(p: Program<T>) {
    forall q :: IsRef(p, q) ==> VarOf(p, q) < |p.init|
  }

  /** The contents operation o can see. */
  function View<T>(p: Program<T>, o: nat, mem: seq<T>): map<nat, T>
    requires o < |p.ops|
  {
    map v | v in p.ops[o].constVars + p.ops[o].mutableVars && v < |mem| :: mem[v]
  }

  function Store<T>(p: Program<T>, o: nat, view: map<nat, T>, mem: seq<T>): (m: seq<T>)
    requires o < |p.ops|
    ensures |m| == |mem|
    ensures forall v :: 0 <= v < |mem| ==>
      m[v] == if v in p.ops[o].mutableVars then p.fn(o, view, v) else mem[v]
  {
    seq(|mem|, v requires 0 <= v < |mem| =>
      if v in p.ops[o].mutableVars then p.fn(o, view, v) else mem[v])
  }

  /** The contents after running the operations of an order one after another, each to its end. */
  function InTurn<T>(p: Program<T>, order: seq<nat>): (m: seq<T>)
    requires forall i :: 0 <= i < |order| ==> order[i] < |p.ops|
    ensures |m| == |p.init|
  {
    if order == [] then p.init
    else
      var m := InTurn(p, order[..|order| - 1]);
      Store(p, order[|order| - 1], View(p, order[|order| - 1], m), m)
  }

  function Numbers(k: nat): (r: seq<nat>)
    ensures |r| == k && forall i :: 0 <= i < k ==> r[i] == i
  {
    seq(k, i requires 0 <= i < k => i)
  }

  /** The contents after the first k operations when each runs to its end inside Push, as the naive
      engine does (src/engine/naive_engine.cc). */
  function Sequential<T>(p: Program<T>, k: nat): (m: seq<T>)
    requires k <= |p.ops|
    ensures |m| == |p.init|
  {
    InTurn(p, Numbers(k))
  }

  // ----- transitions

  function Init<T>(p: Program<T>): State<T> {
    State(seq(|p.init|, _ => VarState(0, [], 0)), p.init, seq(|p.ops|, _ => 0),
          seq(|p.ops|, _ => Unpushed), 0, map[], map[], 0, [])
  }

  /** Phases after qs have moved to ph. */
  function Mark(phase: map<Ref, Phase>, qs: seq<Ref>, ph: Phase): (m: map<Ref, Phase>)
    ensures m.Keys == phase.Keys
    ensures forall q :: q in phase ==> m[q] == if q in qs then ph else phase[q]
  {
    map q | q in phase :: if q in qs then ph else phase[q]
  }

  ghost predicate Enabled<T>(p: Program<T>, s: State<T>, a: Action) {
    |s.status| == |s.wait| == |p.ops| && |s.vars| == |p.init| &&
    match a
    case BeginPush(o) => o < |p.ops| && s.status[o].Unpushed?
    case Append(o) => o < |p.ops| && s.status[o].Pushing? && s.status[o].next < NDeps(p, o)
    case EndPush(o) => o < |p.ops| && s.status[o].Pushing? && s.status[o].next >= NDeps(p, o)
    case Start(o) => o < |p.ops| && s.status[o].Ready?
    case Return(o) => o < |p.ops| && s.status[o].Running?
    case CompleteDep(o) =>
      o < |p.ops| && s.status[o].Completing? && s.status[o].todo == [] && s.status[o].at < NDeps(p, o)
    case DecrWait(o) => o < |p.ops| && s.status[o].Completing? && s.status[o].todo != []
    case Retire(o) =>
      o < |p.ops| && s.status[o].Completing? && s.status[o].todo == [] && s.status[o].at >= NDeps(p, o)
  }

  /** The CHECK macros on the way of an action: the engine aborts when one of them fails. */
  ghost predicate Checks<T>(p: Program<T>, s: State<T>, a: Action)
    requires ValidProgram(p) && Enabled(p, s, a)
  {
    match a
    case Append(o) =>
      var q := Ref(o, s.status[o].next);
      var x := s.vars[VarOf(p, q)];
      && (x.queue == [] ==> x.pendingReads >= 0)
      && (x.queue != [] && IsWrite(p, q) ==> x.pendingReads != 0)
      && (x.queue == [] && (!IsWrite(p, q) || x.pendingReads == 0) ==> s.wait[o] >= 1)
    case EndPush(o) => s.wait[o] >= 1
    case CompleteDep(o) =>
      var q := Ref(o, s.status[o].at);
      var x := s.vars[VarOf(p, q)];
      if IsWrite(p, q) then x.queue != [] && x.pendingReads == WRITE_TRIGGERED else x.pendingReads > 0
    case DecrWait(o) =>
      var q := s.status[o].todo[0];
      q.op < |p.ops| && s.wait[q.op] >= 1
    case Retire(_) => s.pending >= 1
    case _ => true
  }

  /** Push appending dependency q to its variable; a dependency granted inside the lock scope
      decrements the wait counter there. */
  function AppendStep<T>(p: Program<T>, s: State<T>, q: Ref): State<T>
    requires IsRef(p, q) && VarOf(p, q) < |s.vars| && q.op < |s.wait| && q.op < |s.status|
  {
    var v := VarOf(p, q);
    var r := if IsWrite(p, q) then AppendWrite(s.vars[v], q) else AppendRead(s.vars[v], q);
    s.(vars := s.vars[v := r.state],
       status := s.status[q.op := Pushing(q.dep + 1)],
       wait := if r.triggered == [] then s.wait else s.wait[q.op := s.wait[q.op] - 1],
       phase := s.phase[q := if r.triggered == [] then Queued else Granted],
       time := s.time[q := s.clock],
       clock := s.clock + 1)
  }

  /** The lock scope in which operation q.op completes its dependency q. */
  function CompleteStep<T>(p: Program<T>, s: State<T>, q: Ref): State<T>
    requires IsRef(p, q) && VarOf(p, q) < |s.vars| && q.op < |s.status|
    requires IsWrite(p, q) ==> s.vars[VarOf(p, q)].queue != []
  {
    var v := VarOf(p, q);
    var r := if IsWrite(p, q) then CompleteWrite(s.vars[v]) else CompleteRead(s.vars[v]);
    s.(vars := s.vars[v := r.state],
       status := s.status[q.op := Completing(q.dep + 1, r.triggered)],
       phase := Mark(Mark(s.phase, [q], Completed), r.triggered, Triggered))
  }

  /** Decrement the wait counter of operation o, which PushToExecute takes over at zero. */
  function Release<T>(s: State<T>, o: nat): State<T>
    requires o < |s.wait| && o < |s.status|
  {
    s.(wait := s.wait[o := s.wait[o] - 1],
       status := if s.wait[o] == 1 then s.status[o := Ready] else s.status)
  }

  ghost function Do<T>(p: Program<T>, s: State<T>, a: Action): State<T>
    requires ValidProgram(p) && Enabled(p, s, a) && Checks(p, s, a)
  {
    match a
    case BeginPush(o) =>
      s.(pending := s.pending + 1, wait := s.wait[o := NDeps(p, o) + 1], status := s.status[o := Pushing(0)])
    case Append(o) => AppendStep(p, s, Ref(o, s.status[o].next))
    case EndPush(o) => Release(s.(status := s.status[o := Waiting]), o)
    case Start(o) => s.(status := s.status[o := Running(View(p, o, s.mem))], started := s.started + [o])
    case Return(o) =>
      s.(mem := Store(p, o, s.status[o].view, s.mem), status := s.status[o := Completing(0, [])])
    case CompleteDep(o) => CompleteStep(p, s, Ref(o, s.status[o].at))
    case DecrWait(o) =>
      var Completing(at, todo) := s.status[o];
      Release(s.(status := s.status[o := Completing(at, todo[1..])],
                 phase := Mark(s.phase, [todo[0]], Granted)), todo[0].op)
    case Retire(o) => s.(status := s.status[o := Finished], pending := s.pending - 1)
  }

  ghost predicate Next<T>(p: Program<T>, s: State<T>, a: Action, s': State<T>)
    requires ValidProgram(p)
  {
    Enabled(p, s, a) && Checks(p, s, a) && s' == Do(p, s, a)
  }

  /** A run: the states passed and the actions taken between them. */
  ghost predicate IsRun<T>(p: Program<T>, states: seq<State<T>>, actions: seq<Action>)
    requires ValidProgram(p)
  {
    && |states| == |actions| + 1
    && states[0] == Init(p)
    && forall i {:trigger actions[i]} :: 0 <= i < |actions| ==> Next(p, states[i], actions[i], states[i + 1])
  }

  /** A run in which one thread pushes: every push begins when those of all earlier operations have ended. */
  ghost predicate OnePusher<T>(p: Program<T>, states: seq<State<T>>, actions: seq<Action>)
    requires ValidProgram(p) && IsRun(p, states, actions)
  {
    forall i :: 0 <= i < |actions| && actions[i].BeginPush? ==> PushedBelow(states[i], actions[i].op)
  }

  ghost predicate PushedBelow<T>(s: State<T>, o: nat) {
    forall o' :: 0 <= o' < o && o' < |s.status| ==> !s.status[o'].Unpushed? && !s.status[o'].Pushing?
  }

  ghost predicate AllFinished<T>(s: State<T>) {
    forall o :: 0 <= o < |s.status| ==> s.status[o].Finished?
  }

  /** Two dependencies on one variable of which at least one writes. */
  predicate Conflict<T>(p: Program<T>, a: Ref, b: Ref)
    requires IsRef(p, a) && IsRef(p, b)
  {
    a != b && VarOf(p, a) == VarOf(p, b) && (IsWrite(p, a) || IsWrite(p, b))
  }

  /** No operation names a variable it mutates twice, in either list. */
  ghost predicate NoSelfConflict<T>(p: Program<T>) {
    forall a, b :: IsRef(p, a) && IsRef(p, b) && a.op == b.op ==> !Conflict(p, a, b)
  }
}
