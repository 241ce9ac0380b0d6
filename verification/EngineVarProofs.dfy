/**
 What one variable guarantees: the invariant that ties its counter and queue to the dependencies
 appended to it, and its preservation by each of the four lock scopes.
 */
module EngineVarProofs {
  import opened EngineVar
  import opened Engine
  import opened Sequences

  /** Append order. */
  predicate Before(time: map<Ref, nat>, a: Ref, b: Ref) {
    a in time && b in time && time[a] < time[b]
  }

  /** q has been let through by its variable and has not been completed. */
  predicate Holds(phase: map<Ref, Phase>, q: Ref) {
    q in phase && (phase[q].Triggered? || phase[q].Granted?)
  }

  ghost predicate PhasesAreRefs<T>(p: Program<T>, phase: map<Ref, Phase>) {
    forall q :: q in phase ==> IsRef(p, q)
  }

  function Readers<T>(p: Program<T>, v: nat, phase: map<Ref, Phase>): set<Ref>
    requires PhasesAreRefs(p, phase)
  {
    set q | q in phase && VarOf(p, q) == v && !IsWrite(p, q) && Holds(phase, q)
  }

  /** The queue holds dependencies on v in append order, a write first; all but the first wait. */
  ghost predicate QueueInv<T>(p: Program<T>, v: nat, x: VarState, phase: map<Ref, Phase>, time: map<Ref, nat>)
    requires PhasesAreRefs(p, phase)
  {
    && (forall i :: 0 <= i < |x.queue| ==>
          x.queue[i].trigger in phase && VarOf(p, x.queue[i].trigger) == v
          && x.queue[i].write == IsWrite(p, x.queue[i].trigger))
    && (forall i, j :: 0 <= i < j < |x.queue| ==> Before(time, x.queue[i].trigger, x.queue[j].trigger))
    && (forall i :: 1 <= i < |x.queue| ==> phase[x.queue[i].trigger] == Queued)
    && (x.queue != [] ==> x.queue[0].write && x.pendingReads != 0)
    && (x.queue != [] && x.pendingReads != WRITE_TRIGGERED ==> phase[x.queue[0].trigger] == Queued)
    && (x.pendingReads == WRITE_TRIGGERED ==> x.queue != [] && Holds(phase, x.queue[0].trigger))
  }

  predicate InQueue(x: VarState, q: Ref) {
    exists i :: 0 <= i < |x.queue| && x.queue[i].trigger == q
  }

  /** Every dependency that waits, and every write that has not completed, is in the queue. */
  ghost predicate CoverInv<T>(p: Program<T>, v: nat, x: VarState, phase: map<Ref, Phase>)
    requires PhasesAreRefs(p, phase)
  {
    forall q | q in phase && VarOf(p, q) == v && (phase[q] == Queued || (IsWrite(p, q) && phase[q] != Completed)) ::
      InQueue(x, q)
  }

  ghost predicate CountInv<T>(p: Program<T>, v: nat, x: VarState, phase: map<Ref, Phase>)
    requires PhasesAreRefs(p, phase)
  {
    && x.pendingReads >= WRITE_TRIGGERED
    && |Readers(p, v, phase)| == if x.pendingReads < 0 then 0 else x.pendingReads
  }

  /** A dependency is let through only after every earlier one it conflicts with has completed. */
  ghost predicate OrderInv<T>(p: Program<T>, v: nat, phase: map<Ref, Phase>, time: map<Ref, nat>)
    requires PhasesAreRefs(p, phase)
  {
    forall a, b | a in phase && b in phase && VarOf(p, a) == v && Before(time, a, b) && Conflict(p, a, b) ::
      phase[b] == Queued || phase[a] == Completed
  }

  ghost predicate VarInv<T>(p: Program<T>, v: nat, x: VarState, phase: map<Ref, Phase>, time: map<Ref, nat>)
    requires PhasesAreRefs(p, phase)
  {
    && QueueInv(p, v, x, phase, time) && CoverInv(p, v, x, phase)
    && CountInv(p, v, x, phase) && OrderInv(p, v, phase, time)
  }

  /** A variable is untouched by what happens to dependencies on other variables. */
  lemma VarInvFrame<T>(p: Program<T>, v: nat, x: VarState, phase: map<Ref, Phase>, time: map<Ref, nat>,
                       phase': map<Ref, Phase>, time': map<Ref, nat>)
    requires PhasesAreRefs(p, phase) && PhasesAreRefs(p, phase') && VarInv(p, v, x, phase, time)
    requires forall q :: q in phase ==> q in time && q in time' && time'[q] == time[q]
    requires forall q :: q in phase && VarOf(p, q) == v ==> q in phase' && phase'[q] == phase[q]
    requires forall q :: q in phase' && VarOf(p, q) == v ==> q in phase
    ensures VarInv(p, v, x, phase', time')
  {
    assert Readers(p, v, phase') == Readers(p, v, phase);
  }

  /** q is appended at `clock`, later than everything before it. */
  ghost predicate Newest(phase: map<Ref, Phase>, time: map<Ref, nat>, q: Ref, clock: nat) {
    q !in phase && forall a :: a in phase ==> a in time && time[a] < clock
  }

  /** The order is kept when the latest dependency waits, or passes with no open conflict before it. */
  lemma OrderAppend<T>(p: Program<T>, v: nat, phase: map<Ref, Phase>, time: map<Ref, nat>, q: Ref, clock: nat,
                       ph: Phase)
    requires PhasesAreRefs(p, phase) && OrderInv(p, v, phase, time)
    requires IsRef(p, q) && VarOf(p, q) == v
    requires Newest(phase, time, q, clock)
    requires ph == Queued || forall a :: a in phase && Conflict(p, a, q) ==> phase[a] == Completed
    ensures OrderInv(p, v, phase[q := ph], time[q := clock])
  {
    var phase', time' := phase[q := ph], time[q := clock];
    assert forall a :: a in phase ==> !Before(time', q, a);
    forall a, b | a in phase' && b in phase' && VarOf(p, a) == v && Before(time', a, b) && Conflict(p, a, b)
      ensures phase'[b] == Queued || phase'[a] == Completed
    {
      assert a != q;
    }
  }

  /** Putting q at the end of a queue in which something waits, or behind pending reads. */
  lemma EnqueueKeeps<T>(p: Program<T>, v: nat, x: VarState, phase: map<Ref, Phase>, time: map<Ref, nat>, q: Ref,
                        clock: nat)
    requires PhasesAreRefs(p, phase) && VarInv(p, v, x, phase, time)
    requires IsRef(p, q) && VarOf(p, q) == v
    requires Newest(phase, time, q, clock)
    requires x.queue == [] ==> IsWrite(p, q) && x.pendingReads > 0
    ensures VarInv(p, v, x.(queue := x.queue + [Block(q, IsWrite(p, q))]), phase[q := Queued], time[q := clock])
  {
    var b := Block(q, IsWrite(p, q));
    var phase' := phase[q := Queued];
    var y := x.(queue := x.queue + [b]);
    OrderAppend(p, v, phase, time, q, clock, Queued);
    assert Readers(p, v, phase') == Readers(p, v, phase);
    InQueueAppend(x, b);
    QueueAppend(p, v, x, phase, time, q, clock);
  }

  lemma QueueAppend<T>(p: Program<T>, v: nat, x: VarState, phase: map<Ref, Phase>, time: map<Ref, nat>, q: Ref,
                       clock: nat)
    requires PhasesAreRefs(p, phase) && QueueInv(p, v, x, phase, time)
    requires IsRef(p, q) && VarOf(p, q) == v && Newest(phase, time, q, clock)
    requires x.queue == [] ==> IsWrite(p, q) && x.pendingReads > 0
    ensures QueueInv(p, v, x.(queue := x.queue + [Block(q, IsWrite(p, q))]), phase[q := Queued], time[q := clock])
  {
    var y := x.(queue := x.queue + [Block(q, IsWrite(p, q))]);
    assert forall i :: 0 <= i < |x.queue| ==> y.queue[i] == x.queue[i];
  }

  /** With nothing in the queue every write has completed, so a new read may pass. */
  lemma GrantNewRead<T>(p: Program<T>, v: nat, x: VarState, phase: map<Ref, Phase>, time: map<Ref, nat>, q: Ref,
                        clock: nat)
    requires PhasesAreRefs(p, phase) && VarInv(p, v, x, phase, time) && x.queue == []
    requires IsRef(p, q) && VarOf(p, q) == v && !IsWrite(p, q)
    requires Newest(phase, time, q, clock)
    ensures VarInv(p, v, x.(pendingReads := x.pendingReads + 1), phase[q := Granted], time[q := clock])
  {
    forall a | a in phase && Conflict(p, a, q) ensures phase[a] == Completed {
      assert !InQueue(x, a);
    }
    OrderAppend(p, v, phase, time, q, clock, Granted);
    ReadersGrow(p, v, phase, q);
    assert CoverInv(p, v, x, phase[q := Granted]);
  }

  lemma ReadersGrow<T>(p: Program<T>, v: nat, phase: map<Ref, Phase>, q: Ref)
    requires PhasesAreRefs(p, phase) && IsRef(p, q) && VarOf(p, q) == v && !IsWrite(p, q) && q !in phase
    ensures |Readers(p, v, phase[q := Granted])| == |Readers(p, v, phase)| + 1
  {
    var phase' := phase[q := Granted];
    assert PhasesAreRefs(p, phase');
    var now, before := Readers(p, v, phase'), Readers(p, v, phase);
    assert q !in before && q in now;
    forall a | a != q ensures a in now <==> a in before {
      assert a in phase' <==> a in phase;
    }
    assert now == before + {q};
  }

  lemma AppendReadKeeps<T>(p: Program<T>, v: nat, x: VarState, phase: map<Ref, Phase>, time: map<Ref, nat>, q: Ref,
                           clock: nat)
    requires PhasesAreRefs(p, phase) && VarInv(p, v, x, phase, time)
    requires IsRef(p, q) && VarOf(p, q) == v && !IsWrite(p, q)
    requires Newest(phase, time, q, clock)
    ensures x.queue == [] ==> x.pendingReads >= 0
    ensures var r := AppendRead(x, q);
      VarInv(p, v, r.state, phase[q := if r.triggered == [] then Queued else Granted], time[q := clock])
  {
    if x.queue == [] {
      GrantNewRead(p, v, x, phase, time, q, clock);
    } else {
      EnqueueKeeps(p, v, x, phase, time, q, clock);
    }
  }

  lemma InQueueAppend(x: VarState, b: Block)
    ensures forall a :: InQueue(x, a) || a == b.trigger ==> InQueue(x.(queue := x.queue + [b]), a)
  {
    var y := x.queue + [b];
    assert y[|x.queue|] == b;
    forall a | InQueue(x, a) ensures InQueue(x.(queue := y), a) {
      var i :| 0 <= i < |x.queue| && x.queue[i].trigger == a;
      assert y[i].trigger == a;
    }
  }

  lemma AppendWriteKeeps<T>(p: Program<T>, v: nat, x: VarState, phase: map<Ref, Phase>, time: map<Ref, nat>, q: Ref,
                            clock: nat)
    requires PhasesAreRefs(p, phase) && VarInv(p, v, x, phase, time)
    requires IsRef(p, q) && VarOf(p, q) == v && IsWrite(p, q)
    requires Newest(phase, time, q, clock)
    ensures x.queue == [] ==> x.pendingReads >= 0
    ensures var r := AppendWrite(x, q);
      VarInv(p, v, r.state, phase[q := if r.triggered == [] then Queued else Granted], time[q := clock])
  {
    if x.queue == [] && x.pendingReads == 0 {
      NoReaders(p, v, phase);
      OrderAppend(p, v, phase, time, q, clock, Granted);
      assert Readers(p, v, phase[q := Granted]) == Readers(p, v, phase);
      assert AppendWrite(x, q).state.queue[0].trigger == q;
    } else {
      EnqueueKeeps(p, v, x, phase, time, q, clock);
    }
  }

  lemma NoReaders<T>(p: Program<T>, v: nat, phase: map<Ref, Phase>)
    requires PhasesAreRefs(p, phase) && |Readers(p, v, phase)| == 0
    ensures forall a :: a in phase && VarOf(p, a) == v && !IsWrite(p, a) ==> !Holds(phase, a)
  {
    forall a | a in phase && VarOf(p, a) == v && !IsWrite(p, a) ensures !Holds(phase, a) {
      assert a !in Readers(p, v, phase);
    }
  }

  /** A worker decrementing the wait counter that a triggered dependency stands for. */
  lemma GrantKeeps<T>(p: Program<T>, v: nat, x: VarState, phase: map<Ref, Phase>, time: map<Ref, nat>, q: Ref)
    requires PhasesAreRefs(p, phase) && VarInv(p, v, x, phase, time)
    requires q in phase && phase[q] == Triggered
    ensures VarInv(p, v, x, Mark(phase, [q], Granted), time)
  {
    assert Readers(p, v, Mark(phase, [q], Granted)) == Readers(p, v, phase);
  }

  lemma CompleteReadKeeps<T>(p: Program<T>, v: nat, x: VarState, phase: map<Ref, Phase>, time: map<Ref, nat>, q: Ref)
    requires PhasesAreRefs(p, phase) && VarInv(p, v, x, phase, time)
    requires q in phase && VarOf(p, q) == v && !IsWrite(p, q) && phase[q] == Granted
    ensures x.pendingReads > 0
    ensures var r := CompleteRead(x);
      && (forall a :: a in r.triggered ==> a in phase && VarOf(p, a) == v && phase[a] == Queued)
      && VarInv(p, v, r.state, Mark(Mark(phase, [q], Completed), r.triggered, Triggered), time)
  {
    assert q in Readers(p, v, phase);
    var mid := Mark(phase, [q], Completed);
    FinishRead(p, v, x, phase, time, q);
    if x.pendingReads == 1 && x.queue != [] {
      TriggerWrite(p, v, CompleteRead(x).state, mid, time);
    } else {
      assert Mark(mid, [], Triggered) == mid;
    }
  }

  lemma FinishRead<T>(p: Program<T>, v: nat, x: VarState, phase: map<Ref, Phase>, time: map<Ref, nat>, q: Ref)
    requires PhasesAreRefs(p, phase) && VarInv(p, v, x, phase, time)
    requires q in phase && VarOf(p, q) == v && !IsWrite(p, q) && phase[q] == Granted
    ensures var mid := Mark(phase, [q], Completed);
      && QueueInv(p, v, x, mid, time) && CoverInv(p, v, x, mid) && OrderInv(p, v, mid, time)
      && |Readers(p, v, mid)| == x.pendingReads - 1
  {
    var mid := Mark(phase, [q], Completed);
    assert q in Readers(p, v, phase);
    assert Readers(p, v, mid) == Readers(p, v, phase) - {q};
  }

  /** Triggering the write at the front once every reader has completed. */
  lemma TriggerWrite<T>(p: Program<T>, v: nat, x: VarState, phase: map<Ref, Phase>, time: map<Ref, nat>)
    requires PhasesAreRefs(p, phase) && x.queue != [] && x.pendingReads == WRITE_TRIGGERED
    requires QueueInv(p, v, x.(pendingReads := 1), phase, time)
    requires CoverInv(p, v, x, phase) && OrderInv(p, v, phase, time)
    requires Readers(p, v, phase) == {}
    ensures VarInv(p, v, x, Mark(phase, [x.queue[0].trigger], Triggered), time)
  {
    var w := x.queue[0].trigger;
    var phase' := Mark(phase, [w], Triggered);
    assert Readers(p, v, phase') == {} by {
      forall a | a in phase && VarOf(p, a) == v && !IsWrite(p, a) ensures !Holds(phase', a) {
        assert a !in Readers(p, v, phase);
      }
    }
    forall a | a in phase && VarOf(p, a) == v && Before(time, a, w) ensures phase[a] == Completed {
      assert a !in Readers(p, v, phase);
      assert forall i :: 1 <= i < |x.queue| ==> Before(time, w, x.queue[i].trigger);
      assert !InQueue(x, a);
    }
  }

  lemma CompleteWriteKeeps<T>(p: Program<T>, v: nat, x: VarState, phase: map<Ref, Phase>, time: map<Ref, nat>, q: Ref)
    requires PhasesAreRefs(p, phase) && VarInv(p, v, x, phase, time)
    requires q in phase && VarOf(p, q) == v && IsWrite(p, q) && phase[q] == Granted
    ensures x.queue != [] && x.pendingReads == WRITE_TRIGGERED
    ensures var r := CompleteWrite(x);
      && (forall a :: a in r.triggered ==> a in phase && VarOf(p, a) == v && phase[a] == Queued)
      && VarInv(p, v, r.state, Mark(Mark(phase, [q], Completed), r.triggered, Triggered), time)
  {
    assert x.queue != [] && x.queue[0].trigger == q by {
      assert InQueue(x, q);
    }
    PopKeeps(p, v, x, phase, time);
    ResumeQueue(p, v, x, Mark(phase, [q], Completed), time);
  }

  /** After the write at the front has completed, what follows it is a queue of waiting blocks. */
  lemma PopKeeps<T>(p: Program<T>, v: nat, x: VarState, phase: map<Ref, Phase>, time: map<Ref, nat>)
    requires PhasesAreRefs(p, phase) && VarInv(p, v, x, phase, time) && x.pendingReads == WRITE_TRIGGERED
    ensures x.queue != []
    ensures
      var mid := Mark(phase, [x.queue[0].trigger], Completed);
      var y := VarState(0, x.queue[1..], x.version + 1);
      CoverInv(p, v, y, mid) && OrderInv(p, v, mid, time) && AllWaiting(p, v, y.queue, mid, time) &&
        Readers(p, v, mid) == {}
  {
    var w := x.queue[0].trigger;
    var mid := Mark(phase, [w], Completed);
    var y := VarState(0, x.queue[1..], x.version + 1);
    forall a | a in mid && VarOf(p, a) == v &&
      (mid[a] == Queued || (IsWrite(p, a) && mid[a] != Completed)) ensures InQueue(y, a)
    {
      var i :| 0 <= i < |x.queue| && x.queue[i].trigger == a;
      assert y.queue[i - 1].trigger == a;
    }
    assert Readers(p, v, mid) == {} by {
      NoReaders(p, v, phase);
    }
  }

  /** Triggering the reads, or the write, that now stand at the front. */
  lemma ResumeQueue<T>(p: Program<T>, v: nat, x: VarState, mid: map<Ref, Phase>, time: map<Ref, nat>)
    requires PhasesAreRefs(p, mid) && x.queue != [] && AllWaiting(p, v, x.queue[1..], mid, time)
    requires CoverInv(p, v, VarState(0, x.queue[1..], x.version + 1), mid) && OrderInv(p, v, mid, time)
    requires Readers(p, v, mid) == {}
    ensures var r := CompleteWrite(x);
      && (forall a :: a in r.triggered ==> a in mid && VarOf(p, a) == v && mid[a] == Queued)
      && VarInv(p, v, r.state, Mark(mid, r.triggered, Triggered), time)
  {
    var rest := x.queue[1..];
    if ReadChain(rest) == 0 && rest != [] {
      SameCover(p, v, VarState(0, rest, x.version + 1), CompleteWrite(x).state, mid);
      TriggerWrite(p, v, CompleteWrite(x).state, mid, time);
    } else {
      TriggerReads(p, v, VarState(0, rest, x.version + 1), ReadChain(rest), mid, time);
    }
  }

  lemma SameCover<T>(p: Program<T>, v: nat, x: VarState, y: VarState, phase: map<Ref, Phase>)
    requires PhasesAreRefs(p, phase) && CoverInv(p, v, x, phase) && y.queue == x.queue
    ensures CoverInv(p, v, y, phase)
  {
    forall a | InQueue(x, a) ensures InQueue(y, a) {}
  }

  /** A queue of waiting blocks in append order. */
  ghost predicate AllWaiting<T>(p: Program<T>, v: nat, queue: seq<Block>, phase: map<Ref, Phase>, time: map<Ref, nat>)
    requires PhasesAreRefs(p, phase)
  {
    && (forall i :: 0 <= i < |queue| ==>
          queue[i].trigger in phase && VarOf(p, queue[i].trigger) == v
          && queue[i].write == IsWrite(p, queue[i].trigger) && phase[queue[i].trigger] == Queued)
    && (forall i, j :: 0 <= i < j < |queue| ==> Before(time, queue[i].trigger, queue[j].trigger))
  }

  /** Letting the reads at the front of a waiting queue through. */
  lemma TriggerReads<T>(p: Program<T>, v: nat, x: VarState, n: nat, phase: map<Ref, Phase>, time: map<Ref, nat>)
    requires PhasesAreRefs(p, phase) && AllWaiting(p, v, x.queue, phase, time)
    requires n == ReadChain(x.queue) && (n == 0 ==> x.queue == [])
    requires CoverInv(p, v, x, phase) && OrderInv(p, v, phase, time)
    requires Readers(p, v, phase) == {}
    ensures VarInv(p, v, VarState(n, x.queue[n..], x.version), Mark(phase, Triggers(x.queue[..n]), Triggered), time)
  {
    var y := VarState(n, x.queue[n..], x.version);
    var phase' := Mark(phase, Triggers(x.queue[..n]), Triggered);
    ChainIsReaders(p, v, x, n, phase, time);
    ChainInOrder(p, v, x, n, phase, time);
    TailStillWaits(p, v, x, n, phase, time);
    TailCovers(p, v, x, n, phase, time, phase');
  }

  lemma TailCovers<T>(p: Program<T>, v: nat, x: VarState, n: nat, phase: map<Ref, Phase>, time: map<Ref, nat>,
                      phase': map<Ref, Phase>)
    requires PhasesAreRefs(p, phase) && AllWaiting(p, v, x.queue, phase, time) && n <= |x.queue|
    requires CoverInv(p, v, x, phase) && PhasesAreRefs(p, phase') && phase'.Keys == phase.Keys
    requires forall q :: q in phase ==> phase'[q] == phase[q] || phase[q] == Queued
    requires forall i :: 0 <= i < n ==> !x.queue[i].write && phase'[x.queue[i].trigger] == Triggered
    ensures CoverInv(p, v, VarState(n, x.queue[n..], x.version), phase')
  {
    var y := VarState(n, x.queue[n..], x.version);
    forall a | a in phase' && VarOf(p, a) == v && (phase'[a] == Queued || (IsWrite(p, a) && phase'[a] != Completed))
      ensures InQueue(y, a)
    {
      assert InQueue(x, a);
      var i :| 0 <= i < |x.queue| && x.queue[i].trigger == a;
      assert n <= i;
      assert y.queue[i - n].trigger == a;
    }
  }

  lemma TailStillWaits<T>(p: Program<T>, v: nat, x: VarState, n: nat, phase: map<Ref, Phase>, time: map<Ref, nat>)
    requires PhasesAreRefs(p, phase) && AllWaiting(p, v, x.queue, phase, time) && n == ReadChain(x.queue)
    ensures AllWaiting(p, v, x.queue[n..], Mark(phase, Triggers(x.queue[..n]), Triggered), time)
    ensures forall i :: 0 <= i < n ==> Mark(phase, Triggers(x.queue[..n]), Triggered)[x.queue[i].trigger] == Triggered
  {
    var qs := Triggers(x.queue[..n]);
    var tail := x.queue[n..];
    forall i | 0 <= i < n ensures x.queue[i].trigger in qs {
      assert qs[i] == x.queue[i].trigger;
    }
    forall i | 0 <= i < |tail| ensures tail[i].trigger !in qs {
      assert tail[i] == x.queue[i + n];
    }
  }

  lemma ChainIsReaders<T>(p: Program<T>, v: nat, x: VarState, n: nat, phase: map<Ref, Phase>, time: map<Ref, nat>)
    requires PhasesAreRefs(p, phase) && AllWaiting(p, v, x.queue, phase, time)
    requires n == ReadChain(x.queue) && Readers(p, v, phase) == {}
    ensures |Readers(p, v, Mark(phase, Triggers(x.queue[..n]), Triggered))| == n
  {
    var qs := Triggers(x.queue[..n]);
    var phase' := Mark(phase, qs, Triggered);
    assert forall i :: 0 <= i < n ==> qs[i] == x.queue[i].trigger;
    assert Readers(p, v, phase') == set a | a in qs by {
      forall a | a in phase && VarOf(p, a) == v && !IsWrite(p, a) && a !in qs ensures !Holds(phase', a) {
        assert a !in Readers(p, v, phase);
      }
    }
    DistinctSize(qs);
  }

  lemma ChainInOrder<T>(p: Program<T>, v: nat, x: VarState, n: nat, phase: map<Ref, Phase>, time: map<Ref, nat>)
    requires PhasesAreRefs(p, phase) && AllWaiting(p, v, x.queue, phase, time) && n == ReadChain(x.queue)
    requires CoverInv(p, v, x, phase) && OrderInv(p, v, phase, time)
    ensures OrderInv(p, v, Mark(phase, Triggers(x.queue[..n]), Triggered), time)
  {
    var qs := Triggers(x.queue[..n]);
    forall a, b | a in phase && b in qs && Before(time, a, b) && Conflict(p, a, b) ensures phase[a] == Completed {
      var k :| 0 <= k < n && qs[k] == b;
      assert b == x.queue[k].trigger;
      forall i | 0 <= i < |x.queue| ensures x.queue[i].trigger != a {
        if i < n { assert !x.queue[i].write; } else { assert Before(time, b, x.queue[i].trigger); }
      }
      assert !InQueue(x, a);
    }
  }
}
