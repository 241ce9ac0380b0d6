/**
 One engine variable: the reader/writer queue that src/engine/threaded_engine.cc keeps per variable.
 A variable grants any number of concurrent reads, or one write. Requests that cannot be granted
 at once wait in a queue whose first block is always the next write.
 */
module EngineVar {

  /** The dep-th dependency of the op-th operation that was pushed. */
  datatype Ref = Ref(op: nat, dep: nat)

  /** A VersionedVarBlock: the dependency it will trigger, and whether that one is a write. */
  datatype Block = Block(trigger: Ref, write: bool)

  /** Marks num_pending_reads_ while a write holds the variable. */
  const WRITE_TRIGGERED := -1

  /** The fields of a ThreadedVar. The queue runs from pending_write_ to head_; pending_write_ is
      null exactly when it is empty. */
  datatype VarState = VarState(pendingReads: int, queue: seq<Block>, version: nat)

  /** What the lock scope of a call leaves behind: the variable and the blocks it has triggered. */
  datatype Outcome = Outcome(state: VarState, triggered: seq<Ref>)

  function AppendRead(x: VarState, q: Ref): Outcome {
    if x.queue == []
    then Outcome(x.(pendingReads := x.pendingReads + 1), [q])
    else Outcome(x.(queue := x.queue + [Block(q, false)]), [])
  }

  function AppendWrite(x: VarState, q: Ref): Outcome {
    if x.queue == [] && x.pendingReads == 0
    then Outcome(x.(pendingReads := WRITE_TRIGGERED, queue := [Block(q, true)]), [q])
    else Outcome(x.(queue := x.queue + [Block(q, true)]), [])
  }

  function CompleteRead(x: VarState): Outcome {
    if x.pendingReads == 1 && x.queue != []
    then Outcome(x.(pendingReads := WRITE_TRIGGERED), [x.queue[0].trigger])
    else Outcome(x.(pendingReads := x.pendingReads - 1), [])
  }

  /** How many reads stand at the front of a queue. */
  function ReadChain(queue: seq<Block>): (n: nat)
    ensures n <= |queue|
    ensures forall i :: 0 <= i < n ==> !queue[i].write
    ensures n < |queue| ==> queue[n].write
  {
    if queue == [] || queue[0].write then 0 else 1 + ReadChain(queue[1..])
  }

  function Triggers(queue: seq<Block>): (qs: seq<Ref>)
    ensures |qs| == |queue|
    ensures forall i :: 0 <= i < |queue| ==> qs[i] == queue[i].trigger
  {
    seq(|queue|, i requires 0 <= i < |queue| => queue[i].trigger)
  }

  function CompleteWrite(x: VarState): Outcome
    requires x.queue != []
  {
    var rest := x.queue[1..];
    var n := ReadChain(rest);
    if n == 0 && rest != []
    then Outcome(VarState(WRITE_TRIGGERED, rest, x.version + 1), [rest[0].trigger])
    else Outcome(VarState(n, rest[n..], x.version + 1), Triggers(rest[..n]))
  }

  /** The chain behind the front write, one read further. */
  lemma ChainStep(queue: seq<Block>, k: nat)
    requires 1 <= k < |queue| && !queue[k].write
    ensures ReadChain(queue[k..]) == 1 + ReadChain(queue[k + 1..])
    ensures Triggers(queue[1..][..k]) == Triggers(queue[1..][..k - 1]) + [queue[k].trigger]
  {
    assert queue[k..][1..] == queue[k + 1..];
  }

  /** What completing a write does once its read chain has been found to end before k. */
  lemma ChainEnd(x: VarState, k: nat)
    requires 1 <= k <= |x.queue| && (k < |x.queue| ==> x.queue[k].write)
    requires ReadChain(x.queue[1..]) == k - 1 + ReadChain(x.queue[k..])
    ensures CompleteWrite(x) ==
      if k == 1 && k < |x.queue|
      then Outcome(VarState(WRITE_TRIGGERED, x.queue[k..], x.version + 1), [x.queue[k].trigger])
      else Outcome(VarState(k - 1, x.queue[k..], x.version + 1), Triggers(x.queue[1..][..k - 1]))
  {
    assert ReadChain(x.queue[k..]) == 0 && x.queue[1..][k - 1..] == x.queue[k..];
  }

  /** ThreadedVar itself, each method's lock scope updating the fields in place. */
  class ThreadedVar {
    var numPendingReads: int
    var queue: seq<Block>
    var version: nat

    function State(): (x: VarState)
      reads this
    {
      VarState(numPendingReads, queue, version)
    }

    constructor ()
      ensures State() == VarState(0, [], 0)
    {
      numPendingReads, queue, version := 0, [], 0;
    }

    method AppendReadDependency(q: Ref) returns (granted: bool)
      modifies this
      ensures Outcome(State(), if granted then [q] else []) == AppendRead(old(State()), q)
    {
      granted := queue == [];
      if granted {
        numPendingReads := numPendingReads + 1;
      } else {
        queue := queue + [Block(q, false)];
      }
    }

    method AppendWriteDependency(q: Ref) returns (granted: bool)
      modifies this
      ensures Outcome(State(), if granted then [q] else []) == AppendWrite(old(State()), q)
    {
      granted := false;
      if queue == [] {
        if numPendingReads == 0 {
          granted := true;
          numPendingReads := WRITE_TRIGGERED;
        }
      }
      queue := queue + [Block(q, true)];
    }

    method CompleteReadDependency() returns (triggered: seq<Ref>)
      modifies this
      ensures Outcome(State(), triggered) == CompleteRead(old(State()))
    {
      triggered := [];
      numPendingReads := numPendingReads - 1;
      if numPendingReads == 0 && queue != [] {
        triggered := [queue[0].trigger];
        numPendingReads := WRITE_TRIGGERED;
      }
    }

    method CompleteWriteDependency() returns (triggered: seq<Ref>)
      requires queue != []
      modifies this
      ensures Outcome(State(), triggered) == CompleteWrite(old(State()))
    {
      version := version + 1;
      ghost var rest := queue[1..];
      var endOfReadChain := 1;
      numPendingReads := 0;
      triggered := [];
      while endOfReadChain < |queue| && !queue[endOfReadChain].write
        invariant 1 <= endOfReadChain <= |queue|
        invariant numPendingReads == endOfReadChain - 1
        invariant queue == old(queue) && version == old(version) + 1
        invariant triggered == Triggers(rest[..endOfReadChain - 1])
        invariant ReadChain(rest) == endOfReadChain - 1 + ReadChain(queue[endOfReadChain..])
      {
        ChainStep(queue, endOfReadChain);
        triggered := triggered + [queue[endOfReadChain].trigger];
        numPendingReads := numPendingReads + 1;
        endOfReadChain := endOfReadChain + 1;
      }
      ChainEnd(old(State()), endOfReadChain);
      queue := queue[endOfReadChain..];
      if queue != [] && numPendingReads == 0 {
        numPendingReads := WRITE_TRIGGERED;
        triggered := triggered + [queue[0].trigger];
      }
    }
  }
}
