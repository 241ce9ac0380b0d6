/**
 The record builder over whole runs, and the single-process form it falls back to.
 */
module Im2RecTheorems {
  import opened Im2Rec
  import opened Im2RecProofs

  lemma StepInv(c: Config, s: State, a: Action)
    requires ValidConfig(c) && Inv(c, s) && Enabled(c, s, a)
    ensures Inv(c, Do(c, s, a))
  {
    match a
    case Deal => DealInv(c, s);
    case Close => CloseInv(c, s);
    case SendEnd => SendEndInv(c, s);
    case Get(w) => GetInv(c, s, w);
    case Put(w) => PutInv(c, s, w);
    case Flush(w) => FlushInv(c, s, w);
    case Exit(w) => ExitInv(c, s, w);
    case WriterGet => WriterGetInv(c, s);
    case _ => ParentInv(c, s, a);
  }

  lemma {:induction false} RunInv(c: Config, states: seq<State>, actions: seq<Action>, k: nat)
    requires ValidConfig(c) && IsRun(c, states, actions) && k < |states|
    ensures Inv(c, states[k])
  {
    if k == 0 {
      InitInv(c);
    } else {
      RunInv(c, states, actions, k - 1);
      assert Next(c, states[k - 1], actions[k - 1], states[k]);
      StepInv(c, states[k - 1], actions[k - 1]);
    }
  }

  /** At every moment of every run the file holds the records of a prefix of the list, in list order. */
  lemma WrittenInListOrder(c: Config, states: seq<State>, actions: seq<Action>)
    requires ValidConfig(c) && IsRun(c, states, actions)
    ensures var w := states[|actions|].writer; w.count <= |c.items| && w.log == Expected(c, w.count)
    ensures var w := states[|actions|].writer; exists ks :: AreRecords(c, w.count, ks, w.log)
  {
    RunInv(c, states, actions, |actions|);
    var ks := ExpectedIs(c, states[|actions|].writer.count);
  }

  /** Items are dealt round robin: what a worker still has to do is every so-many-th item of the list. */
  lemma DealtRoundRobin(c: Config, states: seq<State>, actions: seq<Action>, w: nat, k: nat)
    requires ValidConfig(c) && IsRun(c, states, actions) && w < c.workers == |states[|actions|].lanes|
    requires k < |states[|actions|].lanes[w].qin| && states[|actions|].lanes[w].qin[k].Work?
    ensures
      var job := states[|actions|].lanes[w].qin[k];
      job.i < |c.items| && job.i % c.workers == w && job.item == c.items[job.i]
  {
    var s := states[|actions|];
    RunInv(c, states, actions, |actions|);
    assert FaithfulLane(c, s.lanes[w]);
    assert LanePlaces(c.workers, Dealt(c, s.parent), w, s.lanes[w], s.pipe, s.writer);
    JobHasId(s.lanes[w].qin, k);
    assert s.lanes[w].qin[k].i in Ids(s.lanes[w]);
  }

  lemma {:induction false} JobHasId(qin: seq<Job>, k: nat)
    requires k < |qin| && qin[k].Work?
    ensures qin[k].i in JobIds(qin)
  {
    if k > 0 { JobHasId(qin[1..], k - 1); }
  }

  // ----- no run goes on for ever

  function PcWeight(pc: Pc): nat {
    if pc.Busy? then 3 else if pc.Stopping? then 1 else 0
  }

  function LaneWeight(lane: Lane): nat {
    4 * |lane.qin| + PcWeight(lane.pc) + 2 * |lane.outbox|
  }

  function ParentWeight(c: Config, p: Parent): int {
    match p
    case Feeding(i) => 5 * (|c.items| - i) + 6 * c.workers + 5
    case Closing(k) => 5 * (c.workers - k) + c.workers + 4
    case Joining(k) => c.workers - k + 3
    case Sent => 1
    case Done => 0
  }

  function Measure(c: Config, s: State): int {
    ParentWeight(c, s.parent) + Sum(LaneWeight, s.lanes) + |s.pipe|
  }

  predicate ParentInRange(c: Config, p: Parent) {
    match p
    case Feeding(i) => i <= |c.items|
    case Closing(k) => k <= c.workers
    case Joining(k) => k <= c.workers
    case _ => true
  }

  lemma StepFalls(c: Config, s: State, a: Action)
    requires ValidConfig(c) && ParentInRange(c, s.parent) && Enabled(c, s, a)
    ensures Measure(c, Do(c, s, a)) < Measure(c, s)
  {
    match a
    case Deal => LaneFalls(c, s, a, Home(c.workers, s.parent.i));
    case Close => LaneFalls(c, s, a, s.parent.k);
    case Get(w) => LaneFalls(c, s, a, w);
    case Put(w) => LaneFalls(c, s, a, w);
    case Flush(w) => LaneFalls(c, s, a, w);
    case Exit(w) => LaneFalls(c, s, a, w);
    case _ =>
  }

  lemma LaneFalls(c: Config, s: State, a: Action, w: nat)
    requires ValidConfig(c) && Enabled(c, s, a) && w < |s.lanes|
    requires |Do(c, s, a).lanes| == |s.lanes| && Do(c, s, a).lanes == s.lanes[w := Do(c, s, a).lanes[w]]
    requires
      var s' := Do(c, s, a);
      ParentWeight(c, s'.parent) + LaneWeight(s'.lanes[w]) + |s'.pipe| <
        ParentWeight(c, s.parent) + LaneWeight(s.lanes[w]) + |s.pipe|
    ensures Measure(c, Do(c, s, a)) < Measure(c, s)
  {
    SumUpdate(LaneWeight, s.lanes, w, Do(c, s, a).lanes[w]);
  }

  lemma RunInRange(c: Config, states: seq<State>, actions: seq<Action>, k: nat)
    requires ValidConfig(c) && IsRun(c, states, actions) && k < |states|
    ensures ParentInRange(c, states[k].parent)
  {
    RunInv(c, states, actions, k);
  }

  lemma {:induction false} RunMeasure(c: Config, states: seq<State>, actions: seq<Action>, k: nat)
    requires ValidConfig(c) && IsRun(c, states, actions) && k < |states|
    ensures 0 <= Measure(c, states[k]) && k + Measure(c, states[k]) <= 5 * |c.items| + 6 * c.workers + 5
  {
    RunInRange(c, states, actions, k);
    if k == 0 {
      SumZero(LaneWeight, states[0].lanes);
    } else {
      RunMeasure(c, states, actions, k - 1);
      RunInRange(c, states, actions, k - 1);
      assert Next(c, states[k - 1], actions[k - 1], states[k]);
      StepFalls(c, states[k - 1], actions[k - 1]);
    }
  }

  lemma RunsAreBounded(c: Config, states: seq<State>, actions: seq<Action>)
    requires ValidConfig(c) && IsRun(c, states, actions)
    ensures |actions| <= 5 * |c.items| + 6 * c.workers + 5
  {
    RunMeasure(c, states, actions, |actions|);
  }

  // ----- no run deadlocks

  /** A worker that has something to do can do it when the result queue is empty. */
  lemma LaneStep(c: Config, s: State, w: nat) returns (a: Action)
    requires ValidConfig(c) && Inv(c, s) && w < c.workers && s.used == 0 && s.lanes[w].outbox == []
    requires !s.lanes[w].pc.Exited? && (s.lanes[w].pc.Idle? ==> s.lanes[w].qin != [])
    ensures Enabled(c, s, a)
  {
    var lane := s.lanes[w];
    assert FaithfulLane(c, lane);
    match lane.pc
    case Idle => a := Get(w);
    case Busy(_, _) => a := Put(w);
    case Stopping => a := Exit(w);
  }

  lemma SomeStep(c: Config, s: State) returns (a: Action)
    requires ValidConfig(c) && Inv(c, s) && !s.parent.Done?
    ensures Enabled(c, s, a)
  {
    if s.pipe != [] {
      a := WriterGet;
    } else if w :| 0 <= w < c.workers && s.lanes[w].outbox != [] {
      a := Flush(w);
    } else {
      SumZero(Load, s.lanes);
      if w :| 0 <= w < c.workers && !s.lanes[w].pc.Exited? && (s.lanes[w].pc.Idle? ==> s.lanes[w].qin != []) {
        a := LaneStep(c, s, w);
      } else {
        a := ParentStep(c, s);
      }
    }
  }

  /** When nothing is under way the parent can go on. */
  lemma ParentStep(c: Config, s: State) returns (a: Action)
    requires ValidConfig(c) && Inv(c, s) && !s.parent.Done? && s.pipe == [] && s.used == 0
    requires forall w :: 0 <= w < c.workers ==> s.lanes[w].pc.Exited? || (s.lanes[w].pc.Idle? && s.lanes[w].qin == [])
    ensures Enabled(c, s, a)
  {
    match s.parent
    case Feeding(i) => a := if i < |c.items| then Deal else BeginClosing;
    case Closing(k) => a := if k < c.workers then Close else BeginJoining;
    case Joining(k) =>
      if k < c.workers { assert LaneInv(s.parent, k, s.lanes[k]); }
      a := if k < c.workers then Join else SendEnd;
    case Sent => a := JoinWriter;
  }

  /** Every run goes on until the parent is done; then each item's record, if it has one, has been written,
      once and in list order, and nothing is left in the buffer or in any queue. */
  lemma RunsEndWithTheWholeList(c: Config, states: seq<State>, actions: seq<Action>)
    requires ValidConfig(c) && IsRun(c, states, actions)
    requires forall a :: !Enabled(c, states[|actions|], a)
    ensures var s := states[|actions|];
      && s.parent.Done?
      && s.writer == Writer(|c.items|, map[], Expected(c, |c.items|), false)
      && (exists ks :: AreRecords(c, |c.items|, ks, s.writer.log))
      && s.pipe == [] && s.used == 0
      && forall w :: 0 <= w < |s.lanes| ==> s.lanes[w] == Lane([], Exited, [])
  {
    var ks := ExpectedIs(c, |c.items|);
    var s := states[|actions|];
    RunInv(c, states, actions, |actions|);
    if !s.parent.Done? {
      var a := SomeStep(c, s);
    }
    DoneMeansWritten(c, s);
  }

  lemma DoneMeansWritten(c: Config, s: State)
    requires ValidConfig(c) && Inv(c, s) && s.parent.Done?
    ensures s.writer == Writer(|c.items|, map[], Expected(c, |c.items|), false)
    ensures s.pipe == [] && s.used == 0
    ensures forall w :: 0 <= w < |s.lanes| ==> s.lanes[w] == Lane([], Exited, [])
  {
    LanesAreDone(c, s);
    SumZero(Load, s.lanes);
    if s.writer.count < |c.items| { EveryItemReceived(c, s, s.writer.count); }
    BufferIsEmpty(c, s.writer);
  }

  lemma LanesAreDone(c: Config, s: State)
    requires FlowInv(c, s) && s.parent.Done?
    ensures forall w :: 0 <= w < |s.lanes| ==> s.lanes[w] == Lane([], Exited, [])
    ensures s.pipe == [] && !s.writer.more
  {
    forall w | 0 <= w < |s.lanes| ensures s.lanes[w] == Lane([], Exited, []) {
      assert LaneInv(s.parent, w, s.lanes[w]);
    }
  }

  lemma BufferIsEmpty(c: Config, w: Writer)
    requires ValidConfig(c) && WriterInv(c, |c.items|, w) && w.count == |c.items|
    ensures w.buf == map[]
  {
    assert w.buf.Keys == {};
  }

  lemma EveryItemReceived(c: Config, s: State, i: nat)
    requires ValidConfig(c) && |s.lanes| == c.workers && PlaceInv(c, s) && s.parent.Done? && s.pipe == []
    requires forall w :: 0 <= w < c.workers ==> s.lanes[w] == Lane([], Exited, [])
    requires i < |c.items|
    ensures Received(s.writer, i)
  {
    assert Ids(s.lanes[Home(c.workers, i)]) == [];
  }

  // ----- the single-process form

  /** Item i failed and none before it did. */
  predicate FirstFailure(c: Config, i: nat)
    requires |c.codecs| == |c.items|
  {
    i < |c.items| && !Encodes(c.codecs[i]) && forall j :: 0 <= j < i ==> Encodes(c.codecs[j])
  }

  /** The file holds one record for each of the first k items, under the item's number. */
  predicate WroteAll(c: Config, k: nat, log: seq<Record>)
    requires |c.codecs| == |c.items| && k <= |c.items|
  {
    |log| == k &&
    forall j :: 0 <= j < k ==> Encodes(c.codecs[j]) && log[j] == Record(c.items[j].id, Encoded(c.codecs[j]))
  }

  /** The loop used when only one process is asked for. Writing the missing record of an item that failed raises
      an exception and ends the program. */
  method SingleProcess(c: Config) returns (log: seq<Record>, crashed: bool)
    requires |c.codecs| == |c.items|
    ensures crashed <==> exists i :: 0 <= i < |c.items| && !Encodes(c.codecs[i])
    ensures !crashed ==> log == Expected(c, |c.items|) && WroteAll(c, |c.items|, log)
    ensures crashed ==> exists i :: FirstFailure(c, i) && log == Expected(c, i) && WroteAll(c, i, log)
  {
    log, crashed := [], false;
    var q: seq<Message> := [];
    for i := 0 to |c.items|
      invariant q == [] && log == Expected(c, i) && WroteAll(c, i, log)
    {
      q := ImageEncode(c.codecs[i], i, c.items[i], q);
      if q == [] {
        continue;
      }
      var m := q[0];
      q := q[1..];
      if m.s.None? {
        crashed := true;
        assert FirstFailure(c, i);
        return;
      }
      log := log + [Record(c.items[i].id, m.s.value)];
    }
  }
}
