/**
 The invariant of the record builder and its preservation by every action: an item is in one place at a time, what has
 been written is the records of a prefix of the list, in list order and each once, and what comes later waits in the
 buffer, a queue or a lane.
 */
module Im2RecProofs {
  import opened Im2Rec
  import opened Sequences

  // ----- where an item is

  function JobIds(qin: seq<Job>): seq<nat> {
    if qin == [] then [] else (if qin[0].Work? then [qin[0].i] else []) + JobIds(qin[1..])
  }

  lemma {:induction false} JobIdsAppend(qin: seq<Job>, j: Job)
    ensures JobIds(qin + [j]) == JobIds(qin) + if j.Work? then [j.i] else []
  {
    if qin == [] {
      assert qin + [j] == [j];
    } else {
      JobIdsAppend(qin[1..], j);
      assert (qin + [j])[1..] == qin[1..] + [j];
    }
  }

  function MessageIds(ms: seq<Message>): seq<nat> {
    seq(|ms|, k requires 0 <= k < |ms| => ms[k].i)
  }

  function PcIds(pc: Pc): seq<nat> {
    if pc.Busy? then [pc.i] else []
  }

  /** The items a worker is in charge of, oldest first. */
  function Ids(lane: Lane): seq<nat> {
    MessageIds(lane.outbox) + PcIds(lane.pc) + JobIds(lane.qin)
  }

  predicate InPipe(pipe: seq<Out>, i: nat) {
    exists k :: 0 <= k < |pipe| && pipe[k].Data? && pipe[k].m.i == i
  }

  predicate Received(w: Writer, i: nat) {
    i < w.count || i in w.buf
  }

  function Dealt(c: Config, p: Parent): nat {
    if p.Feeding? then p.i else |c.items|
  }

  // ----- the invariant

  predicate Faithful(c: Config, m: Message)
    requires |c.codecs| == |c.items|
  {
    m.i < |c.items| && m == Message(m.i, Outcome(c.codecs[m.i]), c.items[m.i])
  }

  /** Everything under way carries its own item and its own record. */
  predicate FaithfulLane(c: Config, lane: Lane)
    requires |c.codecs| == |c.items|
  {
    && (forall k :: 0 <= k < |lane.qin| && lane.qin[k].Work? ==>
          lane.qin[k].i < |c.items| && lane.qin[k].item == c.items[lane.qin[k].i])
    && (lane.pc.Busy? ==> lane.pc.i < |c.items| && lane.pc.item == c.items[lane.pc.i])
    && (forall k :: 0 <= k < |lane.outbox| ==> Faithful(c, lane.outbox[k]))
  }

  /** A worker's queue thread has let go of item i. */
  predicate Gone(pipe: seq<Out>, w: Writer, i: nat) {
    InPipe(pipe, i) || Received(w, i)
  }

  /** What a worker has is its own, once, and has not left it. */
  ghost predicate LanePlaces(workers: nat, n: nat, w: nat, lane: Lane, pipe: seq<Out>, writer: Writer)
    requires workers >= 1
  {
    Distinct(Ids(lane)) && forall i :: i in Ids(lane) ==> i < n && Home(workers, i) == w && !Gone(pipe, writer, i)
  }

  /** What is in the pipe is there once, and has not reached the writer. */
  ghost predicate PipePlaces(n: nat, pipe: seq<Out>, writer: Writer) {
    && (forall k :: 0 <= k < |pipe| && pipe[k].Data? ==> pipe[k].m.i < n && !Received(writer, pipe[k].m.i))
    && (forall j, k :: 0 <= j < k < |pipe| && pipe[j].Data? && pipe[k].Data? ==> pipe[j].m.i != pipe[k].m.i)
  }

  /** Each item that has been dealt is in one place, and in one only. */
  ghost predicate PlaceInv(c: Config, s: State)
    requires ValidConfig(c) && |s.lanes| == c.workers
  {
    var n := Dealt(c, s.parent);
    && n <= |c.items|
    && (forall w :: 0 <= w < c.workers ==> LanePlaces(c.workers, n, w, s.lanes[w], s.pipe, s.writer))
    && PipePlaces(n, s.pipe, s.writer)
    && (forall i :: 0 <= i < n ==> Gone(s.pipe, s.writer, i) || i in Ids(s.lanes[Home(c.workers, i)]))
  }

  ghost predicate WriterInv(c: Config, n: nat, w: Writer)
    requires ValidConfig(c)
  {
    && w.count <= n <= |c.items|
    && w.log == Expected(c, w.count)
    && w.count !in w.buf
    && (forall i :: i in w.buf ==> w.count < i < n && w.buf[i].i == i && Faithful(c, w.buf[i]))
  }

  /** Whether the parent has put None into queue w. */
  predicate Closed(p: Parent, w: nat) {
    !p.Feeding? && (p.Closing? ==> w < p.k)
  }

  predicate Joined(p: Parent, w: nat) {
    p.Sent? || p.Done? || (p.Joining? && w < p.k)
  }

  /** None is the last thing in an input queue, and a worker stops on it. */
  predicate LaneInv(p: Parent, w: nat, lane: Lane) {
    var n := |lane.qin|;
    && (forall k :: 0 <= k < n - 1 ==> lane.qin[k].Work?)
    && (if lane.pc.Stopping? || lane.pc.Exited? then n == 0 && Closed(p, w)
        else if Closed(p, w) then n > 0 && lane.qin[n - 1].Stop?
        else n > 0 ==> lane.qin[n - 1].Work?)
    && (lane.pc.Exited? ==> lane.outbox == [])
    && (Joined(p, w) ==> lane.pc.Exited?)
  }

  /** The parent's None is the last thing in the pipe. */
  predicate PipeInv(s: State) {
    var n := |s.pipe|;
    && (forall k :: 0 <= k < n - 1 ==> s.pipe[k].Data?)
    && (if s.parent.Sent? && s.writer.more then n > 0 && s.pipe[n - 1].End?
        else if s.parent.Sent? || s.parent.Done? then n == 0 && !s.writer.more
        else s.writer.more && (n > 0 ==> s.pipe[n - 1].Data?))
  }

  function Load(lane: Lane): nat { |lane.outbox| }

  function Sum(f: Lane -> nat, lanes: seq<Lane>): nat {
    if lanes == [] then 0 else Sum(f, lanes[..|lanes| - 1]) + f(lanes[|lanes| - 1])
  }

  lemma {:induction false} SumUpdate(f: Lane -> nat, lanes: seq<Lane>, w: nat, lane: Lane)
    requires w < |lanes|
    ensures Sum(f, lanes[w := lane]) == Sum(f, lanes) - f(lanes[w]) + f(lane)
    ensures Sum(f, lanes) >= f(lanes[w])
  {
    var n := |lanes| - 1;
    if w < n {
      SumUpdate(f, lanes[..n], w, lane);
      assert lanes[w := lane][..n] == lanes[..n][w := lane];
    } else {
      assert lanes[w := lane][..n] == lanes[..n];
    }
  }

  lemma {:induction false} SumZero(f: Lane -> nat, lanes: seq<Lane>)
    requires forall w :: 0 <= w < |lanes| ==> f(lanes[w]) == 0
    ensures Sum(f, lanes) == 0
  {
    if lanes != [] { SumZero(f, lanes[..|lanes| - 1]); }
  }

  ghost predicate ContentInv(c: Config, s: State)
    requires ValidConfig(c)
  {
    && (forall w :: 0 <= w < |s.lanes| ==> FaithfulLane(c, s.lanes[w]))
    && (forall k :: 0 <= k < |s.pipe| && s.pipe[k].Data? ==> Faithful(c, s.pipe[k].m))
    && WriterInv(c, Dealt(c, s.parent), s.writer)
  }

  ghost predicate FlowInv(c: Config, s: State) {
    && (forall w :: 0 <= w < |s.lanes| ==> LaneInv(s.parent, w, s.lanes[w]))
    && PipeInv(s)
    && (s.parent.Joining? ==> s.parent.k <= c.workers)
    && (s.parent.Closing? ==> s.parent.k <= c.workers)
  }

  ghost predicate LoadInv(s: State) {
    s.used == |s.pipe| + Sum(Load, s.lanes)
  }

  ghost predicate Inv(c: Config, s: State)
    requires ValidConfig(c)
  {
    |s.lanes| == c.workers && PlaceInv(c, s) && ContentInv(c, s) && FlowInv(c, s) && LoadInv(s)
  }

  lemma InitInv(c: Config)
    requires ValidConfig(c)
    ensures Inv(c, Init(c))
  {
    SumZero(Load, Init(c).lanes);
    InitPlaces(c);
  }

  lemma InitPlaces(c: Config)
    requires ValidConfig(c)
    ensures PlaceInv(c, Init(c))
  {
    var s := Init(c);
    forall w | 0 <= w < c.workers ensures LanePlaces(c.workers, 0, w, s.lanes[w], s.pipe, s.writer) {
      assert Ids(s.lanes[w]) == [];
    }
  }

  // ----- the writer

  /** While the writer drains: the next item may be in the buffer. */
  ghost predicate BufferInv(c: Config, n: nat, w: Writer)
    requires ValidConfig(c)
  {
    && w.count <= n <= |c.items| && w.log == Expected(c, w.count)
    && forall i :: i in w.buf ==> w.count <= i < n && w.buf[i].i == i && Faithful(c, w.buf[i])
  }

  lemma {:induction false} DrainExpected(c: Config, n: nat, w: Writer)
    requires ValidConfig(c) && BufferInv(c, n, w)
    ensures WriterInv(c, n, Drain(w))
    decreases |w.buf|
  {
    if w.count in w.buf {
      RemoveShrinks(w.buf, w.count);
      WriteNextKeeps(c, n, w);
      DrainExpected(c, n, WriteNext(w));
    }
  }

  lemma WriteNextKeeps(c: Config, n: nat, w: Writer)
    requires ValidConfig(c) && BufferInv(c, n, w) && w.count in w.buf
    ensures BufferInv(c, n, WriteNext(w))
  {
    var m := w.buf[w.count];
    assert m == Message(w.count, Outcome(c.codecs[w.count]), c.items[w.count]);
    assert w.log + Records(m) == Expected(c, w.count + 1);
  }

  /** Draining moves what has arrived from the buffer to the file. */
  lemma {:induction false} DrainKeeps(w: Writer)
    ensures Drain(w).more == w.more && forall i :: Received(Drain(w), i) <==> Received(w, i)
    decreases |w.buf|
  {
    if w.count in w.buf {
      RemoveShrinks(w.buf, w.count);
      var w' := WriteNext(w);
      DrainKeeps(w');
      assert forall i :: Received(w', i) <==> Received(w, i);
    }
  }

  /** Taking the front of the pipe: the item moves from the pipe to the writer, and nothing else moves. */
  lemma ReceivePlaces(c: Config, n: nat, pipe: seq<Out>, w: Writer)
    requires ValidConfig(c) && WriterInv(c, n, w) && pipe != [] && PipePlaces(n, pipe, w)
    requires pipe[0].Data? ==> Faithful(c, pipe[0].m)
    ensures var w' := Receive(w, pipe[0]);
      && WriterInv(c, n, w') && w'.more == (w.more && pipe[0].Data?)
      && PipePlaces(n, pipe[1..], w')
      && (forall i :: Gone(pipe[1..], w', i) <==> Gone(pipe, w, i))
  {
    var w' := Receive(w, pipe[0]);
    match pipe[0] {
      case Data(m) =>
        DrainExpected(c, n, w.(buf := w.buf[m.i := m]));
        DrainKeeps(w.(buf := w.buf[m.i := m]));
      case End =>
        DrainExpected(c, n, w.(more := false));
        DrainKeeps(w.(more := false));
    }
    forall i ensures Received(w', i) <==> Received(w, i) || (pipe[0].Data? && pipe[0].m.i == i) {}
    InPipeTail(pipe);
  }

  lemma InPipeTail(pipe: seq<Out>)
    requires pipe != []
    ensures forall i :: InPipe(pipe, i) <==> InPipe(pipe[1..], i) || (pipe[0].Data? && pipe[0].m.i == i)
  {
    var rest := pipe[1..];
    assert forall k :: 0 <= k < |rest| ==> rest[k] == pipe[k + 1];
    forall i ensures InPipe(pipe, i) <==> InPipe(rest, i) || (pipe[0].Data? && pipe[0].m.i == i) {
      if InPipe(pipe, i) {
        var k :| 0 <= k < |pipe| && pipe[k].Data? && pipe[k].m.i == i;
        assert k > 0 ==> rest[k - 1] == pipe[k];
      }
      if InPipe(rest, i) {
        var k :| 0 <= k < |rest| && rest[k].Data? && rest[k].m.i == i;
        assert pipe[k + 1].m.i == i;
      }
    }
  }

  lemma InPipeAppend(pipe: seq<Out>, o: Out)
    ensures forall i :: InPipe(pipe + [o], i) <==> InPipe(pipe, i) || (o.Data? && o.m.i == i)
  {
    var more := pipe + [o];
    forall i ensures InPipe(more, i) <==> InPipe(pipe, i) || (o.Data? && o.m.i == i) {
      if InPipe(pipe, i) {
        var k :| 0 <= k < |pipe| && pipe[k].Data? && pipe[k].m.i == i;
        assert more[k] == pipe[k];
      }
      assert more[|pipe|] == o;
    }
  }

  // ----- each action keeps the invariant

  /** The places are those of the items: any step that moves no item keeps them. */
  lemma PlaceFrame(c: Config, s: State, s': State)
    requires ValidConfig(c) && |s.lanes| == |s'.lanes| == c.workers && PlaceInv(c, s)
    requires Dealt(c, s'.parent) == Dealt(c, s.parent)
    requires forall w :: 0 <= w < c.workers ==> Ids(s'.lanes[w]) == Ids(s.lanes[w])
    requires PipePlaces(Dealt(c, s.parent), s'.pipe, s'.writer)
    requires forall i :: Gone(s'.pipe, s'.writer, i) <==> Gone(s.pipe, s.writer, i)
    ensures PlaceInv(c, s')
  {
    forall w | 0 <= w < c.workers
      ensures LanePlaces(c.workers, Dealt(c, s.parent), w, s'.lanes[w], s'.pipe, s'.writer)
    {
      assert LanePlaces(c.workers, Dealt(c, s.parent), w, s.lanes[w], s.pipe, s.writer);
    }
  }

  lemma WriterGetInv(c: Config, s: State)
    requires ValidConfig(c) && Inv(c, s) && Enabled(c, s, WriterGet)
    ensures Inv(c, Do(c, s, WriterGet))
  {
    var s' := Do(c, s, WriterGet);
    ReceivePlaces(c, Dealt(c, s.parent), s.pipe, s.writer);
    assert forall k :: 0 <= k < |s'.pipe| ==> s'.pipe[k] == s.pipe[k + 1];
    PlaceFrame(c, s, s');
  }

  /** The parent moves on and no queue changes. */
  lemma ParentInv(c: Config, s: State, a: Action)
    requires ValidConfig(c) && Inv(c, s) && Enabled(c, s, a)
    requires a.BeginClosing? || a.BeginJoining? || a.Join? || a.JoinWriter?
    ensures Inv(c, Do(c, s, a))
  {
    PlaceFrame(c, s, Do(c, s, a));
    ParentFlow(c, s, a);
  }

  lemma ParentFlow(c: Config, s: State, a: Action)
    requires ValidConfig(c) && FlowInv(c, s) && Enabled(c, s, a)
    requires a.BeginClosing? || a.BeginJoining? || a.Join? || a.JoinWriter?
    ensures FlowInv(c, Do(c, s, a))
  {
    var s' := Do(c, s, a);
    forall w | 0 <= w < |s'.lanes| ensures LaneInv(s'.parent, w, s'.lanes[w]) {
      assert LaneInv(s.parent, w, s.lanes[w]);
      assert Closed(s'.parent, w) == Closed(s.parent, w);
      assert Joined(s'.parent, w) == (Joined(s.parent, w) || (a.Join? && w == s.parent.k));
    }
  }

  lemma SendEndInv(c: Config, s: State)
    requires ValidConfig(c) && Inv(c, s) && Enabled(c, s, SendEnd)
    ensures Inv(c, Do(c, s, SendEnd))
  {
    SendEndPlaces(c, s);
    SendEndFlow(c, s);
  }

  lemma SendEndPlaces(c: Config, s: State)
    requires ValidConfig(c) && |s.lanes| == c.workers && PlaceInv(c, s) && Enabled(c, s, SendEnd)
    ensures PlaceInv(c, Do(c, s, SendEnd))
  {
    InPipeAppend(s.pipe, End);
    PlaceFrame(c, s, Do(c, s, SendEnd));
  }

  lemma SendEndFlow(c: Config, s: State)
    requires ValidConfig(c) && FlowInv(c, s) && Enabled(c, s, SendEnd)
    ensures FlowInv(c, Do(c, s, SendEnd))
  {
    var s' := Do(c, s, SendEnd);
    forall w | 0 <= w < |s'.lanes| ensures LaneInv(s'.parent, w, s'.lanes[w]) {
      assert LaneInv(s.parent, w, s.lanes[w]);
      assert Closed(s'.parent, w) == Closed(s.parent, w) && Joined(s.parent, w);
    }
  }

  /** A step on one worker's queues that leaves the items it has, and all other processes, alone. */
  lemma LaneStepInv(c: Config, s: State, s': State, w: nat)
    requires ValidConfig(c) && Inv(c, s) && w < c.workers && |s'.lanes| == c.workers
    requires s' == s.(lanes := s.lanes[w := s'.lanes[w]], used := s'.used, parent := s'.parent)
    requires Dealt(c, s'.parent) == Dealt(c, s.parent)
    requires Ids(s'.lanes[w]) == Ids(s.lanes[w])
    requires FaithfulLane(c, s'.lanes[w]) && LaneInv(s'.parent, w, s'.lanes[w])
    requires forall u :: 0 <= u < c.workers && u != w ==> LaneInv(s'.parent, u, s.lanes[u])
    requires FlowInv(c, s.(parent := s'.parent, lanes := []))
    requires s'.used - |s'.lanes[w].outbox| == s.used - |s.lanes[w].outbox|
    ensures Inv(c, s')
  {
    SumUpdate(Load, s.lanes, w, s'.lanes[w]);
    PlaceFrame(c, s, s');
    LaneStepFlow(c, s, s', w);
  }

  lemma LaneStepFlow(c: Config, s: State, s': State, w: nat)
    requires |s.lanes| == |s'.lanes| == c.workers && w < c.workers
    requires s' == s.(lanes := s.lanes[w := s'.lanes[w]], used := s'.used, parent := s'.parent)
    requires LaneInv(s'.parent, w, s'.lanes[w])
    requires forall u :: 0 <= u < c.workers && u != w ==> LaneInv(s'.parent, u, s.lanes[u])
    requires FlowInv(c, s.(parent := s'.parent, lanes := []))
    ensures FlowInv(c, s')
  {
    assert PipeInv(s.(parent := s'.parent, lanes := []));
  }

  lemma WorkerStepInv(c: Config, s: State, s': State, w: nat)
    requires ValidConfig(c) && Inv(c, s) && w < c.workers && |s'.lanes| == c.workers
    requires s' == s.(lanes := s.lanes[w := s'.lanes[w]], used := s'.used)
    requires Ids(s'.lanes[w]) == Ids(s.lanes[w])
    requires FaithfulLane(c, s'.lanes[w]) && LaneInv(s.parent, w, s'.lanes[w])
    requires s'.used - |s'.lanes[w].outbox| == s.used - |s.lanes[w].outbox|
    ensures Inv(c, s')
  {
    assert FlowInv(c, s.(lanes := []));
    LaneStepInv(c, s, s', w);
  }

  lemma GetInv(c: Config, s: State, w: nat)
    requires ValidConfig(c) && Inv(c, s) && Enabled(c, s, Get(w))
    ensures Inv(c, Do(c, s, Get(w)))
  {
    var s' := Do(c, s, Get(w));
    assert FaithfulLane(c, s.lanes[w]) && LaneInv(s.parent, w, s.lanes[w]);
    GetLane(c, s.parent, w, s.lanes[w], s'.lanes[w]);
    WorkerStepInv(c, s, s', w);
  }

  lemma GetLane(c: Config, p: Parent, w: nat, lane: Lane, lane': Lane)
    requires |c.codecs| == |c.items| && FaithfulLane(c, lane) && LaneInv(p, w, lane) && lane.pc.Idle? && lane.qin != []
    requires lane' == lane.(qin := lane.qin[1..], pc := lane'.pc)
    requires lane'.pc == if lane.qin[0].Work? then Busy(lane.qin[0].i, lane.qin[0].item) else Stopping
    ensures Ids(lane') == Ids(lane) && FaithfulLane(c, lane') && LaneInv(p, w, lane')
  {
    assert forall k :: 0 <= k < |lane'.qin| ==> lane'.qin[k] == lane.qin[k + 1];
    assert JobIds(lane.qin) == PcIds(lane'.pc) + JobIds(lane'.qin);
  }

  lemma PutInv(c: Config, s: State, w: nat)
    requires ValidConfig(c) && Inv(c, s) && Enabled(c, s, Put(w))
    ensures Inv(c, Do(c, s, Put(w)))
  {
    var s' := Do(c, s, Put(w));
    assert FaithfulLane(c, s.lanes[w]) && LaneInv(s.parent, w, s.lanes[w]);
    PutLane(c, s.parent, w, s.lanes[w], s'.lanes[w]);
    WorkerStepInv(c, s, s', w);
  }

  lemma PutLane(c: Config, p: Parent, w: nat, lane: Lane, lane': Lane)
    requires |c.codecs| == |c.items| && FaithfulLane(c, lane) && LaneInv(p, w, lane) && lane.pc.Busy?
    requires lane' == lane.(pc := Idle,
      outbox := lane.outbox + [Message(lane.pc.i, Outcome(c.codecs[lane.pc.i]), lane.pc.item)])
    ensures Ids(lane') == Ids(lane) && FaithfulLane(c, lane') && LaneInv(p, w, lane')
  {
    assert MessageIds(lane'.outbox) == MessageIds(lane.outbox) + PcIds(lane.pc);
  }

  lemma ExitInv(c: Config, s: State, w: nat)
    requires ValidConfig(c) && Inv(c, s) && Enabled(c, s, Exit(w))
    ensures Inv(c, Do(c, s, Exit(w)))
  {
    assert FaithfulLane(c, s.lanes[w]) && LaneInv(s.parent, w, s.lanes[w]);
    WorkerStepInv(c, s, Do(c, s, Exit(w)), w);
  }

  lemma CloseInv(c: Config, s: State)
    requires ValidConfig(c) && Inv(c, s) && Enabled(c, s, Close)
    ensures Inv(c, Do(c, s, Close))
  {
    var s' := Do(c, s, Close);
    var w := s.parent.k;
    JobIdsAppend(s.lanes[w].qin, Stop);
    assert Ids(s'.lanes[w]) == Ids(s.lanes[w]);
    CloseFlow(c, s);
    assert FaithfulLane(c, s.lanes[w]);
    LaneStepInv(c, s, s', w);
  }

  lemma CloseFlow(c: Config, s: State)
    requires ValidConfig(c) && FlowInv(c, s) && Enabled(c, s, Close)
    ensures
      var s', w := Do(c, s, Close), s.parent.k;
      && FlowInv(c, s.(parent := s'.parent, lanes := [])) && LaneInv(s'.parent, w, s'.lanes[w])
      && forall u :: 0 <= u < c.workers && u != w ==> LaneInv(s'.parent, u, s.lanes[u])
  {
    var s', w := Do(c, s, Close), s.parent.k;
    assert PipeInv(s.(parent := s'.parent, lanes := []));
    assert LaneInv(s.parent, w, s.lanes[w]);
    forall u | 0 <= u < c.workers && u != w ensures LaneInv(s'.parent, u, s.lanes[u]) {
      assert Closed(s'.parent, u) == Closed(s.parent, u);
    }
  }

  /** The items of a lane whose oldest message leaves. */
  lemma FlushIds(lane: Lane, lane': Lane)
    requires lane.outbox != [] && lane' == lane.(outbox := lane.outbox[1..]) && Distinct(Ids(lane))
    ensures var i := lane.outbox[0].i;
      Distinct(Ids(lane')) && i !in Ids(lane') && forall j :: j in Ids(lane) <==> j == i || j in Ids(lane')
  {
    var i := lane.outbox[0].i;
    assert MessageIds(lane.outbox) == [i] + MessageIds(lane'.outbox);
    assert Ids(lane) == [i] + Ids(lane');
    assert Ids(lane)[0] == i;
    assert forall k :: 0 <= k < |Ids(lane')| ==> Ids(lane')[k] == Ids(lane)[k + 1];
  }

  lemma FlushPlaces(c: Config, s: State, w: nat)
    requires ValidConfig(c) && |s.lanes| == c.workers && PlaceInv(c, s) && Enabled(c, s, Flush(w))
    ensures PlaceInv(c, Do(c, s, Flush(w)))
  {
    var s' := Do(c, s, Flush(w));
    var n := Dealt(c, s.parent);
    var i := s.lanes[w].outbox[0].i;
    assert LanePlaces(c.workers, n, w, s.lanes[w], s.pipe, s.writer);
    FlushIds(s.lanes[w], s'.lanes[w]);
    InPipeAppend(s.pipe, Data(s.lanes[w].outbox[0]));
    assert i in Ids(s.lanes[w]);
    assert forall j :: Gone(s'.pipe, s'.writer, j) <==> Gone(s.pipe, s.writer, j) || j == i;
    forall u | 0 <= u < c.workers ensures LanePlaces(c.workers, n, u, s'.lanes[u], s'.pipe, s'.writer) {
      assert LanePlaces(c.workers, n, u, s.lanes[u], s.pipe, s.writer);
    }
    assert PipePlaces(n, s'.pipe, s'.writer) by {
      assert !Gone(s.pipe, s.writer, i);
    }
  }

  lemma FlushInv(c: Config, s: State, w: nat)
    requires ValidConfig(c) && Inv(c, s) && Enabled(c, s, Flush(w))
    ensures Inv(c, Do(c, s, Flush(w)))
  {
    var s' := Do(c, s, Flush(w));
    FlushPlaces(c, s, w);
    SumUpdate(Load, s.lanes, w, s'.lanes[w]);
    FlushFlow(c, s, w);
  }

  lemma FlushFlow(c: Config, s: State, w: nat)
    requires ValidConfig(c) && Enabled(c, s, Flush(w)) && FlowInv(c, s) && ContentInv(c, s)
    ensures FlowInv(c, Do(c, s, Flush(w))) && ContentInv(c, Do(c, s, Flush(w)))
  {
    var s' := Do(c, s, Flush(w));
    assert FaithfulLane(c, s.lanes[w]) && LaneInv(s.parent, w, s.lanes[w]);
    assert forall k :: 0 <= k < |s'.lanes[w].outbox| ==> s'.lanes[w].outbox[k] == s.lanes[w].outbox[k + 1];
    assert FaithfulLane(c, s'.lanes[w]) && LaneInv(s'.parent, w, s'.lanes[w]);
    assert !Joined(s.parent, w);
  }

  lemma DealPlaces(c: Config, s: State)
    requires ValidConfig(c) && Inv(c, s) && Enabled(c, s, Deal)
    ensures PlaceInv(c, Do(c, s, Deal))
  {
    var s' := Do(c, s, Deal);
    var i := s.parent.i;
    var w := Home(c.workers, i);
    assert !Gone(s.pipe, s.writer, i);
    assert LanePlaces(c.workers, i, w, s.lanes[w], s.pipe, s.writer);
    DealLane(c.workers, Work(i, c.items[i]), s.lanes[w], s'.lanes[w], s.pipe, s.writer);
    forall u | 0 <= u < c.workers ensures LanePlaces(c.workers, i + 1, u, s'.lanes[u], s'.pipe, s'.writer) {
      assert LanePlaces(c.workers, i, u, s.lanes[u], s.pipe, s.writer);
    }
  }

  lemma DealLane(workers: nat, job: Job, lane: Lane, lane': Lane, pipe: seq<Out>, writer: Writer)
    requires workers >= 1 && job.Work? && lane' == lane.(qin := lane.qin + [job]) && !Gone(pipe, writer, job.i)
    requires LanePlaces(workers, job.i, Home(workers, job.i), lane, pipe, writer)
    ensures LanePlaces(workers, job.i + 1, Home(workers, job.i), lane', pipe, writer)
    ensures forall j :: j in Ids(lane') <==> j in Ids(lane) || j == job.i
  {
    JobIdsAppend(lane.qin, job);
    assert Ids(lane') == Ids(lane) + [job.i];
  }

  lemma DealInv(c: Config, s: State)
    requires ValidConfig(c) && Inv(c, s) && Enabled(c, s, Deal)
    ensures Inv(c, Do(c, s, Deal))
  {
    DealPlaces(c, s);
    DealFlow(c, s);
    var w := Home(c.workers, s.parent.i);
    SumUpdate(Load, s.lanes, w, Do(c, s, Deal).lanes[w]);
  }

  lemma DealFlow(c: Config, s: State)
    requires ValidConfig(c) && FlowInv(c, s) && ContentInv(c, s) && Enabled(c, s, Deal)
    ensures FlowInv(c, Do(c, s, Deal)) && ContentInv(c, Do(c, s, Deal))
  {
    var s' := Do(c, s, Deal);
    var w := Home(c.workers, s.parent.i);
    assert FaithfulLane(c, s.lanes[w]) && LaneInv(s.parent, w, s.lanes[w]);
    assert FaithfulLane(c, s'.lanes[w]) && LaneInv(s'.parent, w, s'.lanes[w]);
    forall u | 0 <= u < c.workers && u != w
      ensures LaneInv(s'.parent, u, s'.lanes[u]) && FaithfulLane(c, s'.lanes[u])
    {
      assert LaneInv(s.parent, u, s.lanes[u]) && FaithfulLane(c, s.lanes[u]);
    }
  }
}
