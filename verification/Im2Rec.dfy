/**
 The multi-process record builder of tools/im2rec.py. The parent deals the items of a list round robin
 into bounded queues, one a worker; the workers encode them and put the results into one bounded queue;
 a writer restores list order with a buffer. The processes interleave freely.
 */
module Im2Rec {

  import Lst
  import opened Options
  import opened Sequences

  type Bytes = seq<nat>

  type Item = Lst.Item

  datatype Image = Raised | Blank | Loaded(pixels: Bytes)

  /** What the file system and the codecs answer for one item; None is an exception. */
  datatype Codec = Codec(passThrough: bool, file: Option<Bytes>, packed: Option<Bytes>, image: Image,
                         packedImage: Option<Bytes>)

  /** One answer of a worker: the item's position in the list, its record or None, and the item. */
  datatype Message = Message(i: nat, s: Option<Bytes>, item: Item)

  // ----- the encoder

  /** The record an item should become: None as soon as reading, decoding or packing it fails. */
  function Outcome(codec: Codec): Option<Bytes> {
    if codec.passThrough then
      if codec.file.None? then None else codec.packed
    else
      if codec.image.Loaded? then codec.packedImage else None
  }

  /** Whether an item becomes a record: a file that is passed through has to be there and be packed, an image has to be
      loaded and be packed. */
  predicate Encodes(codec: Codec) {
    if codec.passThrough then codec.file.Some? && codec.packed.Some?
    else codec.image.Loaded? && codec.packedImage.Some?
  }

  /** The bytes of that record. */
  function Encoded(codec: Codec): Bytes
    requires Encodes(codec)
  {
    if codec.passThrough then codec.packed.value else codec.packedImage.value
  }

  lemma OutcomeIs(codec: Codec)
    ensures Outcome(codec) == if Encodes(codec) then Some(Encoded(codec)) else None
  {
  }

  /** image_encode: whatever happens, exactly one message goes out. */
  method ImageEncode(codec: Codec, i: nat, item: Item, q: seq<Message>) returns (q': seq<Message>)
    ensures q' == q + [Message(i, Outcome(codec), item)]
    ensures q' == q + [Message(i, if Encodes(codec) then Some(Encoded(codec)) else None, item)]
  {
    q' := q;
    if codec.passThrough {
      if codec.file.Some? && codec.packed.Some? {
        q' := q' + [Message(i, Some(codec.packed.value), item)];
      } else {
        q' := q' + [Message(i, None, item)];
      }
      return;
    }
    if codec.image.Raised? {
      q' := q' + [Message(i, None, item)];
      return;
    }
    if codec.image.Blank? {
      q' := q' + [Message(i, None, item)];
      return;
    }
    match codec.packedImage
    case Some(s) => q' := q' + [Message(i, Some(s), item)];
    case None => q' := q' + [Message(i, None, item)];
  }

  // ----- the writer

  /** A write_idx call. */
  datatype Record = Record(id: int, s: Bytes)

  datatype Writer = Writer(count: nat, buf: map<nat, Message>, log: seq<Record>, more: bool)

  function Records(m: Message): seq<Record> {
    if m.s.Some? then [Record(m.item.id, m.s.value)] else []
  }

  /** One round of the inner loop. */
  function WriteNext(w: Writer): Writer
    requires w.count in w.buf
  {
    w.(count := w.count + 1, buf := w.buf - {w.count}, log := w.log + Records(w.buf[w.count]))
  }

  /** Write out what has become next in list order. */
  function Drain(w: Writer): Writer
    decreases |w.buf|
  {
    if w.count in w.buf then
      RemoveShrinks(w.buf, w.count);
      Drain(WriteNext(w))
    else w
  }

  lemma RemoveShrinks(buf: map<nat, Message>, k: nat)
    requires k in buf
    ensures |buf - {k}| < |buf|
  {
    assert (buf - {k}).Keys == buf.Keys - {k};
  }

  /** A record of the message at position k of the buffer. */
  predicate IsWrite(buf: map<nat, Message>, k: nat, r: Record) {
    k in buf && buf[k].s.Some? && r == Record(buf[k].item.id, buf[k].s.value)
  }

  /** ks are the positions from lo up to hi whose message in buf has a record, in order, and log has these records, each
      under the number of its item. */
  ghost predicate AreWrites(buf: map<nat, Message>, lo: nat, hi: nat, ks: seq<nat>, log: seq<Record>) {
    && StrictlySorted(ks) && |log| == |ks|
    && (forall i :: lo <= i < hi && i in buf && buf[i].s.Some? ==> i in ks)
    && (forall j :: 0 <= j < |ks| ==> lo <= ks[j] < hi && IsWrite(buf, ks[j], log[j]))
  }

  /** The writer has gone as far as the messages in the buffer reach, and no farther, and those it passed have left the
      buffer. */
  ghost predicate HasPassed(w: Writer, w': Writer) {
    && w.count <= w'.count && w'.more == w.more
    && (forall i :: w.count <= i < w'.count ==> i in w.buf) && w'.count !in w.buf
    && (forall i :: i in w'.buf <==> i in w.buf && !(w.count <= i < w'.count))
    && (forall i :: i in w'.buf ==> w'.buf[i] == w.buf[i])
  }

  /** Besides, the records of those it passed have gone to the end of the file. */
  ghost predicate HasDrained(w: Writer, w': Writer) {
    HasPassed(w, w') && w.log <= w'.log &&
    exists ks :: AreWrites(w.buf, w.count, w'.count, ks, w'.log[|w.log|..])
  }

  lemma {:induction false} DrainPasses(w: Writer)
    ensures HasPassed(w, Drain(w))
    decreases |w.buf|
  {
    if w.count in w.buf {
      RemoveShrinks(w.buf, w.count);
      var next, end := WriteNext(w), Drain(w);
      DrainPasses(next);
      assert end == Drain(next);
      forall i | w.count <= i < end.count ensures i in w.buf {
        if i > w.count { assert i in next.buf; }
      }
      assert end.count !in next.buf;
    }
  }

  lemma {:induction false} DrainWrites(w: Writer) returns (ks: seq<nat>)
    ensures w.log <= Drain(w).log && AreWrites(w.buf, w.count, Drain(w).count, ks, Drain(w).log[|w.log|..])
    decreases |w.buf|
  {
    DrainPasses(w);
    if w.count in w.buf {
      RemoveShrinks(w.buf, w.count);
      var next := WriteNext(w);
      DrainPasses(next);
      ks := DrainWrites(next);
      var log := Drain(w).log;
      LogFrom(w.log, Records(w.buf[w.count]), log);
      ks := WritesFrom(w.buf, w.count, Drain(w).count, ks, log[|next.log|..]);
    } else {
      ks := [];
    }
  }

  lemma LogFrom(before: seq<Record>, more: seq<Record>, log: seq<Record>)
    requires before + more <= log
    ensures before <= log && log[|before|..] == more + log[|before + more|..]
  {
    assert log == (before + more) + log[|before + more|..];
  }

  lemma WritesFrom(buf: map<nat, Message>, lo: nat, hi: nat, ks: seq<nat>, log: seq<Record>) returns (ks': seq<nat>)
    requires lo in buf && lo < hi && AreWrites(buf - {lo}, lo + 1, hi, ks, log)
    ensures AreWrites(buf, lo, hi, ks', Records(buf[lo]) + log)
  {
    if buf[lo].s.Some? {
      ks' := [lo] + ks;
      FirstWrite(buf, lo, hi, ks, log);
    } else {
      ks' := ks;
      assert Records(buf[lo]) + log == log;
    }
  }

  lemma FirstWrite(buf: map<nat, Message>, lo: nat, hi: nat, ks: seq<nat>, log: seq<Record>)
    requires lo in buf && lo < hi && buf[lo].s.Some? && AreWrites(buf - {lo}, lo + 1, hi, ks, log)
    ensures AreWrites(buf, lo, hi, [lo] + ks, Records(buf[lo]) + log)
  {
    var all, written := [lo] + ks, Records(buf[lo]) + log;
    forall j | 0 <= j < |all| ensures lo <= all[j] < hi && IsWrite(buf, all[j], written[j]) {
      if j > 0 { assert IsWrite(buf - {lo}, ks[j - 1], log[j - 1]); }
    }
    forall i | lo <= i < hi && i in buf && buf[i].s.Some? ensures i in all {
      assert i != lo ==> i in buf - {lo} && i in ks;
    }
  }

  lemma DrainIs(w: Writer)
    ensures HasDrained(w, Drain(w))
  {
    DrainPasses(w);
    var ks := DrainWrites(w);
  }

  /** What comes out of the result queue: a message, or the parent's None. */
  datatype Out = Data(m: Message) | End

  /** A message goes into the buffer under its position; the end is noted. */
  function Arrived(w: Writer, o: Out): Writer {
    match o
    case Data(m) => w.(buf := w.buf[m.i := m])
    case End => w.(more := false)
  }

  function Receive(w: Writer, o: Out): Writer {
    Drain(Arrived(w, o))
  }

  lemma ReceiveIs(w: Writer, o: Out)
    ensures HasDrained(Arrived(w, o), Receive(w, o))
  {
    DrainIs(Arrived(w, o));
  }

  /** write_worker itself, with its local variables as fields. */
  class WriteWorker {
    var count: nat
    var buf: map<nat, Message>
    var log: seq<Record>
    var more: bool

    function State(): (w: Writer)
      reads this
    {
      Writer(count, buf, log, more)
    }

    constructor ()
      ensures State() == Writer(0, map[], [], true)
    {
      count, buf, log, more := 0, map[], [], true;
    }

    /** One round of the outer loop, on what q_out.get() returned. */
    method Handle(o: Out)
      modifies this
      ensures State() == Receive(old(State()), o)
      ensures HasDrained(Arrived(old(State()), o), State())
    {
      match o {
        case Data(m) => buf := buf[m.i := m];
        case End => more := false;
      }
      while count in buf
        invariant Drain(State()) == Receive(old(State()), o)
        decreases |buf|
      {
        var m := buf[count];
        RemoveShrinks(buf, count);
        assert m.s.None? ==> log + Records(m) == log;
        buf := buf - {count};
        if m.s.Some? {
          log := log + [Record(m.item.id, m.s.value)];
        }
        count := count + 1;
      }
      ReceiveIs(old(State()), o);
    }
  }

  // ----- the processes

  datatype Config = Config(items: seq<Item>, codecs: seq<Codec>, workers: nat, capacity: nat)

  ghost predicate ValidConfig(c: Config) {
    |c.codecs| == |c.items| && c.workers >= 1 && c.capacity >= 1
  }

  /** The queue item i is dealt into. */
  function Home(workers: nat, i: nat): (w: nat)
    requires workers >= 1
    ensures w < workers
  {
    i % workers
  }

  datatype Job = Work(i: nat, item: Item) | Stop

  /** A worker between two queue operations. A process that has left its loop still has to hand over what
      its queue thread holds before it exits. */
  datatype Pc = Idle | Busy(i: nat, item: Item) | Stopping | Exited

  /** One worker: its input queue, where it is, and the messages it has put but its queue thread has not
      yet moved to the pipe. */
  datatype Lane = Lane(qin: seq<Job>, pc: Pc, outbox: seq<Message>)

  datatype Parent = Feeding(i: nat) | Closing(k: nat) | Joining(k: nat) | Sent | Done

  /** `used` is the bounded semaphore of the result queue, taken by put and released by get. */
  datatype State = State(parent: Parent, lanes: seq<Lane>, pipe: seq<Out>, used: nat, writer: Writer)

  datatype Action =
    | Deal | BeginClosing | Close | BeginJoining | Join | SendEnd | JoinWriter
    | Get(w: nat) | Put(w: nat) | Flush(w: nat) | Exit(w: nat)
    | WriterGet

  function Init(c: Config): State {
    State(Feeding(0), seq(c.workers, _ => Lane([], Idle, [])), [], 0, Writer(0, map[], [], true))
  }

  predicate Enabled(c: Config, s: State, a: Action)
    requires ValidConfig(c)
  {
    |s.lanes| == c.workers &&
    match a
    case Deal => s.parent.Feeding? && s.parent.i < |c.items| && |s.lanes[Home(c.workers, s.parent.i)].qin| < c.capacity
    case BeginClosing => s.parent.Feeding? && s.parent.i >= |c.items|
    case Close => s.parent.Closing? && s.parent.k < c.workers && |s.lanes[s.parent.k].qin| < c.capacity
    case BeginJoining => s.parent.Closing? && s.parent.k >= c.workers
    case Join => s.parent.Joining? && s.parent.k < c.workers && s.lanes[s.parent.k].pc.Exited?
    case SendEnd => s.parent.Joining? && s.parent.k >= c.workers && s.used < c.capacity
    case JoinWriter => s.parent.Sent? && !s.writer.more
    case Get(w) => w < c.workers && s.lanes[w].pc.Idle? && s.lanes[w].qin != []
    case Put(w) => w < c.workers && s.lanes[w].pc.Busy? && s.lanes[w].pc.i < |c.items| && s.used < c.capacity
    case Flush(w) => w < c.workers && s.lanes[w].outbox != []
    case Exit(w) => w < c.workers && s.lanes[w].pc.Stopping? && s.lanes[w].outbox == []
    case WriterGet => s.writer.more && s.pipe != [] && s.used >= 1
  }

  function Do(c: Config, s: State, a: Action): State
    requires ValidConfig(c) && Enabled(c, s, a)
  {
    match a
    case Deal =>
      var i := s.parent.i;
      var w := Home(c.workers, i);
      var lane := s.lanes[w];
      s.(parent := Feeding(i + 1), lanes := s.lanes[w := lane.(qin := lane.qin + [Work(i, c.items[i])])])
    case BeginClosing => s.(parent := Closing(0))
    case Close =>
      var w := s.parent.k;
      var lane := s.lanes[w];
      s.(parent := Closing(w + 1), lanes := s.lanes[w := lane.(qin := lane.qin + [Stop])])
    case BeginJoining => s.(parent := Joining(0))
    case Join => s.(parent := Joining(s.parent.k + 1))
    case SendEnd => s.(parent := Sent, pipe := s.pipe + [End], used := s.used + 1)
    case JoinWriter => s.(parent := Done)
    case Get(w) =>
      var lane := s.lanes[w];
      var pc := if lane.qin[0].Work? then Busy(lane.qin[0].i, lane.qin[0].item) else Stopping;
      s.(lanes := s.lanes[w := lane.(qin := lane.qin[1..], pc := pc)])
    case Put(w) =>
      var lane := s.lanes[w];
      var m := Message(lane.pc.i, Outcome(c.codecs[lane.pc.i]), lane.pc.item);
      s.(lanes := s.lanes[w := lane.(pc := Idle, outbox := lane.outbox + [m])], used := s.used + 1)
    case Flush(w) =>
      var lane := s.lanes[w];
      s.(lanes := s.lanes[w := lane.(outbox := lane.outbox[1..])], pipe := s.pipe + [Data(lane.outbox[0])])
    case Exit(w) => s.(lanes := s.lanes[w := s.lanes[w].(pc := Exited)])
    case WriterGet => s.(pipe := s.pipe[1..], used := s.used - 1, writer := Receive(s.writer, s.pipe[0]))
  }

  predicate Next(c: Config, s: State, a: Action, s': State)
    requires ValidConfig(c)
  {
    Enabled(c, s, a) && s' == Do(c, s, a)
  }

  ghost predicate IsRun(c: Config, states: seq<State>, actions: seq<Action>)
    requires ValidConfig(c)
  {
    && |states| == |actions| + 1
    && states[0] == Init(c)
    && forall k :: 0 <= k < |actions| ==> Next(c, states[k], actions[k], states[k + 1])
  }

  // ----- what should be written

  /** The records of the first k items, in list order. */
  function Expected(c: Config, k: nat): seq<Record>
    requires |c.codecs| == |c.items| && k <= |c.items|
  {
    if k == 0 then []
    else Expected(c, k - 1) + Records(Message(k - 1, Outcome(c.codecs[k - 1]), c.items[k - 1]))
  }

  /** The record of item i. */
  predicate IsRecord(c: Config, i: nat, r: Record)
    requires |c.codecs| == |c.items| && i < |c.items|
  {
    Encodes(c.codecs[i]) && r == Record(c.items[i].id, Encoded(c.codecs[i]))
  }

  /** ks are the positions below k whose item becomes a record, in order, and log has these records, each under the
      number of its item. */
  ghost predicate AreRecords(c: Config, k: nat, ks: seq<nat>, log: seq<Record>)
    requires |c.codecs| == |c.items| && k <= |c.items|
  {
    && StrictlySorted(ks) && |log| == |ks|
    && (forall i :: 0 <= i < k && Encodes(c.codecs[i]) ==> i in ks)
    && (forall j :: 0 <= j < |ks| ==> ks[j] < k && IsRecord(c, ks[j], log[j]))
  }

  lemma {:induction false} ExpectedIs(c: Config, k: nat) returns (ks: seq<nat>)
    requires |c.codecs| == |c.items| && k <= |c.items|
    ensures AreRecords(c, k, ks, Expected(c, k))
  {
    if k == 0 {
      ks := [];
    } else {
      var before := ExpectedIs(c, k - 1);
      ks := OneRecordMore(c, k - 1, before, Expected(c, k - 1), Expected(c, k));
    }
  }

  lemma OneRecordMore(c: Config, k: nat, ks: seq<nat>, log: seq<Record>, log': seq<Record>) returns (ks': seq<nat>)
    requires |c.codecs| == |c.items| && k < |c.items| && AreRecords(c, k, ks, log)
    requires log' == log + Records(Message(k, Outcome(c.codecs[k]), c.items[k]))
    ensures AreRecords(c, k + 1, ks', log')
  {
    OutcomeIs(c.codecs[k]);
    if Encodes(c.codecs[k]) {
      ks' := ks + [k];
      forall j | 0 <= j < |ks'| ensures ks'[j] < k + 1 && IsRecord(c, ks'[j], log'[j]) {
        if j < |ks| { assert IsRecord(c, ks[j], log[j]); }
      }
      assert forall i :: i in ks ==> i in ks';
    } else {
      ks' := ks;
      assert log' == log;
    }
  }
}
