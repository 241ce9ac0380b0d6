/**
 get_jpeg_size of plugin/opencv/cv_api.cc: walking the marker segments of a JFIF stream to the frame header. The
 streams are those of sections B.1.1.4 and B.2.2 of ITU-T T.81: every segment carries its own length in two bytes,
 most significant byte first, and the length counts those two bytes.
 */
module Jpeg {

  type Byte = b: int | 0 <= b < 256

  datatype Segment = Segment(marker: Byte, payload: seq<Byte>)

  /** frame holds the length and the precision of the frame header, tail everything after its size. */
  datatype Stream = Stream(app0: seq<Byte>, segments: seq<Segment>, frame: seq<Byte>, lines: nat, samples: nat,
                           tail: seq<Byte>)

  /** Undefined: a read outside the data. Wrapped: a position that does not fit in 32 bits, where the model stops. */
  datatype Outcome = Size(width: nat, height: nat) | NoSize | Undefined | Wrapped

  const LIMIT := 0x1_0000_0000

  const SOF0: Byte := 0xC0

  const SOI_APP0: seq<Byte> := [0xFF, 0xD8, 0xFF, 0xE0]

  /** The characters of JFIF and the zero that ends them. */
  const JFIF: seq<Byte> := [0x4A, 0x46, 0x49, 0x46, 0x00]

  // ----- the format

  function Word(n: nat): seq<Byte>
    requires n < 0x1_0000
  {
    [n / 256, n % 256]
  }

  /** The number whose two bytes are hi and lo. */
  function Number(hi: Byte, lo: Byte): (n: nat)
    ensures n < 0x1_0000
  {
    (hi as int) * 256 + lo as int
  }

  lemma WordIsNumber(hi: Byte, lo: Byte)
    ensures Word(Number(hi, lo)) == [hi, lo]
  {
  }

  ghost predicate SegmentOk(s: Segment) {
    s.marker != SOF0 && |s.payload| + 2 < 0x1_0000
  }

  ghost predicate SegmentsOk(segments: seq<Segment>) {
    forall k :: 0 <= k < |segments| ==> SegmentOk(segments[k])
  }

  ghost predicate StreamOk(s: Stream) {
    && |s.app0| + 7 < 0x1_0000 && SegmentsOk(s.segments)
    && |s.frame| == 3 && s.lines < 0x1_0000 && s.samples < 0x1_0000
  }

  ghost function RenderSegments(segments: seq<Segment>, rest: seq<Byte>): seq<Byte>
    requires SegmentsOk(segments)
  {
    if segments == [] then rest
    else
      var s := segments[0];
      assert SegmentOk(s);
      [0xFF, s.marker] + (Word(|s.payload| + 2) + (s.payload + RenderSegments(segments[1..], rest)))
  }

  ghost function RenderFrame(s: Stream): seq<Byte>
    requires StreamOk(s)
  {
    [0xFF, SOF0] + (s.frame + (Word(s.lines) + (Word(s.samples) + s.tail)))
  }

  ghost function Render(s: Stream): seq<Byte>
    requires StreamOk(s)
  {
    SOI_APP0 + (Word(|s.app0| + 7) + (JFIF + (s.app0 + RenderSegments(s.segments, RenderFrame(s)))))
  }

  // ----- the walk

  /** The walk over d, what is left of size bytes of data at the start of a segment. */
  function Walk(d: seq<Byte>, size: int): Outcome
    decreases |d|
  {
    if Halts(d, size) then Verdict(d, size)
    else
      var next := 2 + Number(d[2], d[3]);
      Walk(d[next..], size)
  }

  /** A segment that carries its own length and has something behind it. */
  predicate IsSegment(d: seq<Byte>) {
    |d| >= 4 && d[0] == 0xFF && d[1] != SOF0 && 4 <= 2 + Number(d[2], d[3]) < |d|
  }

  /** The walk ends here. */
  predicate Halts(d: seq<Byte>, size: int) {
    !IsSegment(d) || size - |d| + 2 + Number(d[2], d[3]) >= LIMIT
  }

  /** A segment of which too little is there to tell its length, or its size. */
  predicate CutHead(d: seq<Byte>) {
    d != [] && d[0] == 0xFF && (|d| == 1 || (if d[1] == SOF0 then |d| < 9 else |d| < 4))
  }

  /** A segment whose length leads to a position that does not fit in 32 bits. */
  predicate FarAway(d: seq<Byte>, size: int) {
    |d| >= 4 && d[0] == 0xFF && d[1] != SOF0 && size - |d| + 2 + Number(d[2], d[3]) >= LIMIT
  }

  /** What the walk says where it ends. */
  function Verdict(d: seq<Byte>, size: int): Outcome {
    if CutHead(d) then Undefined
    else if FarAway(d, size) then Wrapped
    else if d != [] && d[0] == 0xFF && d[1] == SOF0 then Size(Number(d[7], d[8]), Number(d[5], d[6]))
    else NoSize
  }

  /** Every rendered sequence of segments is walked to what is behind it. */
  lemma {:induction false} WalkReaches(segments: seq<Segment>, t: seq<Byte>, d: seq<Byte>, size: int)
    requires SegmentsOk(segments) && t != [] && d == RenderSegments(segments, t) && size < LIMIT
    ensures Walk(d, size) == Walk(t, size)
  {
    if segments != [] {
      var rest := RenderSegments(segments[1..], t);
      RestIsBehind(segments, t);
      WalkOn(d, rest, size);
      WalkReaches(segments[1..], t, rest, size);
    }
  }

  lemma WalkOn(d: seq<Byte>, rest: seq<Byte>, size: int)
    requires IsSegment(d) && rest == d[2 + Number(d[2], d[3])..] && size < LIMIT
    ensures Walk(d, size) == Walk(rest, size)
  {
  }

  /** The head of a rendered segment leads right behind it. */
  lemma RestIsBehind(segments: seq<Segment>, t: seq<Byte>)
    requires SegmentsOk(segments) && segments != [] && t != []
    ensures
      var d, rest := RenderSegments(segments, t), RenderSegments(segments[1..], t);
      IsSegment(d) && rest == d[2 + Number(d[2], d[3])..]
  {
    var d, rest := RenderSegments(segments, t), RenderSegments(segments[1..], t);
    RenderedNotEmpty(segments[1..], t);
    var length := |segments[0].payload| + 2;
    assert SegmentOk(segments[0]);
    assert Number(d[2], d[3]) == length;
    assert d[2 + length..] == rest;
  }

  lemma RenderedNotEmpty(segments: seq<Segment>, t: seq<Byte>)
    requires SegmentsOk(segments) && t != []
    ensures |RenderSegments(segments, t)| >= |t| >= 1
    decreases |segments|
  {
    if segments != [] { RenderedNotEmpty(segments[1..], t); }
  }

  /** Whatever the data, the walk has gone over rendered segments when it ends. */
  lemma {:induction false} WalkFollowsSegments(d: seq<Byte>, size: int) returns (segments: seq<Segment>, t: seq<Byte>)
    ensures SegmentsOk(segments) && d == RenderSegments(segments, t)
    ensures Halts(t, size) && Walk(d, size) == Verdict(t, size)
    decreases |d|
  {
    if Halts(d, size) {
      segments, t := [], d;
    } else {
      var next := 2 + Number(d[2], d[3]);
      var segments', t' := WalkFollowsSegments(d[next..], size);
      segments, t := [Segment(d[1], d[4..next])] + segments', t';
      assert segments[1..] == segments';
      assert SegmentOk(segments[0]);
      SegmentAt(d, RenderSegments(segments', t));
    }
  }

  lemma FrameAt(d: seq<Byte>) returns (s: Stream)
    requires |d| >= 9 && d[0] == 0xFF && d[1] == SOF0
    ensures StreamOk(s) && s.app0 == [] && s.segments == []
    ensures d == RenderFrame(s) && s.lines == Number(d[5], d[6]) && s.samples == Number(d[7], d[8])
  {
    s := Stream([], [], d[2..5], Number(d[5], d[6]), Number(d[7], d[8]), d[9..]);
    WordIsNumber(d[5], d[6]);
    WordIsNumber(d[7], d[8]);
    assert d[2..5] + ([d[5], d[6]] + ([d[7], d[8]] + d[9..])) == d[2..];
  }

  lemma SegmentAt(d: seq<Byte>, rest: seq<Byte>)
    requires |d| >= 4 && d[0] == 0xFF && 4 <= 2 + Number(d[2], d[3]) <= |d|
    requires rest == d[2 + Number(d[2], d[3])..]
    ensures d == [0xFF, d[1]] + (Word(Number(d[2], d[3])) + (d[4..2 + Number(d[2], d[3])] + rest))
  {
    WordIsNumber(d[2], d[3]);
    assert d[4..2 + Number(d[2], d[3])] + rest == d[4..];
  }

  // ----- the function

  datatype Comparison = Same | Different | Outside

  /** A chain of comparisons joined by &&: it stops at the first byte that differs. */
  function Compare(data: seq<Byte>, at: nat, pattern: seq<Byte>): (c: Comparison)
    requires pattern != []
    ensures c == Same <==> at + |pattern| <= |data| && data[at..at + |pattern|] == pattern
    ensures c == Outside <==> at >= |data| || data[at..] < pattern
    decreases |pattern|
  {
    if at >= |data| then Outside
    else if data[at] != pattern[0] then Different
    else if |pattern| == 1 then Same
    else
      assert at + |pattern| <= |data| ==> data[at..at + |pattern|] == [data[at]] + data[at + 1..at + |pattern|];
      assert data[at..] == [data[at]] + data[at + 1..] && pattern == [pattern[0]] + pattern[1..];
      Compare(data, at + 1, pattern[1..])
  }

  predicate HasHeader(data: seq<Byte>) {
    |data| >= 11 && data[..4] == SOI_APP0 && data[6..11] == JFIF
  }

  /** The data ends within the bytes that are compared, and agrees with them so far. */
  predicate CutHeader(data: seq<Byte>) {
    data < SOI_APP0 || (SOI_APP0 <= data && (|data| <= 6 || data[6..] < JFIF))
  }

  /** What the code answers. */
  function Find(data: seq<Byte>): Outcome {
    if CutHeader(data) then Undefined
    else if !HasHeader(data) then NoSize
    else Next(data, 4 + Number(data[4], data[5]))
  }

  function Next(data: seq<Byte>, at: nat): Outcome {
    if at >= |data| then NoSize else Walk(data[at..], |data|)
  }

  /** The data is a header, whole segments, and t behind them. */
  ghost predicate Splits(data: seq<Byte>, segments: seq<Segment>, t: seq<Byte>) {
    && HasHeader(data) && SegmentsOk(segments) && t != [] && 11 <= 4 + Number(data[4], data[5]) < |data|
    && data[4 + Number(data[4], data[5])..] == RenderSegments(segments, t)
  }

  /** get_jpeg_size. It answers with the size of the stream the data renders, and with a size only then. It reads
      outside the data exactly when the data is cut in the header or in the head of a segment. Its position exceeds 32
      bits exactly when a length leads there, which takes almost 4 GiB of data. In all other cases it answers that there
      is no size. */
  method GetJpegSize(data: seq<Byte>) returns (r: Outcome)
    requires |data| < LIMIT
    ensures forall s :: StreamOk(s) && data == Render(s) ==> r == Size(s.samples, s.lines)
    ensures r.Size? ==> exists s :: StreamOk(s) && data == Render(s) && r == Size(s.samples, s.lines)
    ensures r.Undefined? <==> CutHeader(data) || exists segments, t :: Splits(data, segments, t) && CutHead(t)
    ensures r.Wrapped? <==> exists segments, t :: Splits(data, segments, t) && FarAway(t, |data|)
  {
    r := Scan(data);
    forall s | StreamOk(s) && data == Render(s)
      ensures r == Size(s.samples, s.lines)
    {
      FindsRendered(s);
    }
    if r.Size? {
      ghost var s := FoundIsRendered(data);
    }
    StopsIff(data);
  }

  method Scan(data: seq<Byte>) returns (r: Outcome)
    requires |data| < LIMIT
    ensures r == Find(data)
  {
    var i := 0;
    var start := Compare(data, i, SOI_APP0);
    HeaderCompared(data);
    if start != Same {
      return if start.Different? then NoSize else Undefined;
    }
    i := i + 4;
    var header := Compare(data, i + 2, JFIF);
    if header != Same {
      return if header.Different? then NoSize else Undefined;
    }
    r := ScanBlocks(data, i);
  }

  /** What is answered when a length leads from position i. */
  ghost function Jump(data: seq<Byte>, i: nat, length: nat): Outcome {
    if i + length >= LIMIT then Wrapped else Next(data, i + length)
  }

  /** The loop over the blocks, from the length of the first one on. */
  method ScanBlocks(data: seq<Byte>, first: nat) returns (r: Outcome)
    requires first + 1 < |data| < LIMIT
    ensures r == Jump(data, first, Number(data[first], data[first + 1]))
  {
    var i := first;
    var blockLength := Number(data[i], data[i + 1]);
    ghost var answer := Jump(data, i, blockLength);
    while i < |data|
      invariant 0 <= i <= |data| && 0 <= blockLength && (i == |data| ==> answer == NoSize)
      invariant Jump(data, i, blockLength) == answer
      decreases |data| - i
    {
      i := i + blockLength;
      if i >= LIMIT {
        return Wrapped;
      }
      if i >= |data| {
        return NoSize;
      }
      SegmentEnds(data, i);
      if data[i] != 0xFF {
        return NoSize;
      }
      if i + 1 >= |data| {
        return Undefined;
      }
      if data[i + 1] == SOF0 {
        if i + 8 >= |data| {
          return Undefined;
        }
        var height := Number(data[i + 5], data[i + 6]);
        var width := Number(data[i + 7], data[i + 8]);
        return Size(width, height);
      }
      ghost var before := i;
      i := i + 2;
      if i + 1 >= |data| {
        return Undefined;
      }
      blockLength := Number(data[i], data[i + 1]);
      NextSegment(data, before);
    }
    return NoSize;
  }

  /** The two comparisons together. */
  lemma HeaderCompared(data: seq<Byte>)
    ensures
      var start, header := Compare(data, 0, SOI_APP0), Compare(data, 6, JFIF);
      && (CutHeader(data) <==> start.Outside? || (start.Same? && header.Outside?))
      && (HasHeader(data) <==> start.Same? && header.Same?)
  {
    assert data[0..] == data;
  }

  /** What the walk says at position i when it ends there. */
  lemma SegmentEnds(data: seq<Byte>, i: nat)
    requires i < |data|
    ensures data[i] != 0xFF ==> Next(data, i) == NoSize
    ensures data[i] == 0xFF && i + 1 == |data| ==> Next(data, i) == Undefined
    ensures data[i] == 0xFF && i + 1 < |data| && data[i + 1] == SOF0 ==>
      Next(data, i) == if i + 8 >= |data| then Undefined
        else Size(Number(data[i + 7], data[i + 8]), Number(data[i + 5], data[i + 6]))
    ensures data[i] == 0xFF && i + 1 < |data| && data[i + 1] != SOF0 && i + 3 >= |data| ==> Next(data, i) == Undefined
  {
    var d := data[i..];
    assert d[0] == data[i];
    if i + 1 < |data| { assert d[1] == data[i + 1]; }
  }

  lemma NextSegment(data: seq<Byte>, at: nat)
    requires at + 3 < |data| < LIMIT && data[at] == 0xFF && data[at + 1] != SOF0
    ensures Jump(data, at + 2, Number(data[at + 2], data[at + 3])) == Next(data, at)
  {
    var d, next := data[at..], 2 + Number(data[at + 2], data[at + 3]);
    if at + next < |data| {
      assert d[next..] == data[at + next..];
      if next < 4 {
        var e := d[next..];
        NotAStart(d[2], d[3]);
        assert e[0] == if next == 2 then d[2] else d[3];
      }
    }
  }

  /** A length below two leads to one of its own bytes, which starts no segment. */
  lemma NotAStart(hi: Byte, lo: Byte)
    ensures Number(hi, lo) == 0 ==> hi != 0xFF
    ensures Number(hi, lo) == 1 ==> lo != 0xFF
  {
  }

  // ----- what the answer means

  lemma FindsRendered(s: Stream)
    requires StreamOk(s) && |Render(s)| < LIMIT
    ensures Find(Render(s)) == Size(s.samples, s.lines)
  {
    var data, frame := Render(s), RenderFrame(s);
    var rest := RenderSegments(s.segments, frame);
    RenderedHeader(s);
    RenderedNotEmpty(s.segments, frame);
    WalkReaches(s.segments, frame, rest, |data|);
    FrameIsFound(s, |data|);
  }

  lemma RenderedHeader(s: Stream)
    requires StreamOk(s)
    ensures
      var data := Render(s);
      && HasHeader(data) && !CutHeader(data) && Number(data[4], data[5]) == |s.app0| + 7
      && data[|s.app0| + 11..] == RenderSegments(s.segments, RenderFrame(s))
  {
    var data := Render(s);
    assert data[..4] == SOI_APP0;
    assert data[6..11] == JFIF;
    assert data[|s.app0| + 11..] == RenderSegments(s.segments, RenderFrame(s));
  }

  lemma FrameIsFound(s: Stream, size: int)
    requires StreamOk(s)
    ensures Walk(RenderFrame(s), size) == Size(s.samples, s.lines)
  {
    var t := RenderFrame(s);
    assert t[5..7] == Word(s.lines) && t[7..9] == Word(s.samples);
    assert t[5] == t[5..7][0] && t[6] == t[5..7][1] && t[7] == t[7..9][0] && t[8] == t[7..9][1];
  }

  lemma FoundIsRendered(data: seq<Byte>) returns (s: Stream)
    requires Find(data).Size?
    ensures StreamOk(s) && data == Render(s) && Find(data) == Size(s.samples, s.lines)
  {
    var segments, t := StopsSomewhere(data);
    s := FrameAt(t);
    s := s.(app0 := data[11..4 + Number(data[4], data[5])], segments := segments);
    RenderedWhole(data, s, t);
  }

  lemma RenderedWhole(data: seq<Byte>, s: Stream, t: seq<Byte>)
    requires HasHeader(data) && StreamOk(s) && t == RenderFrame(s)
    requires 11 <= 4 + Number(data[4], data[5]) <= |data| && s.app0 == data[11..4 + Number(data[4], data[5])]
    requires data[4 + Number(data[4], data[5])..] == RenderSegments(s.segments, t)
    ensures data == Render(s)
  {
    WordIsNumber(data[4], data[5]);
    var end := 4 + Number(data[4], data[5]);
    assert data[4..6] == [data[4], data[5]];
    InFiveParts(data, end, SOI_APP0, Word(|s.app0| + 7), JFIF, s.app0, RenderSegments(s.segments, t));
  }

  lemma InFiveParts(data: seq<Byte>, end: nat, a: seq<Byte>, b: seq<Byte>, c: seq<Byte>, d: seq<Byte>, e: seq<Byte>)
    requires 11 <= end <= |data|
    requires a == data[..4] && b == data[4..6] && c == data[6..11] && d == data[11..end] && e == data[end..]
    ensures data == a + (b + (c + (d + e)))
  {
    assert d + e == data[11..] && c + data[11..] == data[6..] && b + data[6..] == data[4..];
  }

  /** The first length covers the name that was compared, unless the walk finds nothing behind it: none of the bytes of
      the length and the name could start a segment. */
  lemma HeaderIsInside(data: seq<Byte>)
    requires HasHeader(data) && Next(data, 4 + Number(data[4], data[5])) != NoSize
    ensures Number(data[4], data[5]) >= 7
  {
    var n := Number(data[4], data[5]);
    var d := data[4 + n..];
    assert d[0] == 0xFF && d[0] == data[4 + n];
    NotAStart(data[4], data[5]);
    assert forall k :: 6 <= k < 11 ==> data[k] == data[6..11][k - 6];
  }

  /** Where the walk stops without an answer. */
  lemma StopsIff(data: seq<Byte>)
    requires |data| < LIMIT
    ensures Find(data).Undefined? <==> CutHeader(data) || exists segments, t :: Splits(data, segments, t) && CutHead(t)
    ensures Find(data).Wrapped? <==> exists segments, t :: Splits(data, segments, t) && FarAway(t, |data|)
  {
    forall segments, t | Splits(data, segments, t) && Halts(t, |data|)
      ensures !CutHeader(data) && Find(data) == Verdict(t, |data|)
    {
      StopsThere(data, segments, t);
    }
    if !CutHeader(data) && (Find(data).Undefined? || Find(data).Wrapped?) {
      var segments, t := StopsSomewhere(data);
    }
  }

  lemma StopsThere(data: seq<Byte>, segments: seq<Segment>, t: seq<Byte>)
    requires |data| < LIMIT && Splits(data, segments, t) && Halts(t, |data|)
    ensures !CutHeader(data) && Find(data) == Verdict(t, |data|)
  {
    RenderedNotEmpty(segments, t);
    WalkReaches(segments, t, RenderSegments(segments, t), |data|);
  }

  lemma StopsSomewhere(data: seq<Byte>) returns (segments: seq<Segment>, t: seq<Byte>)
    requires HasHeader(data) && Find(data) != NoSize
    ensures Splits(data, segments, t) && Find(data) == Verdict(t, |data|)
  {
    HeaderIsInside(data);
    var length := Number(data[4], data[5]);
    segments, t := WalkFollowsSegments(data[4 + length..], |data|);
  }

  /** A stream cut behind the first byte of a marker. */
  lemma CutStreamIsReadOutside()
    ensures Find([0xFF, 0xD8, 0xFF, 0xE0, 0x00, 0x07, 0x4A, 0x46, 0x49, 0x46, 0x00, 0xFF]).Undefined?
  {
    var data: seq<Byte> := [0xFF, 0xD8, 0xFF, 0xE0, 0x00, 0x07, 0x4A, 0x46, 0x49, 0x46, 0x00, 0xFF];
    assert data[..4] == SOI_APP0 && data[6..11] == JFIF && data[11..] == [0xFF];
    assert Number(data[4], data[5]) == 7;
    assert Splits(data, [], [0xFF]) && CutHead([0xFF]);
    StopsIff(data);
  }

  const TABLE: seq<Byte> := [0xFF, 0xDB, 0x00, 0x03, 0xAA]

  const FRAME: seq<Byte> := [0xFF, 0xC0, 0x00, 0x0B, 0x08, 0x01, 0x2C, 0x02, 0x58]

  lemma FrameIsRead(size: int)
    ensures Halts(FRAME, size) && Verdict(FRAME, size) == Size(600, 300)
  {
  }

  lemma TableIsSegment()
    ensures RenderSegments([Segment(0xDB, [0xAA])], FRAME) == TABLE + FRAME
  {
    var table := Segment(0xDB, [0xAA]);
    assert [table][1..] == [];
    assert Word(3) == [0x00, 0x03];
    assert TABLE == [0xFF, 0xDB] + ([0x00, 0x03] + [0xAA]);
    assert TABLE + FRAME == [0xFF, 0xDB] + ([0x00, 0x03] + ([0xAA] + FRAME));
  }

  /** A stream with a quantization table before its frame header: 300 lines of 600 samples. */
  lemma SizeOfStream(data: seq<Byte>)
    requires data == [0xFF, 0xD8, 0xFF, 0xE0, 0x00, 0x07, 0x4A, 0x46, 0x49, 0x46, 0x00] + (TABLE + FRAME)
    ensures Find(data) == Size(600, 300)
  {
    TableIsSegment();
    FrameIsRead(|data|);
    assert data[..4] == SOI_APP0 && data[6..11] == JFIF && data[11..] == TABLE + FRAME;
    assert Splits(data, [Segment(0xDB, [0xAA])], FRAME);
    StopsThere(data, [Segment(0xDB, [0xAA])], FRAME);
  }
}
