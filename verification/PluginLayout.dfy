/**
 The bytes of a serialized plugin, one by one. The rest of the serialization is proved by reading back what was written;
 this says what is written, with every field at its own offset.
 */
module PluginLayout {

  import opened Arithmetic
  import opened Plugins

  // ----- numbers at offsets

  /** The low bytes of x, the lowest first: byte j is its digit of weight 256 to the power of j. */
  function BytesOf(x: int, size: nat): (bytes: seq<Byte>)
    ensures |bytes| == size
  {
    seq(size, j requires 0 <= j < size => (x / Pow256(j)) % 256)
  }

  /** They stand at an offset. */
  ghost predicate NumberAt(bytes: seq<Byte>, at: nat, size: nat, x: int) {
    at + size <= |bytes| && bytes[at..at + size] == BytesOf(x, size)
  }

  /** A signed number in two's complement. */
  ghost predicate SignedAt(bytes: seq<Byte>, at: nat, v: int) {
    NumberAt(bytes, at, 4, if v < 0 then v + 0x1_0000_0000 else v)
  }

  ghost predicate ValueAt(bytes: seq<Byte>, at: nat, kind: Kind, v: int) {
    match kind
    case KByte => NumberAt(bytes, at, 1, v)
    case KU32 => NumberAt(bytes, at, 4, v)
    case KI32 => SignedAt(bytes, at, v)
    case KU64 => NumberAt(bytes, at, 8, v)
  }

  lemma {:induction false} LEByte(v: nat, n: nat, rest: seq<Byte>, j: nat)
    requires j < n
    ensures |PutLE(v, n, rest)| == n + |rest| && PutLE(v, n, rest)[j] == (v / Pow256(j)) % 256
  {
    LELength(v, n, rest);
    if j == 0 {
      assert v / Pow256(0) == v;
    } else {
      LEByte(v / 0x100, n - 1, rest, j - 1);
      DivDiv(v, 0x100, Pow256(j - 1));
    }
  }

  lemma {:induction false} LELength(v: nat, n: nat, rest: seq<Byte>)
    ensures |PutLE(v, n, rest)| == n + |rest| && PutLE(v, n, rest)[n..] == rest
  {
    if n > 0 {
      LELength(v / 0x100, n - 1, rest);
      assert PutLE(v, n, rest)[n..] == PutLE(v / 0x100, n - 1, rest)[n - 1..];
    }
  }

  lemma PutIs(kind: Kind, v: int, rest: seq<Byte>)
    requires InRange(kind, v)
    ensures ValueAt(Put(kind, v, rest), 0, kind, v)
    ensures |Put(kind, v, rest)| == SizeOf(kind) + |rest| && Put(kind, v, rest)[SizeOf(kind)..] == rest
  {
    var bits, n := Bits(kind, v), SizeOf(kind);
    LELength(bits, n, rest);
    LEIs(bits, n, rest);
  }

  lemma LEIs(v: nat, n: nat, rest: seq<Byte>)
    ensures NumberAt(PutLE(v, n, rest), 0, n, v)
  {
    LELength(v, n, rest);
    forall j: nat | j < n ensures PutLE(v, n, rest)[0..n][j] == BytesOf(v, n)[j] {
      LEByte(v, n, rest, j);
    }
  }

  /** What stands behind a prefix stands there in the whole. */
  lemma Behind(bytes: seq<Byte>, from: nat, at: nat, kind: Kind, v: int)
    requires from <= |bytes| && ValueAt(bytes[from..], at, kind, v)
    ensures ValueAt(bytes, from + at, kind, v)
  {
    var size := SizeOf(kind);
    assert bytes[from..][at..at + size] == bytes[from + at..(from + at) + size];
  }

  /** A run of values, one after another. */
  ghost predicate RunAt(bytes: seq<Byte>, at: nat, kind: Kind, vs: seq<int>) {
    forall i :: 0 <= i < |vs| ==> ValueAt(bytes, at + SizeOf(kind) * i, kind, vs[i])
  }

  lemma {:induction false} AllIs(kind: Kind, vs: seq<int>, rest: seq<Byte>)
    requires AllInRange(kind, vs)
    ensures RunAt(PutAll(kind, vs, rest), 0, kind, vs)
    ensures
      var all := PutAll(kind, vs, rest);
      |all| == SizeOf(kind) * |vs| + |rest| && all[SizeOf(kind) * |vs|..] == rest
  {
    if vs != [] {
      var size, tail := SizeOf(kind), vs[1..];
      AllIs(kind, tail, rest);
      PutIs(kind, vs[0], PutAll(kind, tail, rest));
      OneMore(kind, vs, PutAll(kind, vs, rest), rest);
    }
  }

  lemma OneMore(kind: Kind, vs: seq<int>, all: seq<Byte>, rest: seq<Byte>)
    requires vs != [] && |all| >= SizeOf(kind) && ValueAt(all, 0, kind, vs[0])
    requires RunAt(all[SizeOf(kind)..], 0, kind, vs[1..])
    requires
      var size := SizeOf(kind);
      |all[size..]| == size * |vs[1..]| + |rest| && all[size..][size * |vs[1..]|..] == rest
    ensures RunAt(all, 0, kind, vs) && |all| == SizeOf(kind) * |vs| + |rest| && all[SizeOf(kind) * |vs|..] == rest
  {
    var size := SizeOf(kind);
    assert size * |vs| == size + size * |vs[1..]|;
    forall i | 0 <= i < |vs| ensures ValueAt(all, size * i, kind, vs[i]) {
      if i > 0 {
        assert vs[i] == vs[1..][i - 1] && size * i == size + size * (i - 1);
        Behind(all, size, size * (i - 1), kind, vs[i]);
      }
    }
  }

  // ----- fields at offsets

  /** A field: for a vector its number of elements and then its values, else the values. */
  ghost predicate FieldAt(bytes: seq<Byte>, at: nat, f: Field) {
    if f.t.Vector? then f.t.per >= 1 && NumberAt(bytes, at, 8, |f.vs| / f.t.per) && RunAt(bytes, at + 8, f.t.kind, f.vs)
    else RunAt(bytes, at, f.t.kind, f.vs)
  }

  lemma FieldBehind(bytes: seq<Byte>, from: nat, at: nat, f: Field, there: nat)
    requires from <= |bytes| && FieldAt(bytes[from..], at, f) && there == from + at
    ensures FieldAt(bytes, there, f)
  {
    if f.t.Vector? {
      Behind(bytes, from, at, KU64, |f.vs| / f.t.per);
      RunBehind(bytes, from, at + 8, f.t.kind, f.vs, there + 8);
    } else {
      RunBehind(bytes, from, at, f.t.kind, f.vs, there);
    }
  }

  lemma RunBehind(bytes: seq<Byte>, from: nat, at: nat, kind: Kind, vs: seq<int>, there: nat)
    requires from <= |bytes| && RunAt(bytes[from..], at, kind, vs) && there == from + at
    ensures RunAt(bytes, there, kind, vs)
  {
    forall i | 0 <= i < |vs| ensures ValueAt(bytes, there + SizeOf(kind) * i, kind, vs[i]) {
      Behind(bytes, from, at + SizeOf(kind) * i, kind, vs[i]);
    }
  }

  lemma FieldIs(f: Field, rest: seq<Byte>)
    requires ValidField(f)
    ensures FieldAt(PutField(f, rest), 0, f)
    ensures |PutField(f, rest)| == FieldSize(f) + |rest| && PutField(f, rest)[FieldSize(f)..] == rest
  {
    var body, size := PutAll(f.t.kind, f.vs, rest), SizeOf(f.t.kind) * |f.vs|;
    AllIs(f.t.kind, f.vs, rest);
    if f.t.Vector? {
      var all := PutField(f, rest);
      PutIs(KU64, |f.vs| / f.t.per, body);
      assert all[8..] == body && all[8 + size..] == body[size..];
      RunBehind(all, 8, 0, f.t.kind, f.vs, 8);
    }
  }

  /** Field number i stands behind those before it. */
  lemma {:induction false} FieldsAre(fs: seq<Field>, rest: seq<Byte>, i: nat, at: nat)
    requires ValidFields(fs) && i < |fs| && at == FieldsSize(fs[..i])
    ensures FieldAt(PutFields(fs, rest), at, fs[i])
  {
    FieldIs(fs[0], PutFields(fs[1..], rest));
    if i > 0 {
      var size := FieldSize(fs[0]);
      assert fs[..i][1..] == fs[1..][..i - 1];
      FieldsAre(fs[1..], rest, i - 1, at - size);
      FieldBehind(PutFields(fs, rest), size, at - size, fs[i], at);
    }
  }

  // ----- the plugins

  /** The Dims of the inputs behind their number, 68 bytes each, then the batch size, the type and the format. */
  ghost predicate BaseAt(bytes: seq<Byte>, at: nat, b: Base)
    requires forall i :: 0 <= i < |b.inputDims| ==> |b.inputDims[i]| == 17
  {
    var n := |b.inputDims|;
    && NumberAt(bytes, at, 8, n)
    && (forall i, j :: 0 <= i < n && 0 <= j < 17 ==> SignedAt(bytes, at + 8 + 68 * i + 4 * j, b.inputDims[i][j]))
    && NumberAt(bytes, at + 8 + 68 * n, 8, b.maxBatchSize)
    && SignedAt(bytes, at + 16 + 68 * n, b.dataType)
    && NumberAt(bytes, at + 20 + 68 * n, 1, b.dataFormat)
  }

  /** A vector of numbers of four bytes behind their number. */
  ghost predicate VectorAt(bytes: seq<Byte>, at: nat, xs: seq<int>) {
    NumberAt(bytes, at, 8, |xs|) && forall i :: 0 <= i < |xs| ==> SignedAt(bytes, at + 8 + 4 * i, xs[i])
  }

  lemma {:induction false} JoinAt(dims: seq<seq<int>>, i: nat, j: nat)
    requires (forall k :: 0 <= k < |dims| ==> |dims[k]| == 17) && i < |dims| && j < 17
    ensures 17 * i + j < |Join(dims)| && Join(dims)[17 * i + j] == dims[i][j]
  {
    if i > 0 { JoinAt(dims[1..], i - 1, j); }
  }

  lemma BaseFromFields(bytes: seq<Byte>, at: nat, b: Base)
    requires forall i :: 0 <= i < |b.inputDims| ==> |b.inputDims[i]| == 17 && AllInRange(KI32, b.inputDims[i])
    requires
      var fs, n := BaseFields(b), |b.inputDims|;
      && FieldAt(bytes, at, fs[0]) && FieldAt(bytes, at + (8 + 68 * n), fs[1])
      && FieldAt(bytes, at + (16 + 68 * n), fs[2]) && FieldAt(bytes, at + (20 + 68 * n), fs[3])
    ensures BaseAt(bytes, at, b)
  {
    var fs, n := BaseFields(b), |b.inputDims|;
    CutJoin(b.inputDims);
    assert |fs[0].vs| / 17 == n;
    DimsAre(bytes, at + 8, b.inputDims);
    BaseNumbers(bytes, b, at + (8 + 68 * n), at + (16 + 68 * n), at + (20 + 68 * n));
  }

  lemma BaseNumbers(bytes: seq<Byte>, b: Base, size: nat, kind: nat, format: nat)
    requires
      var fs := BaseFields(b);
      FieldAt(bytes, size, fs[1]) && FieldAt(bytes, kind, fs[2]) && FieldAt(bytes, format, fs[3])
    ensures NumberAt(bytes, size, 8, b.maxBatchSize) && SignedAt(bytes, kind, b.dataType)
    ensures NumberAt(bytes, format, 1, b.dataFormat)
  {
    var fs := BaseFields(b);
    OneIs(bytes, size, fs[1]);
    OneIs(bytes, kind, fs[2]);
    OneIs(bytes, format, fs[3]);
  }

  lemma DimsAre(bytes: seq<Byte>, at: nat, dims: seq<seq<int>>)
    requires (forall i :: 0 <= i < |dims| ==> |dims[i]| == 17) && RunAt(bytes, at, KI32, Join(dims))
    ensures forall i, j :: 0 <= i < |dims| && 0 <= j < 17 ==> SignedAt(bytes, at + 68 * i + 4 * j, dims[i][j])
  {
    forall i, j | 0 <= i < |dims| && 0 <= j < 17 ensures SignedAt(bytes, at + 68 * i + 4 * j, dims[i][j]) {
      JoinAt(dims, i, j);
      assert ValueAt(bytes, at + 4 * (17 * i + j), KI32, Join(dims)[17 * i + j]);
    }
  }

  lemma OneIs(bytes: seq<Byte>, at: nat, f: Field)
    requires FieldAt(bytes, at, f) && f.t.One? && |f.vs| == 1
    ensures ValueAt(bytes, at, f.t.kind, f.vs[0])
  {
    assert ValueAt(bytes, at + SizeOf(f.t.kind) * 0, f.t.kind, f.vs[0]);
  }

  lemma VectorIs(bytes: seq<Byte>, at: nat, f: Field)
    requires FieldAt(bytes, at, f) && f.t.Vector? && f.t.per == 1 && (f.t.kind == KI32 || f.t.kind == KU32)
    requires AllInRange(f.t.kind, f.vs)
    ensures VectorAt(bytes, at, f.vs)
  {
    forall i | 0 <= i < |f.vs| ensures SignedAt(bytes, at + 8 + 4 * i, f.vs[i]) {
      assert ValueAt(bytes, (at + 8) + 4 * i, f.t.kind, f.vs[i]) && InRange(f.t.kind, f.vs[i]);
    }
  }

  lemma OwnOffsets(fs: seq<Field>)
    requires 2 <= |fs| <= 4
    ensures FieldsSize(fs[..0]) == 0 && FieldsSize(fs[..1]) == FieldSize(fs[0])
    ensures FieldsSize(fs[..2]) == FieldSize(fs[0]) + FieldSize(fs[1])
    ensures |fs| >= 3 ==> FieldsSize(fs[..3]) == FieldSize(fs[0]) + FieldSize(fs[1]) + FieldSize(fs[2])
  {
    assert fs[..1][1..] == [];
    FewFields(fs[..2]);
    if |fs| >= 3 { FewFields(fs[..3]); }
  }

  /** Where the fields of the base and of the plugin stand among all. */
  lemma AllOffsets(p: Plugin, i: nat)
    requires ValidPlugin(p) && i < 4 + |OwnFields(p)|
    ensures
      var fs, own, n := BaseFields(p.base) + OwnFields(p), OwnFields(p), |p.base.inputDims|;
      FieldsSize(fs[..i]) ==
        if i == 0 then 0 else if i == 1 then 8 + 68 * n else if i == 2 then 16 + 68 * n
        else if i == 3 then 20 + 68 * n else 21 + 68 * n + FieldsSize(own[..i - 4])
  {
    var base, own := BaseFields(p.base), OwnFields(p);
    CutJoin(p.base.inputDims);
    OwnOffsets(base);
    if i < 4 {
      assert (base + own)[..i] == base[..i];
    } else {
      assert (base + own)[..i] == base + own[..i - 4];
      FieldsSizeConcat(base, own[..i - 4]);
      BaseSizesAgree(p.base);
    }
  }

  /** bytes holds the fields of p from some offset on. */
  ghost predicate HasFields(p: Plugin, bytes: seq<Byte>, from: nat) {
    && ValidPlugin(p) && from <= |bytes| && ValidFields(BaseFields(p.base) + OwnFields(p))
    && bytes[from..] == PutFields(BaseFields(p.base) + OwnFields(p), [])
  }

  lemma FieldsFrom(p: Plugin, bytes: seq<Byte>, from: nat, i: nat, at: nat)
    requires HasFields(p, bytes, from) && i < 4 + |OwnFields(p)|
    requires at == from + FieldsSize((BaseFields(p.base) + OwnFields(p))[..i])
    ensures FieldAt(bytes, at, (BaseFields(p.base) + OwnFields(p))[i])
  {
    var fs := BaseFields(p.base) + OwnFields(p);
    FieldsAre(fs, [], i, FieldsSize(fs[..i]));
    FieldBehind(bytes, from, FieldsSize(fs[..i]), fs[i], at);
  }

  lemma BaseFieldIs(p: Plugin, bytes: seq<Byte>, from: nat, i: nat)
    requires HasFields(p, bytes, from) && i < 4
    ensures
      var n := |p.base.inputDims|;
      var at := if i == 0 then 0 else if i == 1 then 8 + 68 * n else if i == 2 then 16 + 68 * n else 20 + 68 * n;
      FieldAt(bytes, from + at, BaseFields(p.base)[i])
  {
    var n := |p.base.inputDims|;
    AllOffsets(p, i);
    FieldsFrom(p, bytes, from, i,
      from + if i == 0 then 0 else if i == 1 then 8 + 68 * n else if i == 2 then 16 + 68 * n else 20 + 68 * n);
    assert (BaseFields(p.base) + OwnFields(p))[i] == BaseFields(p.base)[i];
  }

  lemma OwnFieldIs(p: Plugin, bytes: seq<Byte>, from: nat, i: nat, at: nat)
    requires HasFields(p, bytes, from) && i < |OwnFields(p)|
    requires at == from + (21 + 68 * |p.base.inputDims|) + FieldsSize(OwnFields(p)[..i])
    ensures FieldAt(bytes, at, OwnFields(p)[i])
  {
    AllOffsets(p, 4 + i);
    FieldsFrom(p, bytes, from, 4 + i, at);
    assert (BaseFields(p.base) + OwnFields(p))[4 + i] == OwnFields(p)[i];
  }

  lemma BaseIs(p: Plugin, bytes: seq<Byte>, from: nat)
    requires HasFields(p, bytes, from)
    ensures BaseAt(bytes, from, p.base)
  {
    BaseFieldIs(p, bytes, from, 0);
    BaseFieldIs(p, bytes, from, 1);
    BaseFieldIs(p, bytes, from, 2);
    BaseFieldIs(p, bytes, from, 3);
    BaseFromFields(bytes, from, p.base);
  }

  /** The name of the type, as it is registered. */
  ghost predicate NameAt(bytes: seq<Byte>, at: nat, name: string) {
    at + |name| < |bytes| && bytes[at + |name|] == 0 && forall i :: 0 <= i < |name| ==> bytes[at + i] == name[i] as int
  }

  lemma NamesAreLatin(t: PluginType)
    ensures forall i :: 0 <= i < |TypeName(t)| ==> TypeName(t)[i] as int < 0x100
  {
  }

  lemma HeaderIs(name: string, body: seq<Byte>)
    requires forall i :: 0 <= i < |name| ==> name[i] as int < 0x100
    ensures
      var bytes := PutString(Letters(MAGIC), PutString(Letters(name), body));
      && |bytes| >= 6 + |name| && bytes[..5] == [0x50, 0x76, 0x30, 0x31, 0x00] && NameAt(bytes, 5, name)
      && bytes[6 + |name|..] == body
  {
  }

  /** The length of the magic string and the name, with their zeros. */
  function HeaderSize(p: Plugin): nat {
    match p
    case FancyActivation(_, _, _, _) => 21
    case ResizeNearest(_, _, _) => 19
    case Split(_, _, _) => 11
    case InstanceNormalization(_, _, _, _, _) => 27
  }

  lemma HeaderSizes(p: Plugin)
    ensures HeaderSize(p) == 6 + |TypeName(TypeOf(p))|
  {
  }

  lemma WrappedHasFields(p: Plugin)
    requires ValidPlugin(p)
    ensures HasFields(p, Wrapped(p, []), HeaderSize(p))
  {
    HeaderSizes(p);
    FieldsAreValid(p);
    NamesAreLatin(TypeOf(p));
    HeaderIs(TypeName(TypeOf(p)), PutFields(BaseFields(p.base) + OwnFields(p), []));
  }

  /** The magic string. */
  lemma MagicBytes(p: Plugin)
    requires ValidPlugin(p)
    ensures var bytes := Wrapped(p, []); |bytes| >= 5 && bytes[..5] == [0x50, 0x76, 0x30, 0x31, 0x00]
  {
    FieldsAreValid(p);
    NamesAreLatin(TypeOf(p));
    HeaderIs(TypeName(TypeOf(p)), PutFields(BaseFields(p.base) + OwnFields(p), []));
  }

  /** The name of the type behind it. */
  lemma NameBytes(p: Plugin)
    requires ValidPlugin(p)
    ensures NameAt(Wrapped(p, []), 5, TypeName(TypeOf(p)))
    ensures TypeName(TypeOf(p)) ==
      match p
      case FancyActivation(_, _, _, _) => "FancyActivation"
      case ResizeNearest(_, _, _) => "ResizeNearest"
      case Split(_, _, _) => "Split"
      case InstanceNormalization(_, _, _, _, _) => "InstanceNormalization"
  {
    FieldsAreValid(p);
    NamesAreLatin(TypeOf(p));
    HeaderIs(TypeName(TypeOf(p)), PutFields(BaseFields(p.base) + OwnFields(p), []));
  }

  /** The fields of the base behind the name. */
  lemma BaseBytes(p: Plugin)
    requires ValidPlugin(p)
    ensures BaseAt(Wrapped(p, []), HeaderSize(p), p.base) && HeaderSize(p) == 6 + |TypeName(TypeOf(p))|
  {
    HeaderSizes(p);
    WrappedHasFields(p);
    BaseIs(p, Wrapped(p, []), HeaderSize(p));
  }

  // ----- the plugins' own fields

  lemma OwnNumber(p: Plugin, bytes: seq<Byte>, from: nat, i: nat, at: nat)
    requires HasFields(p, bytes, from) && i < |OwnFields(p)| && OwnFields(p)[i].t.One? && |OwnFields(p)[i].vs| == 1
    requires at == from + (21 + 68 * |p.base.inputDims|) + FieldsSize(OwnFields(p)[..i])
    ensures ValueAt(bytes, at, OwnFields(p)[i].t.kind, OwnFields(p)[i].vs[0])
  {
    OwnFieldIs(p, bytes, from, i, at);
    OneIs(bytes, at, OwnFields(p)[i]);
  }

  lemma OwnVector(p: Plugin, bytes: seq<Byte>, from: nat, i: nat, at: nat)
    requires HasFields(p, bytes, from) && i < |OwnFields(p)|
    requires OwnFields(p)[i].t == Vector(KI32, 1) || OwnFields(p)[i].t == Vector(KU32, 1)
    requires AllInRange(OwnFields(p)[i].t.kind, OwnFields(p)[i].vs)
    requires at == from + (21 + 68 * |p.base.inputDims|) + FieldsSize(OwnFields(p)[..i])
    ensures VectorAt(bytes, at, OwnFields(p)[i].vs)
  {
    OwnFieldIs(p, bytes, from, i, at);
    VectorIs(bytes, at, OwnFields(p)[i]);
  }

  lemma FancyActivationFields(p: Plugin, bytes: seq<Byte>, from: nat, at: nat)
    requires HasFields(p, bytes, from) && p.FancyActivation? && at == from + (21 + 68 * |p.base.inputDims|)
    ensures SignedAt(bytes, at, p.activationType)
    ensures NumberAt(bytes, at + 4, 4, p.alpha) && NumberAt(bytes, at + 8, 4, p.gamma)
  {
    OwnOffsets(OwnFields(p));
    OwnNumber(p, bytes, from, 0, at);
    OwnNumber(p, bytes, from, 1, at + 4);
    OwnNumber(p, bytes, from, 2, at + 8);
  }

  lemma ResizeNearestFields(p: Plugin, bytes: seq<Byte>, from: nat, at: nat)
    requires HasFields(p, bytes, from) && p.ResizeNearest? && at == from + (21 + 68 * |p.base.inputDims|)
    ensures SignedAt(bytes, at, p.ndims) && |p.scale| == 8
    ensures forall i :: 0 <= i < 8 ==> NumberAt(bytes, at + 4 + 4 * i, 4, p.scale[i])
  {
    OwnOffsets(OwnFields(p));
    OwnNumber(p, bytes, from, 0, at);
    OwnFieldIs(p, bytes, from, 1, at + 4);
    forall i | 0 <= i < 8 ensures NumberAt(bytes, at + 4 + 4 * i, 4, p.scale[i]) {
      assert ValueAt(bytes, (at + 4) + 4 * i, KU32, p.scale[i]);
    }
  }

  lemma SplitFields(p: Plugin, bytes: seq<Byte>, from: nat, at: nat)
    requires HasFields(p, bytes, from) && p.Split? && at == from + (21 + 68 * |p.base.inputDims|)
    ensures SignedAt(bytes, at, p.axis) && VectorAt(bytes, at + 4, p.outputLengths)
  {
    OwnOffsets(OwnFields(p));
    OwnNumber(p, bytes, from, 0, at);
    OwnVector(p, bytes, from, 1, at + 4);
  }

  lemma InstanceNormalizationNumbers(p: Plugin, bytes: seq<Byte>, from: nat, at: nat)
    requires HasFields(p, bytes, from) && p.InstanceNormalization? && at == from + (21 + 68 * |p.base.inputDims|)
    ensures NumberAt(bytes, at, 4, p.epsilon) && SignedAt(bytes, at + 4, p.nchan)
  {
    OwnOffsets(OwnFields(p));
    OwnNumber(p, bytes, from, 0, at);
    OwnNumber(p, bytes, from, 1, at + 4);
  }

  lemma InstanceNormalizationVectors(p: Plugin, bytes: seq<Byte>, from: nat, at: nat)
    requires HasFields(p, bytes, from) && p.InstanceNormalization? && at == from + (21 + 68 * |p.base.inputDims|)
    ensures VectorAt(bytes, at + 8, p.scale) && VectorAt(bytes, at + 16 + 4 * |p.scale|, p.bias)
  {
    OwnOffsets(OwnFields(p));
    OwnVector(p, bytes, from, 2, at + 8);
    OwnVector(p, bytes, from, 3, at + 16 + 4 * |p.scale|);
  }

  lemma FancyActivationBytes(p: Plugin)
    requires ValidPlugin(p) && p.FancyActivation?
    ensures
      var bytes, at := Wrapped(p, []), 42 + 68 * |p.base.inputDims|;
      && SignedAt(bytes, at, p.activationType)
      && NumberAt(bytes, at + 4, 4, p.alpha) && NumberAt(bytes, at + 8, 4, p.gamma)
  {
    WrappedHasFields(p);
    FancyActivationFields(p, Wrapped(p, []), HeaderSize(p), 42 + 68 * |p.base.inputDims|);
  }

  lemma ResizeNearestBytes(p: Plugin)
    requires ValidPlugin(p) && p.ResizeNearest?
    ensures
      var bytes, at := Wrapped(p, []), 40 + 68 * |p.base.inputDims|;
      SignedAt(bytes, at, p.ndims) && forall i :: 0 <= i < 8 ==> NumberAt(bytes, at + 4 + 4 * i, 4, p.scale[i])
  {
    WrappedHasFields(p);
    ResizeNearestFields(p, Wrapped(p, []), HeaderSize(p), 40 + 68 * |p.base.inputDims|);
  }

  lemma SplitBytes(p: Plugin)
    requires ValidPlugin(p) && p.Split?
    ensures
      var bytes, at := Wrapped(p, []), 32 + 68 * |p.base.inputDims|;
      SignedAt(bytes, at, p.axis) && VectorAt(bytes, at + 4, p.outputLengths)
  {
    WrappedHasFields(p);
    SplitFields(p, Wrapped(p, []), HeaderSize(p), 32 + 68 * |p.base.inputDims|);
  }

  lemma InstanceNormalizationBytes(p: Plugin)
    requires ValidPlugin(p) && p.InstanceNormalization?
    ensures
      var bytes, at := Wrapped(p, []), 48 + 68 * |p.base.inputDims|;
      NumberAt(bytes, at, 4, p.epsilon) && SignedAt(bytes, at + 4, p.nchan)
  {
    WrappedHasFields(p);
    InstanceNormalizationNumbers(p, Wrapped(p, []), HeaderSize(p), 48 + 68 * |p.base.inputDims|);
  }

  /** And its two vectors behind them. */
  lemma InstanceNormalizationMoreBytes(p: Plugin)
    requires ValidPlugin(p) && p.InstanceNormalization?
    ensures
      var bytes, at := Wrapped(p, []), 48 + 68 * |p.base.inputDims|;
      VectorAt(bytes, at + 8, p.scale) && VectorAt(bytes, at + 16 + 4 * |p.scale|, p.bias)
  {
    WrappedHasFields(p);
    InstanceNormalizationVectors(p, Wrapped(p, []), HeaderSize(p), 48 + 68 * |p.base.inputDims|);
  }
}
