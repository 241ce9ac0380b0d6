/**
 Plugin serialization of 3rdparty/onnx-tensorrt: serialize.hpp, the base fields of plugin.cpp, the type wrapper of
 plugin.hpp, the four built-in plugins and the factory that reads them back. Numbers are little-endian, as memcpy
 leaves them on the supported machines; floats are their bit patterns.
 */
module Plugins {

  import opened Options

  type Byte = x: nat | x < 0x100

  /** A value read, and the bytes after it. */
  datatype Read<T> = Read(value: T, rest: seq<Byte>)

  // ----- plain data

  /** The n low bytes of v, lowest first, before the bytes that follow. */
  function PutLE(v: nat, n: nat, rest: seq<Byte>): seq<Byte> {
    if n == 0 then rest else [v % 0x100] + PutLE(v / 0x100, n - 1, rest)
  }

  function GetLE(n: nat, bytes: seq<Byte>): Option<Read<nat>> {
    if n == 0 then Some(Read(0, bytes))
    else if bytes == [] then None
    else
      var r := GetLE(n - 1, bytes[1..]);
      if r.None? then None else Some(Read(bytes[0] + 0x100 * r.value.value, r.value.rest))
  }

  function Pow256(n: nat): (p: nat)
    ensures p >= 1
  {
    if n == 0 then 1 else 0x100 * Pow256(n - 1)
  }

  lemma {:induction false} LERoundTrip(v: nat, n: nat, rest: seq<Byte>)
    requires v < Pow256(n)
    ensures GetLE(n, PutLE(v, n, rest)) == Some(Read(v, rest))
    ensures |PutLE(v, n, rest)| == n + |rest|
  {
    if n > 0 {
      LERoundTrip(v / 0x100, n - 1, rest);
      assert PutLE(v, n, rest)[1..] == PutLE(v / 0x100, n - 1, rest);
    }
  }

  lemma {:induction false} LEAppend(v: nat, n: nat, a: seq<Byte>, b: seq<Byte>)
    ensures PutLE(v, n, a + b) == PutLE(v, n, a) + b
  {
    if n > 0 { LEAppend(v / 0x100, n - 1, a, b); }
  }

  /** The kinds of plain data, by their size. */
  datatype Kind = KByte | KU32 | KI32 | KU64

  function SizeOf(kind: Kind): nat {
    match kind
    case KByte => 1
    case KU32 => 4
    case KI32 => 4
    case KU64 => 8
  }

  predicate InRange(kind: Kind, v: int) {
    match kind
    case KByte => 0 <= v < 0x100
    case KU32 => 0 <= v < 0x1_0000_0000
    case KI32 => -0x8000_0000 <= v < 0x8000_0000
    case KU64 => 0 <= v < 0x1_0000_0000_0000_0000
  }

  /** The bits of a value as a number, two's complement for the signed kind. */
  function Bits(kind: Kind, v: int): nat
    requires InRange(kind, v)
  {
    if kind.KI32? && v < 0 then v + 0x1_0000_0000 else v
  }

  function FromBits(kind: Kind, bits: nat): int {
    if kind.KI32? && bits >= 0x8000_0000 then bits - 0x1_0000_0000 else bits
  }

  function Put(kind: Kind, v: int, rest: seq<Byte>): seq<Byte>
    requires InRange(kind, v)
  {
    PutLE(Bits(kind, v), SizeOf(kind), rest)
  }

  /** Serializer<T>::deserialize for plain data; the failed assertion of a short buffer is None. */
  function Get(kind: Kind, bytes: seq<Byte>): Option<Read<int>> {
    var r := GetLE(SizeOf(kind), bytes);
    if r.None? then None else Some(Read(FromBits(kind, r.value.value), r.value.rest))
  }

  lemma LimitOf(kind: Kind)
    ensures Pow256(SizeOf(kind)) ==
      match kind case KByte => 0x100 case KU64 => 0x1_0000_0000_0000_0000 case _ => 0x1_0000_0000
  {
    assert Pow256(1) == 0x100 && Pow256(2) == 0x1_0000 && Pow256(3) == 0x100_0000 && Pow256(4) == 0x1_0000_0000;
    assert Pow256(5) == 0x100_0000_0000 && Pow256(6) == 0x1_0000_0000_0000;
    assert Pow256(7) == 0x100_0000_0000_0000 && Pow256(8) == 0x1_0000_0000_0000_0000;
  }

  lemma PodRoundTrip(kind: Kind, v: int, rest: seq<Byte>)
    requires InRange(kind, v)
    ensures Get(kind, Put(kind, v, rest)) == Some(Read(v, rest))
    ensures |Put(kind, v, rest)| == SizeOf(kind) + |rest|
  {
    LimitOf(kind);
    LERoundTrip(Bits(kind, v), SizeOf(kind), rest);
  }

  // ----- runs of plain data

  ghost predicate AllInRange(kind: Kind, vs: seq<int>) {
    forall i :: 0 <= i < |vs| ==> InRange(kind, vs[i])
  }

  function PutAll(kind: Kind, vs: seq<int>, rest: seq<Byte>): seq<Byte>
    requires AllInRange(kind, vs)
  {
    if vs == [] then rest else Put(kind, vs[0], PutAll(kind, vs[1..], rest))
  }

  function GetAll(kind: Kind, n: nat, bytes: seq<Byte>): (r: Option<Read<seq<int>>>)
    ensures r.Some? ==> |r.value.value| == n
  {
    if n == 0 then Some(Read([], bytes))
    else
      var head := Get(kind, bytes);
      if head.None? then None
      else
        var tail := GetAll(kind, n - 1, head.value.rest);
        if tail.None? then None else Some(Read([head.value.value] + tail.value.value, tail.value.rest))
  }

  lemma {:induction false} AllRoundTrip(kind: Kind, vs: seq<int>, rest: seq<Byte>)
    requires AllInRange(kind, vs)
    ensures GetAll(kind, |vs|, PutAll(kind, vs, rest)) == Some(Read(vs, rest))
  {
    if vs != [] {
      AllRoundTrip(kind, vs[1..], rest);
      PodRoundTrip(kind, vs[0], PutAll(kind, vs[1..], rest));
      assert vs == [vs[0]] + vs[1..];
    }
  }

  lemma {:induction false} AllLength(kind: Kind, vs: seq<int>, rest: seq<Byte>)
    requires AllInRange(kind, vs)
    ensures |PutAll(kind, vs, rest)| == |vs| * SizeOf(kind) + |rest|
  {
    if vs != [] {
      AllLength(kind, vs[1..], rest);
      PodRoundTrip(kind, vs[0], PutAll(kind, vs[1..], rest));
    }
  }

  lemma {:induction false} AllAppend(kind: Kind, vs: seq<int>, a: seq<Byte>, b: seq<Byte>)
    requires AllInRange(kind, vs)
    ensures PutAll(kind, vs, a + b) == PutAll(kind, vs, a) + b
  {
    if vs != [] {
      AllAppend(kind, vs[1..], a, b);
      LEAppend(Bits(kind, vs[0]), SizeOf(kind), PutAll(kind, vs[1..], a), b);
    }
  }

  // ----- fields

  /** What one serialize_value call writes: a plain value, a fixed array of them, or a std::vector whose elements are
      `per` values each, preceded by its length. */
  datatype FieldType = One(kind: Kind) | Fixed(kind: Kind, n: nat) | Vector(kind: Kind, per: nat)

  datatype Field = Field(t: FieldType, vs: seq<int>)

  ghost predicate ValidField(f: Field) {
    AllInRange(f.t.kind, f.vs) &&
    match f.t
    case One(_) => |f.vs| == 1
    case Fixed(_, n) => |f.vs| == n
    case Vector(_, per) => per >= 1 && |f.vs| % per == 0 && InRange(KU64, |f.vs| / per)
  }

  function PutField(f: Field, rest: seq<Byte>): seq<Byte>
    requires ValidField(f)
  {
    var body := PutAll(f.t.kind, f.vs, rest);
    if f.t.Vector? then Put(KU64, |f.vs| / f.t.per, body) else body
  }

  function GetField(t: FieldType, bytes: seq<Byte>): Option<Read<seq<int>>> {
    match t
    case One(kind) => GetAll(kind, 1, bytes)
    case Fixed(kind, n) => GetAll(kind, n, bytes)
    case Vector(kind, per) =>
      var n := Get(KU64, bytes);
      if n.None? || n.value.value < 0 then None else GetAll(kind, n.value.value * per, n.value.rest)
  }

  /** serialized_size of a field. */
  function FieldSize(f: Field): nat {
    (if f.t.Vector? then 8 else 0) + |f.vs| * SizeOf(f.t.kind)
  }

  lemma FieldRoundTrip(f: Field, rest: seq<Byte>)
    requires ValidField(f)
    ensures GetField(f.t, PutField(f, rest)) == Some(Read(f.vs, rest))
    ensures |PutField(f, rest)| == FieldSize(f) + |rest|
  {
    AllRoundTrip(f.t.kind, f.vs, rest);
    AllLength(f.t.kind, f.vs, rest);
    if f.t.Vector? {
      PodRoundTrip(KU64, |f.vs| / f.t.per, PutAll(f.t.kind, f.vs, rest));
      assert (|f.vs| / f.t.per) * f.t.per == |f.vs|;
    }
  }

  lemma FieldAppend(f: Field, a: seq<Byte>, b: seq<Byte>)
    requires ValidField(f)
    ensures PutField(f, a + b) == PutField(f, a) + b
  {
    AllAppend(f.t.kind, f.vs, a, b);
    if f.t.Vector? {
      LEAppend(Bits(KU64, |f.vs| / f.t.per), 8, PutAll(f.t.kind, f.vs, a), b);
    }
  }

  ghost predicate ValidFields(fs: seq<Field>) {
    forall i :: 0 <= i < |fs| ==> ValidField(fs[i])
  }

  function PutFields(fs: seq<Field>, rest: seq<Byte>): seq<Byte>
    requires ValidFields(fs)
  {
    if fs == [] then rest else PutField(fs[0], PutFields(fs[1..], rest))
  }

  function GetFields(schema: seq<FieldType>, bytes: seq<Byte>): (r: Option<Read<seq<seq<int>>>>)
    ensures r.Some? ==> |r.value.value| == |schema|
  {
    if schema == [] then Some(Read([], bytes))
    else
      var head := GetField(schema[0], bytes);
      if head.None? then None
      else
        var tail := GetFields(schema[1..], head.value.rest);
        if tail.None? then None else Some(Read([head.value.value] + tail.value.value, tail.value.rest))
  }

  function Types(fs: seq<Field>): (r: seq<FieldType>)
    ensures |r| == |fs| && forall i :: 0 <= i < |fs| ==> r[i] == fs[i].t
  {
    seq(|fs|, i requires 0 <= i < |fs| => fs[i].t)
  }

  function Values(fs: seq<Field>): (r: seq<seq<int>>)
    ensures |r| == |fs| && forall i :: 0 <= i < |fs| ==> r[i] == fs[i].vs
  {
    seq(|fs|, i requires 0 <= i < |fs| => fs[i].vs)
  }

  function FieldsSize(fs: seq<Field>): nat {
    if fs == [] then 0 else FieldSize(fs[0]) + FieldsSize(fs[1..])
  }

  lemma {:induction false} FieldsRoundTrip(fs: seq<Field>, rest: seq<Byte>)
    requires ValidFields(fs)
    ensures GetFields(Types(fs), PutFields(fs, rest)) == Some(Read(Values(fs), rest))
    ensures |PutFields(fs, rest)| == FieldsSize(fs) + |rest|
  {
    if fs != [] {
      FieldsRoundTrip(fs[1..], rest);
      FieldRoundTrip(fs[0], PutFields(fs[1..], rest));
      assert Types(fs)[1..] == Types(fs[1..]);
      assert Values(fs) == [fs[0].vs] + Values(fs[1..]);
    }
  }

  lemma {:induction false} FieldsAppend(fs: seq<Field>, a: seq<Byte>, b: seq<Byte>)
    requires ValidFields(fs)
    ensures PutFields(fs, a + b) == PutFields(fs, a) + b
  {
    if fs != [] {
      FieldsAppend(fs[1..], a, b);
      FieldAppend(fs[0], PutFields(fs[1..], a), b);
    }
  }

  // ----- strings

  predicate NoNul(s: seq<Byte>) {
    forall i :: 0 <= i < |s| ==> s[i] != 0
  }

  function PutString(s: seq<Byte>, rest: seq<Byte>): seq<Byte> {
    s + ([0] + rest)
  }

  /** A C string ends with its zero byte; without one in the buffer the assertion fails. */
  function GetString(bytes: seq<Byte>): Option<Read<seq<Byte>>> {
    if bytes == [] then None
    else if bytes[0] == 0 then Some(Read([], bytes[1..]))
    else
      var r := GetString(bytes[1..]);
      if r.None? then None else Some(Read([bytes[0]] + r.value.value, r.value.rest))
  }

  lemma {:induction false} StringRoundTrip(s: seq<Byte>, rest: seq<Byte>)
    requires NoNul(s)
    ensures GetString(PutString(s, rest)) == Some(Read(s, rest))
  {
    var bytes := PutString(s, rest);
    if s == [] {
      assert bytes == [0] + rest;
    } else {
      StringRoundTrip(s[1..], rest);
      assert bytes[1..] == PutString(s[1..], rest);
      assert s == [s[0]] + s[1..];
    }
  }

  // ----- the plugins

  /** An nvinfer1::Dims: its rank and two arrays of MAX_DIMS entries, as 17 integers. */
  const DIMS_INTS := 17
  const MAX_DIMS := 8

  /** The fields every plugin has. */
  datatype Base = Base(inputDims: seq<seq<int>>, maxBatchSize: int, dataType: int, dataFormat: int)

  datatype Plugin =
    | FancyActivation(base: Base, activationType: int, alpha: int, gamma: int)
    | ResizeNearest(base: Base, ndims: int, scale: seq<int>)
    | Split(base: Base, axis: int, outputLengths: seq<int>)
    | InstanceNormalization(base: Base, epsilon: int, nchan: int, scale: seq<int>, bias: seq<int>)

  /** The fields hold values of their C++ types, and vectors have a size a size_t can count. */
  ghost predicate ValidPlugin(p: Plugin) {
    var b := p.base;
    && InRange(KU64, |b.inputDims|) && InRange(KU64, b.maxBatchSize)
    && InRange(KI32, b.dataType) && InRange(KByte, b.dataFormat)
    && (forall i :: 0 <= i < |b.inputDims| ==> |b.inputDims[i]| == DIMS_INTS && AllInRange(KI32, b.inputDims[i]))
    && match p
      case FancyActivation(_, t, alpha, gamma) => InRange(KI32, t) && InRange(KU32, alpha) && InRange(KU32, gamma)
      case ResizeNearest(_, ndims, scale) => InRange(KI32, ndims) && |scale| == MAX_DIMS && AllInRange(KU32, scale)
      case Split(_, axis, lengths) => InRange(KI32, axis) && AllInRange(KI32, lengths) && InRange(KU64, |lengths|)
      case InstanceNormalization(_, epsilon, nchan, scale, bias) =>
        && InRange(KU32, epsilon) && InRange(KI32, nchan) && AllInRange(KU32, scale) && AllInRange(KU32, bias)
        && InRange(KU64, |scale|) && InRange(KU64, |bias|)
  }

  function Join(dims: seq<seq<int>>): seq<int> {
    if dims == [] then [] else dims[0] + Join(dims[1..])
  }

  function Cut(n: nat, flat: seq<int>): seq<seq<int>> {
    if n == 0 || |flat| < DIMS_INTS then [] else [flat[..DIMS_INTS]] + Cut(n - 1, flat[DIMS_INTS..])
  }

  lemma {:induction false} CutJoin(dims: seq<seq<int>>)
    requires forall i :: 0 <= i < |dims| ==> |dims[i]| == DIMS_INTS && AllInRange(KI32, dims[i])
    ensures |Join(dims)| == |dims| * DIMS_INTS && Cut(|dims|, Join(dims)) == dims && AllInRange(KI32, Join(dims))
  {
    if dims != [] {
      CutJoin(dims[1..]);
      assert Join(dims)[..DIMS_INTS] == dims[0] && Join(dims)[DIMS_INTS..] == Join(dims[1..]);
    }
  }

  /** What serializeBase writes. */
  function BaseFields(b: Base): seq<Field> {
    [Field(Vector(KI32, DIMS_INTS), Join(b.inputDims)), Field(One(KU64), [b.maxBatchSize]),
     Field(One(KI32), [b.dataType]), Field(One(KByte), [b.dataFormat])]
  }

  /** What the plugin's own serialize writes after that. */
  function OwnFields(p: Plugin): seq<Field> {
    match p
    case FancyActivation(_, t, alpha, gamma) =>
      [Field(One(KI32), [t]), Field(One(KU32), [alpha]), Field(One(KU32), [gamma])]
    case ResizeNearest(_, ndims, scale) => [Field(One(KI32), [ndims]), Field(Fixed(KU32, MAX_DIMS), scale)]
    case Split(_, axis, lengths) => [Field(One(KI32), [axis]), Field(Vector(KI32, 1), lengths)]
    case InstanceNormalization(_, epsilon, nchan, scale, bias) =>
      [Field(One(KU32), [epsilon]), Field(One(KI32), [nchan]), Field(Vector(KU32, 1), scale),
        Field(Vector(KU32, 1), bias)]
  }

  lemma FieldsAreValid(p: Plugin)
    requires ValidPlugin(p)
    ensures ValidFields(BaseFields(p.base)) && ValidFields(OwnFields(p)) &&
      ValidFields(BaseFields(p.base) + OwnFields(p))
  {
    CutJoin(p.base.inputDims);
    assert (|p.base.inputDims| * DIMS_INTS) / DIMS_INTS == |p.base.inputDims|;
  }

  datatype PluginType = TFancyActivation | TResizeNearest | TSplit | TInstanceNormalization

  function TypeOf(p: Plugin): PluginType {
    match p
    case FancyActivation(_, _, _, _) => TFancyActivation
    case ResizeNearest(_, _, _) => TResizeNearest
    case Split(_, _, _) => TSplit
    case InstanceNormalization(_, _, _, _, _) => TInstanceNormalization
  }

  /** The types deserializeBase and then the plugin's deserialize read. */
  function Schema(t: PluginType): seq<FieldType> {
    [Vector(KI32, DIMS_INTS), One(KU64), One(KI32), One(KByte)] +
    match t
    case TFancyActivation => [One(KI32), One(KU32), One(KU32)]
    case TResizeNearest => [One(KI32), Fixed(KU32, MAX_DIMS)]
    case TSplit => [One(KI32), Vector(KI32, 1)]
    case TInstanceNormalization => [One(KU32), One(KI32), Vector(KU32, 1), Vector(KU32, 1)]
  }

  /** The constructor that deserializes. */
  function Build(t: PluginType, v: seq<seq<int>>): Option<Plugin>
    requires |v| == |Schema(t)|
  {
    if |v[1]| != 1 || |v[2]| != 1 || |v[3]| != 1 then None
    else
      var base := Base(Cut(|v[0]| / DIMS_INTS, v[0]), v[1][0], v[2][0], v[3][0]);
      match t
      case TFancyActivation =>
        if |v[4]| != 1 || |v[5]| != 1 || |v[6]| != 1 then None
        else Some(FancyActivation(base, v[4][0], v[5][0], v[6][0]))
      case TResizeNearest => if |v[4]| != 1 then None else Some(ResizeNearest(base, v[4][0], v[5]))
      case TSplit => if |v[4]| != 1 then None else Some(Split(base, v[4][0], v[5]))
      case TInstanceNormalization =>
        if |v[4]| != 1 || |v[5]| != 1 then None
        else Some(InstanceNormalization(base, v[4][0], v[5][0], v[6], v[7]))
  }

  lemma BuildRestores(p: Plugin)
    requires ValidPlugin(p)
    ensures
      var fs := BaseFields(p.base) + OwnFields(p);
      Types(fs) == Schema(TypeOf(p)) && Build(TypeOf(p), Values(fs)) == Some(p)
  {
    CutJoin(p.base.inputDims);
    assert (|p.base.inputDims| * DIMS_INTS) / DIMS_INTS == |p.base.inputDims|;
    var fs := BaseFields(p.base) + OwnFields(p);
    assert Types(fs) == Schema(TypeOf(p));
  }

  // ----- the factory

  /** The letters of a type name. */
  function Letters(s: string): (r: seq<Byte>)
    ensures |r| == |s| && forall i :: 0 <= i < |s| ==> r[i] == s[i] as int % 0x100
  {
    seq(|s|, i requires 0 <= i < |s| => s[i] as int % 0x100)
  }

  const MAGIC := "Pv01"

  function TypeName(t: PluginType): string {
    match t
    case TFancyActivation => "FancyActivation"
    case TResizeNearest => "ResizeNearest"
    case TSplit => "Split"
    case TInstanceNormalization => "InstanceNormalization"
  }

  lemma NamesAreStrings(t: PluginType)
    ensures NoNul(Letters(MAGIC)) && NoNul(Letters(TypeName(t)))
  {
  }

  /** The registry's entry for a name. */
  function Registered(name: seq<Byte>): Option<PluginType> {
    if name == Letters(TypeName(TFancyActivation)) then Some(TFancyActivation)
    else if name == Letters(TypeName(TResizeNearest)) then Some(TResizeNearest)
    else if name == Letters(TypeName(TSplit)) then Some(TSplit)
    else if name == Letters(TypeName(TInstanceNormalization)) then Some(TInstanceNormalization)
    else None
  }

  lemma RegisteredUnderItsName(t: PluginType)
    ensures Registered(Letters(TypeName(t))) == Some(t)
  {
    assert |TypeName(TFancyActivation)| == 15 && |TypeName(TResizeNearest)| == 13;
    assert |TypeName(TSplit)| == 5 && |TypeName(TInstanceNormalization)| == 21;
  }

  /** What TypeSerializingPlugin::serialize writes, before the bytes that follow. */
  function Wrapped(p: Plugin, rest: seq<Byte>): seq<Byte>
    requires ValidPlugin(p)
  {
    FieldsAreValid(p);
    PutString(Letters(MAGIC),
      PutString(Letters(TypeName(TypeOf(p))), PutFields(BaseFields(p.base) + OwnFields(p), rest)))
  }

  datatype Created = NotAPlugin | NotRegistered | Aborted | Created(plugin: Plugin, rest: seq<Byte>)

  /** createPlugin. */
  function CreatePlugin(data: seq<Byte>): Created {
    var magic := GetString(data);
    if magic.None? then Aborted
    else if magic.value.value != Letters(MAGIC) then NotAPlugin
    else
      var name := GetString(magic.value.rest);
      if name.None? then Aborted else CreateNamed(name.value.value, name.value.rest)
  }

  function CreateNamed(name: seq<Byte>, bytes: seq<Byte>): Created {
    var t := Registered(name);
    if t.None? then NotRegistered else Construct(t.value, bytes)
  }

  /** The registered constructor of a plugin, on the bytes after its type name. */
  function Construct(t: PluginType, bytes: seq<Byte>): Created {
    var fields := GetFields(Schema(t), bytes);
    if fields.None? then Aborted
    else
      var p := Build(t, fields.value.value);
      if p.None? then Aborted else Created(p.value, fields.value.rest)
  }

  /** getBaseSerializationSize: a vector of Dims, a size_t, an enumeration and a one-byte enumeration. */
  function BaseSize(b: Base): nat {
    (8 + 68 * |b.inputDims|) + 8 + 4 + 1
  }

  /** getSerializationSize of the wrapped plugin, with the terminator of the magic string counted by sizeof. */
  function WrappedSize(p: Plugin): nat {
    (|MAGIC| + 1) + 1 + |TypeName(TypeOf(p))| + BaseSize(p.base) +
    match p
    case FancyActivation(_, _, _, _) => 4 + 4 + 4
    case ResizeNearest(_, _, _) => 4 + 4 * MAX_DIMS
    case Split(_, _, lengths) => 4 + (8 + 4 * |lengths|)
    case InstanceNormalization(_, _, _, scale, bias) => 4 + 4 + (8 + 4 * |scale|) + (8 + 4 * |bias|)
  }

  /** Whatever follows it, a serialized plugin reads back as itself, using up the bytes that were written; and those are
      as many as getSerializationSize says. */
  lemma PluginRoundTrip(p: Plugin, rest: seq<Byte>)
    requires ValidPlugin(p)
    ensures CreatePlugin(Wrapped(p, []) + rest) == Created(p, rest)
    ensures |Wrapped(p, [])| == WrappedSize(p)
  {
    var t := TypeOf(p);
    var fs := BaseFields(p.base) + OwnFields(p);
    FieldsAreValid(p);
    WrappedAppend(p, rest);
    NamesAreStrings(t);
    var body := PutFields(fs, rest);
    StringRoundTrip(Letters(MAGIC), PutString(Letters(TypeName(t)), body));
    StringRoundTrip(Letters(TypeName(t)), body);
    RegisteredUnderItsName(t);
    FieldsRoundTrip(fs, rest);
    BuildRestores(p);
    FieldsRoundTrip(fs, []);
    SizesAgree(p);
  }

  lemma WrappedAppend(p: Plugin, rest: seq<Byte>)
    requires ValidPlugin(p)
    ensures Wrapped(p, []) + rest == Wrapped(p, rest)
  {
    var fs := BaseFields(p.base) + OwnFields(p);
    FieldsAreValid(p);
    FieldsAppend(fs, [], rest);
    assert [] + rest == rest;
    var body, name := PutFields(fs, []), Letters(TypeName(TypeOf(p)));
    assert PutString(name, body) + rest == PutString(name, body + rest);
    assert PutString(Letters(MAGIC), PutString(name, body)) + rest ==
      PutString(Letters(MAGIC), PutString(name, body) + rest);
  }

  lemma SizesAgree(p: Plugin)
    requires ValidPlugin(p)
    ensures (|MAGIC| + 1) + (|TypeName(TypeOf(p))| + 1) + FieldsSize(BaseFields(p.base) + OwnFields(p)) ==
      WrappedSize(p)
  {
    FieldsSizeConcat(BaseFields(p.base), OwnFields(p));
    BaseSizesAgree(p.base);
    FewFields(OwnFields(p));
  }

  lemma BaseSizesAgree(b: Base)
    requires forall i :: 0 <= i < |b.inputDims| ==> |b.inputDims[i]| == DIMS_INTS && AllInRange(KI32, b.inputDims[i])
    ensures FieldsSize(BaseFields(b)) == BaseSize(b)
  {
    CutJoin(b.inputDims);
    FewFields(BaseFields(b));
  }

  lemma FewFields(fs: seq<Field>)
    requires 2 <= |fs| <= 4
    ensures FieldsSize(fs) == FieldSize(fs[0]) + FieldSize(fs[1]) +
      (if |fs| > 2 then FieldSize(fs[2]) else 0) + (if |fs| > 3 then FieldSize(fs[3]) else 0)
  {
    assert fs[1..][1..] == fs[2..];
    assert |fs| > 2 ==> fs[2..][1..] == fs[3..];
    assert |fs| > 3 ==> fs[3..][1..] == [];
  }

  lemma {:induction false} FieldsSizeConcat(a: seq<Field>, b: seq<Field>)
    ensures FieldsSize(a + b) == FieldsSize(a) + FieldsSize(b)
  {
    if a == [] {
      assert a + b == b;
    } else {
      assert (a + b)[1..] == a[1..] + b;
      FieldsSizeConcat(a[1..], b);
    }
  }

  // ----- writing through a cursor

  /** The buffer serialize is given, and the position it advances. */
  class Cursor {
    const buffer: array<Byte>
    const start: nat
    var pos: nat

    constructor (buffer: array<Byte>, start: nat)
      ensures this.buffer == buffer && this.start == start && pos == start
    {
      this.buffer, this.start, pos := buffer, start, start;
    }

    ghost predicate Valid()
      reads this
    {
      start <= pos <= buffer.Length
    }

    ghost function Written(): seq<Byte>
      requires Valid()
      reads this, buffer
    {
      buffer[start..pos]
    }

    /** Copies bytes and moves the position behind them. `rest` is what is still to be written of `all`. */
    method Write(bytes: seq<Byte>, ghost rest: seq<Byte>, ghost all: seq<Byte>)
      requires Valid() && start + |all| <= buffer.Length && Written() + (bytes + rest) == all
      modifies this, buffer
      ensures Valid() && Written() + rest == all
      ensures pos == old(pos) + |bytes|
      ensures forall k :: 0 <= k < start || pos <= k < buffer.Length ==> buffer[k] == old(buffer[k])
    {
      ghost var before := Written();
      assert |all| == |before| + |bytes| + |rest|;
      forall i | 0 <= i < |bytes| { buffer[pos + i] := bytes[i]; }
      pos := pos + |bytes|;
      assert Written() == before + bytes;
      assert (before + bytes) + rest == before + (bytes + rest);
    }

    /** serializeBase and serialize: field after field. */
    method WriteFields(fs: seq<Field>, ghost all: seq<Byte>)
      requires Valid() && ValidFields(fs) && start + |all| <= buffer.Length && Written() + PutFields(fs, []) == all
      modifies this, buffer
      ensures Valid() && Written() == all
      ensures forall k :: 0 <= k < start || pos <= k < buffer.Length ==> buffer[k] == old(buffer[k])
    {
      for i := 0 to |fs|
        invariant Valid() && Written() + PutFields(fs[i..], []) == all
        invariant forall k :: 0 <= k < start || pos <= k < buffer.Length ==> buffer[k] == old(buffer[k])
      {
        var bytes := PutField(fs[i], []);
        FieldAppend(fs[i], [], PutFields(fs[i + 1..], []));
        assert fs[i..][0] == fs[i] && fs[i..][1..] == fs[i + 1..];
        assert [] + PutFields(fs[i + 1..], []) == PutFields(fs[i + 1..], []);
        Write(bytes, PutFields(fs[i + 1..], []), all);
      }
    }

    /** TypeSerializingPlugin::serialize: with room for getSerializationSize bytes it stays inside the buffer, fills
        exactly that many, and leaves what createPlugin reads back. */
    method Serialize(p: Plugin)
      requires Valid() && pos == start && ValidPlugin(p) && start + WrappedSize(p) <= buffer.Length
      modifies this, buffer
      ensures Valid() && pos == start + WrappedSize(p) && Written() == Wrapped(p, [])
      ensures forall k :: 0 <= k < start || pos <= k < buffer.Length ==> buffer[k] == old(buffer[k])
    {
      ghost var all := Wrapped(p, []);
      PluginRoundTrip(p, []);
      FieldsAreValid(p);
      var name := Letters(TypeName(TypeOf(p)));
      var fs := BaseFields(p.base) + OwnFields(p);
      ghost var body := PutFields(fs, []);
      assert Written() == [];
      StringAppend(Letters(MAGIC), PutString(name, body));
      Write(PutString(Letters(MAGIC), []), PutString(name, body), all);
      StringAppend(name, body);
      Write(PutString(name, []), body, all);
      WriteFields(fs, all);
    }
  }

  // ----- reading through a cursor

  lemma {:induction false} GetLELength(n: nat, bytes: seq<Byte>)
    ensures GetLE(n, bytes).Some? <==> |bytes| >= n
    ensures |bytes| >= n ==> GetLE(n, bytes).value.rest == bytes[n..]
  {
    if n > 0 && bytes != [] {
      GetLELength(n - 1, bytes[1..]);
    }
  }

  lemma {:induction false} GetAllLength(kind: Kind, n: nat, bytes: seq<Byte>)
    ensures GetAll(kind, n, bytes).Some? <==> |bytes| >= n * SizeOf(kind)
    ensures |bytes| >= n * SizeOf(kind) ==> GetAll(kind, n, bytes).value.rest == bytes[n * SizeOf(kind)..]
  {
    if n > 0 {
      var size := SizeOf(kind);
      assert n * size == size + (n - 1) * size;
      GetLELength(size, bytes);
      if |bytes| >= size {
        GetAllLength(kind, n - 1, bytes[size..]);
      }
    }
  }

  lemma {:induction false} GetStringLength(bytes: seq<Byte>)
    ensures GetString(bytes).Some? ==>
      var r := GetString(bytes).value; |r.value| < |bytes| && r.rest == bytes[|r.value| + 1..]
  {
    if bytes != [] {
      GetStringLength(bytes[1..]);
    }
  }

  /** What is read after vs. */
  function After<T>(vs: seq<T>, r: Option<Read<seq<T>>>): Option<Read<seq<T>>> {
    if r.None? then None else Some(Read(vs + r.value.value, r.value.rest))
  }

  /** The position and the remaining length that deserialize moves together. */
  class Reader {
    const data: seq<Byte>
    var pos: nat
    var length: nat

    constructor (data: seq<Byte>)
      ensures this.data == data && Valid() && Rest() == data
    {
      this.data, pos, length := data, 0, |data|;
    }

    ghost predicate Valid()
      reads this
    {
      pos + length == |data|
    }

    function Rest(): seq<Byte>
      requires Valid()
      reads this
    {
      data[pos..]
    }

    method Advance(n: nat)
      requires Valid() && n <= length
      modifies this
      ensures Valid() && Rest() == old(Rest())[n..]
    {
      pos := pos + n;
      length := length - n;
    }

    /** deserialize of n plain values in one copy; None is the failed assertion. */
    method ReadAll(kind: Kind, n: nat) returns (r: Option<seq<int>>)
      requires Valid()
      modifies this
      ensures Valid()
      ensures r.Some? <==> GetAll(kind, n, old(Rest())).Some?
      ensures r.Some? ==> GetAll(kind, n, old(Rest())) == Some(Read(r.value, Rest()))
    {
      var nbyte := n * SizeOf(kind);
      GetAllLength(kind, n, Rest());
      if length < nbyte {
        return None;
      }
      r := Some(GetAll(kind, n, Rest()).value.value);
      Advance(nbyte);
    }

    method ReadField(t: FieldType) returns (r: Option<seq<int>>)
      requires Valid()
      modifies this
      ensures Valid()
      ensures r.Some? <==> GetField(t, old(Rest())).Some?
      ensures r.Some? ==> GetField(t, old(Rest())) == Some(Read(r.value, Rest()))
    {
      match t {
        case One(kind) => r := ReadAll(kind, 1);
        case Fixed(kind, n) => r := ReadAll(kind, n);
        case Vector(kind, per) =>
          OneValue(KU64, Rest());
          var size := ReadAll(KU64, 1);
          if size.None? || size.value[0] < 0 {
            return None;
          }
          r := ReadAll(kind, size.value[0] * per);
      }
    }

    method ReadString() returns (r: Option<seq<Byte>>)
      requires Valid()
      modifies this
      ensures Valid()
      ensures r.Some? <==> GetString(old(Rest())).Some?
      ensures r.Some? ==> GetString(old(Rest())) == Some(Read(r.value, Rest()))
    {
      GetStringLength(Rest());
      var s := GetString(Rest());
      if s.None? {
        return None;
      }
      Advance(|s.value.value| + 1);
      r := Some(s.value.value);
    }

    /** deserializeBase and deserialize: field after field. */
    method ReadFields(schema: seq<FieldType>) returns (r: Option<seq<seq<int>>>)
      requires Valid()
      modifies this
      ensures Valid()
      ensures r.Some? <==> GetFields(schema, old(Rest())).Some?
      ensures r.Some? ==> GetFields(schema, old(Rest())) == Some(Read(r.value, Rest()))
    {
      var vs: seq<seq<int>> := [];
      ghost var whole := GetFields(schema, Rest());
      assert schema[0..] == schema;
      AfterNone(whole);
      for i := 0 to |schema|
        invariant Valid() && whole == After(vs, GetFields(schema[i..], Rest()))
      {
        FieldsFrom(schema, i, Rest());
        var v := ReadField(schema[i]);
        if v.None? {
          return None;
        }
        AfterBoth(vs, v.value, GetFields(schema[i + 1..], Rest()));
        vs := vs + [v.value];
      }
      AfterSome(vs, [], Rest());
      r := Some(vs);
    }

    /** createPlugin up to the plugin it makes. */
    method ReadWrapped() returns (r: Created)
      requires Valid()
      modifies this
      ensures r == CreatePlugin(old(Rest()))
    {
      var magic := ReadString();
      if magic.None? {
        return Aborted;
      }
      if magic.value != Letters(MAGIC) {
        return NotAPlugin;
      }
      var name := ReadString();
      if name.None? {
        return Aborted;
      }
      r := ReadNamed(name.value);
    }

    method ReadNamed(name: seq<Byte>) returns (r: Created)
      requires Valid()
      modifies this
      ensures r == CreateNamed(name, old(Rest()))
    {
      var t := Registered(name);
      if t.None? {
        return NotRegistered;
      }
      r := ReadPlugin(t.value);
    }

    method ReadPlugin(t: PluginType) returns (r: Created)
      requires Valid()
      modifies this
      ensures Valid() && r == Construct(t, old(Rest()))
    {
      var fields := ReadFields(Schema(t));
      if fields.None? {
        return Aborted;
      }
      var plugin := Build(t, fields.value);
      if plugin.None? {
        return Aborted;
      }
      r := Created(plugin.value, Rest());
    }
  }

  lemma AfterNone<T>(r: Option<Read<seq<T>>>)
    ensures After([], r) == r
  {
    if r.Some? {
      assert [] + r.value.value == r.value.value;
    }
  }

  lemma AfterSome<T>(vs: seq<T>, ws: seq<T>, rest: seq<Byte>)
    ensures After(vs, Some(Read(ws, rest))) == Some(Read(vs + ws, rest))
    ensures vs + [] == vs
  {
  }

  lemma AfterBoth<T>(vs: seq<T>, v: T, r: Option<Read<seq<T>>>)
    ensures After(vs, After([v], r)) == After(vs + [v], r)
  {
    if r.Some? {
      assert vs + ([v] + r.value.value) == (vs + [v]) + r.value.value;
    }
  }

  lemma OneValue(kind: Kind, bytes: seq<Byte>)
    ensures GetAll(kind, 1, bytes).Some? <==> Get(kind, bytes).Some?
    ensures Get(kind, bytes).Some? ==>
      GetAll(kind, 1, bytes) == Some(Read([Get(kind, bytes).value.value], Get(kind, bytes).value.rest))
  {
    var r := Get(kind, bytes);
    if r.Some? {
      assert GetAll(kind, 0, r.value.rest) == Some(Read([], r.value.rest));
      assert [r.value.value] + [] == [r.value.value];
    }
  }

  lemma FieldsFrom(schema: seq<FieldType>, i: nat, bytes: seq<Byte>)
    requires i < |schema|
    ensures
      var head := GetField(schema[i], bytes);
      GetFields(schema[i..], bytes) ==
        if head.None? then None else After([head.value.value], GetFields(schema[i + 1..], head.value.rest))
  {
    assert schema[i..][1..] == schema[i + 1..];
  }

  method ReadData(data: seq<Byte>) returns (r: Created)
    ensures r == CreatePlugin(data)
  {
    var reader := new Reader(data);
    r := reader.ReadWrapped();
  }

  /** The factory keeps every plugin it has made. */
  class PluginFactory {
    var owned: seq<Plugin>

    constructor ()
      ensures owned == []
    {
      owned := [];
    }

    method Create(data: seq<Byte>) returns (r: Created)
      modifies this
      ensures r == CreatePlugin(data)
      ensures owned == if r.Created? then old(owned) + [r.plugin] else old(owned)
    {
      r := ReadData(data);
      if r.Created? {
        owned := owned + [r.plugin];
      }
    }
  }

  lemma StringAppend(s: seq<Byte>, rest: seq<Byte>)
    ensures PutString(s, rest) == PutString(s, []) + rest
  {
  }
}
