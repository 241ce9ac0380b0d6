/**
 The Softmax importer (3rdparty/onnx-tensorrt/builtin_op_importers.cpp): flatten from the axis on, move the axis to the
 front, apply a layer along dimension 0, move the front back, restore the shape. A skipped move leaves the layer
 working on the wrong dimension; the exact condition is proved, for every layer that treats each fibre by itself.
 */
module Softmax {
  import opened Arithmetic
  import opened RowMajor
  import opened Shuffle
  import opened MoveDimension

  ghost predicate KeepsShape<T(!new)>(layer: Tensor<T> -> Tensor<T>) {
    forall x :: Valid(x) ==> layer(x).shape == x.shape && Valid(layer(x))
  }

  /** The importer around a layer that keeps the shape of its input. */
  ghost function SoftmaxImport<T(!new)>(t: Tensor<T>, axis: nat, layer: Tensor<T> -> Tensor<T>): (u: Tensor<T>)
    requires Valid(t) && axis < |t.shape|
    requires KeepsShape(layer)
    ensures Valid(u) && u.shape == t.shape
  {
    SizeFlattened(t.shape, axis);
    var front := Move(Reshape(t, FlattenedShape(t.shape, axis)), axis, 0);
    var out := Move(layer(front), 0, axis);
    MoveKeepsSize(Reshape(t, FlattenedShape(t.shape, axis)), axis, 0);
    MoveKeepsSize(layer(front), 0, axis);
    Reshape(out, t.shape)
  }

  /** The shapes on which Softmax scrambles its result. */
  predicate SoftmaxScrambles(shape: Shape, axis: nat)
    requires axis < |shape|
  {
    Size(shape[axis..]) == 1 && shape[0] != 1 && exists j :: 1 <= j < axis && shape[j] != 1
  }

  /** Around a layer that leaves its input alone, the importer gives back its input for every content, exactly when
      the shape is not one of those. */
  lemma SoftmaxLayoutIff(shape: Shape, axis: nat)
    requires axis < |shape| && Positive(shape)
    ensures !SoftmaxScrambles(shape, axis) <==>
      forall data: seq<nat> :: |data| == Size(shape) ==>
        SoftmaxImport(Tensor(shape, data), axis, (x: Tensor<nat>) => x) == Tensor(shape, data)
  {
    var flat := FlattenedShape(shape, axis);
    FlattenedScrambles(shape, axis);
    MoveAndBackIff(flat, axis);
    forall data: seq<nat> | |data| == Size(shape)
      ensures SoftmaxImport(Tensor(shape, data), axis, (x: Tensor<nat>) => x) ==
        Tensor(shape, MoveAndBack(Tensor(flat, data), axis).data)
    {
      IdentityImport(shape, axis, data);
    }
  }

  lemma FlattenedScrambles(shape: Shape, axis: nat)
    requires axis < |shape| && Positive(shape)
    ensures
      var flat := FlattenedShape(shape, axis);
      Size(flat) == Size(shape) && Positive(flat) && (SoftmaxScrambles(shape, axis) <==> MoveBackFails(flat, axis))
  {
    SizeFlattened(shape, axis);
    SizePositive(shape[axis..]);
    FlattenedDims(shape, axis);
  }

  lemma FlattenedDims(shape: Shape, axis: nat)
    requires axis < |shape|
    ensures
      var flat := FlattenedShape(shape, axis);
      && flat[axis] == Size(shape[axis..])
      && (forall j :: 0 <= j < axis ==> flat[j] == shape[j])
      && forall j :: axis < j < |shape| ==> flat[j] == 1
  {
  }

  lemma IdentityImport(shape: Shape, axis: nat, data: seq<nat>)
    requires axis < |shape| && |data| == Size(shape)
    ensures Size(FlattenedShape(shape, axis)) == Size(shape)
    ensures SoftmaxImport(Tensor(shape, data), axis, (x: Tensor<nat>) => x) ==
      Tensor(shape, MoveAndBack(Tensor(FlattenedShape(shape, axis), data), axis).data)
  {
    SizeFlattened(shape, axis);
  }

  // ----- what the layer is given

  /** The elements of t along dimension 0, at idx in the other dimensions. */
  ghost function FibreAt<T>(t: Tensor<T>, idx: Index): (r: seq<T>)
    requires Valid(t) && t.shape != [] && InBounds(t.shape[1..], idx)
    ensures |r| == t.shape[0] && forall i :: 0 <= i < t.shape[0] ==>
      InBounds(t.shape, [i] + idx) && r[i] == At(t, [i] + idx)
  {
    assert forall i: nat :: i < t.shape[0] ==> InBounds(t.shape, [i] + idx);
    seq(t.shape[0], i requires 0 <= i < t.shape[0] => At(t, [i] + idx))
  }

  /** The layer is f on every fibre of dimension 0. */
  ghost predicate Fibrewise<T(!new)>(layer: Tensor<T> -> Tensor<T>, f: seq<T> -> seq<T>) {
    && KeepsShape(layer) && (forall s :: |f(s)| == |s|)
    && forall t, i: nat, idx :: Valid(t) && t.shape != [] && InBounds(t.shape[1..], idx) && i < t.shape[0] ==>
      FibreMapped(layer, f, t, i, idx)
  }

  ghost predicate FibreMapped<T(!new)>(layer: Tensor<T> -> Tensor<T>, f: seq<T> -> seq<T>, t: Tensor<T>, i: nat,
                                       idx: Index)
    requires KeepsShape(layer) && (forall s :: |f(s)| == |s|)
    requires Valid(t) && t.shape != [] && InBounds(t.shape[1..], idx) && i < t.shape[0]
  {
    assert |FibreAt(t, idx)| == t.shape[0];
    At(layer(t), [i] + idx) == f(FibreAt(t, idx))[i]
  }

  /** The elements at c, c + r, c + 2r and so on. */
  ghost function Strided<T>(data: seq<T>, n: nat, r: nat, c: nat): (s: seq<T>)
    requires c < r && |data| == n * r
    ensures |s| == n && forall i :: 0 <= i < n ==> InRow(i, n, r, c) && s[i] == data[i * r + c]
  {
    assert forall i: nat :: i < n ==> InRow(i, n, r, c) by {
      forall i: nat | i < n ensures InRow(i, n, r, c) { RowBelow(i, n, r, c); }
    }
    seq(n, i requires 0 <= i < n => assert InRow(i, n, r, c); data[i * r + c])
  }

  predicate InRow(i: nat, n: nat, r: nat, c: nat) { i * r + c < n * r }

  lemma RowBelow(i: nat, n: nat, r: nat, c: nat)
    requires i < n && c < r
    ensures InRow(i, n, r, c)
  {
    MulMono(i + 1, n, r);
    assert (i + 1) * r == i * r + r;
  }

  /** A fibrewise layer in terms of offsets. */
  lemma FibrewiseFlat<T(!new)>(layer: Tensor<T> -> Tensor<T>, f: seq<T> -> seq<T>, t: Tensor<T>, n: nat, rest: Shape,
                               i: nat, c: nat)
    requires Fibrewise(layer, f) && Valid(t) && t.shape == [n] + rest && i < n && c < Size(rest)
    ensures |t.data| == n * Size(rest) && |layer(t).data| == n * Size(rest) && InRow(i, n, Size(rest), c)
    ensures layer(t).data[i * Size(rest) + c] == f(Strided(t.data, n, Size(rest), c))[i]
  {
    var idx := Unflat(rest, c);
    assert t.shape[1..] == rest;
    SizeCons(n, rest);
    RowBelow(i, n, Size(rest), c);
    FibreIsStrided(t, n, rest, c);
    assert FibreMapped(layer, f, t, i, idx);
    FlatInFibre(n, rest, i, c);
  }

  lemma FlatInFibre(n: nat, rest: Shape, i: nat, c: nat)
    requires c < Size(rest)
    ensures Flat([n] + rest, [i] + Unflat(rest, c)) == i * Size(rest) + c
  {
    FlatUnflat(rest, c);
    FlatCons(n, rest, i, Unflat(rest, c));
  }

  lemma FibreIsStrided<T>(t: Tensor<T>, n: nat, rest: Shape, c: nat)
    requires Valid(t) && t.shape == [n] + rest && c < Size(rest)
    ensures t.shape[1..] == rest && |t.data| == n * Size(rest)
    ensures FibreAt(t, Unflat(rest, c)) == Strided(t.data, n, Size(rest), c)
  {
    SizeCons(n, rest);
    assert t.shape[1..] == rest;
    forall j: nat | j < n ensures Flat(t.shape, [j] + Unflat(rest, c)) == j * Size(rest) + c {
      FlatInFibre(n, rest, j, c);
    }
  }

  // ----- what moving does to offsets

  lemma PermuteFront<T>(a: seq<T>, x: T, b: seq<T>)
    ensures
      var n := |a| + 1 + |b|;
      && Permute(MovePerm(n, |a|, 0), a + ([x] + b)) == [x] + (a + b)
      && Permute(MovePerm(n, 0, |a|), [x] + (a + b)) == a + ([x] + b)
  {
  }

  /** The offsets of one element before and after its axis is moved past head. */
  lemma MovedOffsets(head: Shape, d: nat, k: nat, p: nat, g: nat) returns (idx: Index, moved: Index)
    requires p < Size(head) && g < d
    ensures InBounds(head + ([d] + Ones(k)), idx) && Flat(head + ([d] + Ones(k)), idx) == p * d + g
    ensures InBounds([d] + (head + Ones(k)), moved) && Flat([d] + (head + Ones(k)), moved) == g * Size(head) + p
    ensures
      var n := |head| + 1 + k;
      Permute(MovePerm(n, |head|, 0), idx) == moved && Permute(MovePerm(n, 0, |head|), moved) == idx
  {
    var h, z := Unflat(head, p), Unit(k, k);
    idx, moved := h + ([g] + z), [g] + (h + z);
    PermuteFront(h, g, z);
    FlatUnflat(head, p);
    BehindOffset(head, d, k, h, g);
    FrontOffset(head, d, k, h, g);
  }

  lemma BehindOffset(head: Shape, d: nat, k: nat, h: Index, g: nat)
    requires |h| == |head|
    ensures Flat(head + ([d] + Ones(k)), h + ([g] + Unit(k, k))) == Flat(head, h) * d + g
  {
    var z := Unit(k, k);
    FlatZero(Ones(k), z);
    SizeOnes(k);
    SizeCons(d, Ones(k));
    FlatCons(d, Ones(k), g, z);
    FlatConcat(head, [d] + Ones(k), h, [g] + z);
  }

  lemma FrontOffset(head: Shape, d: nat, k: nat, h: Index, g: nat)
    requires |h| == |head|
    ensures Flat([d] + (head + Ones(k)), [g] + (h + Unit(k, k))) == g * Size(head) + Flat(head, h)
  {
    var z := Unit(k, k);
    FlatZero(Ones(k), z);
    SizeOnes(k);
    SizeConcat(head, Ones(k));
    FlatConcat(head, Ones(k), h, z);
    FlatCons(d, head + Ones(k), g, h + z);
  }

  /** Skipped or not, moving takes the element at idx to the offset of the moved index in the moved shape. */
  lemma MovedData<T>(t: Tensor<T>, from: nat, to: nat, idx: Index, shape: Shape, moved: Index)
    requires Valid(t) && from < |t.shape| && to < |t.shape| && InBounds(t.shape, idx)
    requires shape == Permute(MovePerm(|t.shape|, from, to), t.shape) &&
      moved == Permute(MovePerm(|t.shape|, from, to), idx)
    ensures |moved| == |shape| && Flat(shape, moved) < |Move(t, from, to).data| && Flat(t.shape, idx) < |t.data|
    ensures Move(t, from, to).data[Flat(shape, moved)] == t.data[Flat(t.shape, idx)]
  {
    var perm := MovePerm(|t.shape|, from, to);
    MoveIsInvertible(|t.shape|, from, to);
    TransposeAt(t, perm, idx);
    SkippingKeepsData(t, perm);
    FlatBelow(t.shape, idx);
    FlatBelow(shape, moved);
  }

  /** Element g of group p stands where element p of row g does. */
  ghost predicate SwappedAt<T>(grouped: seq<T>, fronted: seq<T>, groups: nat, size: nat, p: nat, g: nat) {
    p * size + g < |grouped| && g * groups + p < |fronted| && fronted[g * groups + p] == grouped[p * size + g]
  }

  /** Moving the axis behind head to the front. */
  lemma MovedToFront<T>(t: Tensor<T>, head: Shape, d: nat, k: nat, p: nat, g: nat)
    requires Valid(t) && t.shape == head + ([d] + Ones(k)) && p < Size(head) && g < d
    ensures SwappedAt(t.data, Move(t, |head|, 0).data, Size(head), d, p, g)
  {
    var idx, moved := MovedOffsets(head, d, k, p, g);
    PermuteFront(head, d, Ones(k));
    MovedData(t, |head|, 0, idx, [d] + (head + Ones(k)), moved);
  }

  /** Moving the front behind head. */
  lemma MovedBack<T>(t: Tensor<T>, head: Shape, d: nat, k: nat, p: nat, g: nat)
    requires Valid(t) && t.shape == [d] + (head + Ones(k)) && p < Size(head) && g < d
    ensures SwappedAt(Move(t, 0, |head|).data, t.data, Size(head), d, p, g)
  {
    var idx, moved := MovedOffsets(head, d, k, p, g);
    PermuteFront(head, d, Ones(k));
    MovedData(t, 0, |head|, moved, head + ([d] + Ones(k)), idx);
  }

  // ----- the groups

  /** Element g of group p: the groups are the elements that share their dimensions before the axis. */
  ghost predicate GroupMapped<T>(f: seq<T> -> seq<T>, size: nat, before: seq<T>, after: seq<T>, p: nat, g: nat) {
    && p * size + g < |after| && p * size + size <= |before| && g < |f(before[p * size..p * size + size])|
    && after[p * size + g] == f(before[p * size..p * size + size])[g]
  }

  /** The result is f on every group of the flattened axis. */
  ghost predicate OnGroups<T>(f: seq<T> -> seq<T>, t: Tensor<T>, axis: nat, u: Tensor<T>)
    requires axis < |t.shape|
  {
    u.shape == t.shape &&
    forall p: nat, g: nat :: p < Size(t.shape[..axis]) && g < Size(t.shape[axis..]) ==>
      GroupMapped(f, Size(t.shape[axis..]), t.data, u.data, p, g)
  }

  /** The layer works on the groups: the axis is the first already, or it is moved there, or both have size one. */
  predicate AxisArrives(shape: Shape, axis: nat)
    requires axis < |shape|
  {
    axis == 0 || if Size(shape[axis..]) == 1 then shape[0] == 1 else exists j :: 0 <= j < axis && shape[j] != 1
  }

  /** Between two swaps, treating the columns is treating the groups. */
  lemma ColumnsAreGroups<T>(f: seq<T> -> seq<T>, before: seq<T>, front: seq<T>, mapped: seq<T>, after: seq<T>,
                            groups: nat, size: nat, p: nat, g: nat)
    requires p < groups && g < size && |before| == groups * size && |front| == size * groups
    requires forall s :: |f(s)| == |s|
    requires forall j: nat :: j < size ==> SwappedAt(before, front, groups, size, p, j)
    requires InRow(g, size, groups, p) && |mapped| == size * groups
    requires mapped[g * groups + p] == f(Strided(front, size, groups, p))[g]
    requires SwappedAt(after, mapped, groups, size, p, g)
    ensures GroupMapped(f, size, before, after, p, g)
  {
    GroupFits(groups, size, p);
    var column, group := Strided(front, size, groups, p), before[p * size..p * size + size];
    forall j: nat | j < size ensures column[j] == group[j] {
      assert SwappedAt(before, front, groups, size, p, j);
    }
    assert column == group;
  }

  lemma GroupFits(groups: nat, size: nat, p: nat)
    requires p < groups
    ensures p * size + size <= groups * size
  {
    MulMono(p + 1, groups, size);
    assert (p + 1) * size == p * size + size;
  }

  /** The importer when the axis does arrive in front. */
  lemma MovedLayerMaps<T(!new)>(layer: Tensor<T> -> Tensor<T>, f: seq<T> -> seq<T>, t: Tensor<T>, head: Shape, d: nat,
                                k: nat, p: nat, g: nat)
    requires Fibrewise(layer, f) && Valid(t) && t.shape == head + ([d] + Ones(k)) && p < Size(head) && g < d
    requires Move(t, |head|, 0).shape == [d] + (head + Ones(k))
    ensures GroupMapped(f, d, t.data, Move(layer(Move(t, |head|, 0)), 0, |head|).data, p, g)
  {
    var front := Move(t, |head|, 0);
    FlatSizes(head, d, k);
    FibrewiseFlat(layer, f, front, d, head + Ones(k), g, p);
    forall j: nat | j < d ensures SwappedAt(t.data, front.data, Size(head), d, p, j) {
      MovedToFront(t, head, d, k, p, j);
    }
    MovedBack(layer(front), head, d, k, p, g);
    ColumnsAreGroups(f, t.data, front.data, layer(front).data, Move(layer(front), 0, |head|).data, Size(head), d, p, g);
  }

  lemma FlatSizes(head: Shape, d: nat, k: nat)
    ensures Size(head + ([d] + Ones(k))) == Size(head) * d
    ensures Size(head + Ones(k)) == Size(head)
  {
    SizeOnes(k);
    SizeCons(d, Ones(k));
    SizeConcat(head, [d] + Ones(k));
    SizeConcat(head, Ones(k));
  }

  /** A first dimension and an axis of size one: the layer sees one element at a time, as it should. */
  lemma UnitLayerMaps<T(!new)>(layer: Tensor<T> -> Tensor<T>, f: seq<T> -> seq<T>, t: Tensor<T>, axis: nat, p: nat)
    requires Fibrewise(layer, f) && Valid(t) && 0 < axis < |t.shape| && t.shape[0] == 1 && t.shape[axis] == 1 &&
      p < |t.data|
    ensures GroupMapped(f, 1, t.data, Move(layer(Move(t, axis, 0)), 0, axis).data, p, 0)
  {
    UnitMovesNothing(t, axis);
    UnitMovesNothing(layer(t), axis);
    UnitFibre(layer, f, t, p);
  }

  lemma UnitMovesNothing<T>(t: Tensor<T>, axis: nat)
    requires Valid(t) && 0 < axis < |t.shape| && t.shape[0] == 1 && t.shape[axis] == 1
    ensures Move(t, axis, 0) == t && Move(t, 0, axis) == t
  {
    FrontMoveSkippedIff(t.shape, axis);
    BackMoveSkippedIff(t.shape, axis);
  }

  lemma UnitFibre<T(!new)>(layer: Tensor<T> -> Tensor<T>, f: seq<T> -> seq<T>, t: Tensor<T>, p: nat)
    requires Fibrewise(layer, f) && Valid(t) && t.shape != [] && t.shape[0] == 1 && p < |t.data|
    ensures GroupMapped(f, 1, t.data, layer(t).data, p, 0)
  {
    var rest := t.shape[1..];
    assert t.shape == [1] + rest;
    SizeCons(1, rest);
    FibrewiseFlat(layer, f, t, 1, rest, 0, p);
    assert Strided(t.data, 1, Size(rest), p) == t.data[p..p + 1];
  }

  /** Where the axis arrives, the importer is f on every group, whatever the layer and the contents. */
  lemma ArrivedIsRight<T(!new)>(layer: Tensor<T> -> Tensor<T>, f: seq<T> -> seq<T>, t: Tensor<T>, axis: nat)
    requires Fibrewise(layer, f) && Valid(t) && axis < |t.shape| && AxisArrives(t.shape, axis)
    ensures OnGroups(f, t, axis, SoftmaxImport(t, axis, layer))
  {
    var head, d, k := t.shape[..axis], Size(t.shape[axis..]), |t.shape| - axis - 1;
    SizeFlattened(t.shape, axis);
    var flat := Reshape(t, FlattenedShape(t.shape, axis));
    FlatSizes(head, d, k);
    forall p: nat, g: nat | p < Size(head) && g < d
      ensures GroupMapped(f, d, t.data, Move(layer(Move(flat, axis, 0)), 0, axis).data, p, g)
    {
      ArrivedMaps(layer, f, flat, head, d, k, p, g);
    }
  }

  lemma ArrivedMaps<T(!new)>(layer: Tensor<T> -> Tensor<T>, f: seq<T> -> seq<T>, t: Tensor<T>, head: Shape, d: nat,
                             k: nat, p: nat, g: nat)
    requires Fibrewise(layer, f) && Valid(t) && t.shape == head + ([d] + Ones(k)) && p < Size(head) && g < d
    requires head == [] || if d == 1 then head[0] == 1 else exists j :: 0 <= j < |head| && head[j] != 1
    ensures GroupMapped(f, d, t.data, Move(layer(Move(t, |head|, 0)), 0, |head|).data, p, g)
  {
    if head == [] || d != 1 {
      AxisInFront(t, head, d, k);
      MovedLayerMaps(layer, f, t, head, d, k, p, g);
    } else {
      UnitBelow(t, head, k, p);
      assert t.shape[0] == head[0] == 1 && t.shape[|head|] == 1 && g == 0;
      UnitLayerMaps(layer, f, t, |head|, p);
    }
  }

  lemma UnitBelow<T>(t: Tensor<T>, head: Shape, k: nat, p: nat)
    requires Valid(t) && t.shape == head + ([1] + Ones(k)) && p < Size(head)
    ensures p < |t.data|
  {
    FlatSizes(head, 1, k);
  }

  lemma AxisInFront<T>(t: Tensor<T>, head: Shape, d: nat, k: nat)
    requires Valid(t) && t.shape == head + ([d] + Ones(k))
    requires head == [] || (d != 1 && exists j :: 0 <= j < |head| && head[j] != 1)
    ensures Move(t, |head|, 0).shape == [d] + (head + Ones(k))
  {
    FrontMoveSkippedIff(t.shape, |head|);
    MoveIsInvertible(|t.shape|, |head|, 0);
    PermuteFront(head, d, Ones(k));
    if head != [] {
      var j :| 0 <= j < |head| && head[j] != 1;
      assert t.shape[j] == head[j];
    }
  }

  // ----- layers like softmax

  function Sum(s: seq<real>): real {
    if s == [] then 0.0 else Sum(s[..|s| - 1]) + s[|s| - 1]
  }

  ghost predicate AllPositive(s: seq<real>) {
    forall i :: 0 <= i < |s| ==> s[i] > 0.0
  }

  /** f makes of every sequence positive numbers that add up to one. */
  ghost predicate Normalises(f: seq<real> -> seq<real>) {
    forall s :: s != [] ==> |f(s)| == |s| && AllPositive(f(s)) && Sum(f(s)) == 1.0
  }

  lemma {:induction false} SumPositive(s: seq<real>)
    requires AllPositive(s)
    ensures Sum(s) >= 0.0 && (s != [] ==> Sum(s) > 0.0)
  {
    if s != [] { SumPositive(s[..|s| - 1]); }
  }

  /** Any one of several positive numbers is below their sum. */
  lemma {:induction false} BelowSum(s: seq<real>, i: nat)
    requires AllPositive(s) && i < |s|
    ensures if |s| == 1 then s[i] == Sum(s) else s[i] < Sum(s)
  {
    var n := |s| - 1;
    if i < n {
      BelowSum(s[..n], i);
    } else {
      SumPositive(s[..n]);
    }
  }

  lemma NormalEntry(f: seq<real> -> seq<real>, s: seq<real>, i: nat)
    requires Normalises(f) && i < |s|
    ensures |f(s)| == |s| && (f(s)[i] == 1.0 <==> |s| == 1)
  {
    assert s != [];
    BelowSum(f(s), i);
  }

  function Weights(w: real -> real, s: seq<real>): (r: seq<real>)
    requires (forall x :: w(x) > 0.0)
    ensures |r| == |s| && AllPositive(r) && forall i :: 0 <= i < |s| ==> r[i] == w(s[i])
  {
    if s == [] then [] else Weights(w, s[..|s| - 1]) + [w(s[|s| - 1])]
  }

  /** Softmax of a sequence, for any positive function in the place of the exponential. */
  function SoftmaxOf(w: real -> real, s: seq<real>): (r: seq<real>)
    requires (forall x :: w(x) > 0.0)
    ensures |r| == |s|
  {
    var ws := Weights(w, s);
    SumPositive(ws);
    seq(|s|, i requires 0 <= i < |s| => ws[i] / Sum(ws))
  }

  lemma {:induction false} SumScaled(a: seq<real>, c: real, b: seq<real>)
    requires |a| == |b| && c > 0.0 && forall i :: 0 <= i < |a| ==> b[i] == a[i] / c
    ensures Sum(b) == Sum(a) / c
  {
    if a != [] { SumScaled(a[..|a| - 1], c, b[..|a| - 1]); }
  }

  lemma SelfRatio(c: real)
    requires c > 0.0
    ensures c / c == 1.0
  {
  }

  lemma SoftmaxNormalises(w: real -> real, f: seq<real> -> seq<real>)
    requires (forall x :: w(x) > 0.0) && forall s :: f(s) == SoftmaxOf(w, s)
    ensures Normalises(f)
  {
    forall s: seq<real> | s != [] ensures |f(s)| == |s| && AllPositive(f(s)) && Sum(f(s)) == 1.0 {
      var ws := Weights(w, s);
      SumPositive(ws);
      assert f(s) == SoftmaxOf(w, s);
      SumScaled(ws, Sum(ws), f(s));
      SelfRatio(Sum(ws));
    }
  }

  /** The layer that applies f along dimension 0. */
  ghost function LayerOf<T(!new)>(f: seq<T> -> seq<T>, t: Tensor<T>): (u: Tensor<T>)
    requires forall s :: |f(s)| == |s|
    ensures u.shape == t.shape && (Valid(t) ==> Valid(u))
  {
    if !Valid(t) || t.shape == [] then t else
      Tensor(t.shape, seq(|t.data|, k requires 0 <= k < |t.data| =>
        var idx := Unflat(t.shape, k);
        assert InBounds(t.shape[1..], idx[1..]) && |FibreAt(t, idx[1..])| == t.shape[0];
        f(FibreAt(t, idx[1..]))[idx[0]]))
  }

  lemma LayerOfIsFibrewise<T(!new)>(f: seq<T> -> seq<T>, layer: Tensor<T> -> Tensor<T>)
    requires (forall s :: |f(s)| == |s|) && forall t :: layer(t) == LayerOf(f, t)
    ensures Fibrewise(layer, f)
  {
    forall t, i: nat, idx | Valid(t) && t.shape != [] && InBounds(t.shape[1..], idx) && i < t.shape[0]
      ensures FibreMapped(layer, f, t, i, idx)
    {
      var whole := [i] + idx;
      assert InBounds(t.shape, whole) && whole[1..] == idx;
      UnflatFlat(t.shape, whole);
      assert |FibreAt(t, idx)| == t.shape[0];
    }
  }

  /** A normalising layer gives ones exactly where it is given single elements. */
  lemma LayerOnes(layer: Tensor<real> -> Tensor<real>, f: seq<real> -> seq<real>, t: Tensor<real>, k: nat)
    requires Fibrewise(layer, f) && Normalises(f) && Valid(t) && t.shape != [] && k < |t.data|
    ensures |layer(t).data| == |t.data| && (layer(t).data[k] == 1.0 <==> t.shape[0] == 1)
  {
    var n, rest := t.shape[0], t.shape[1..];
    assert t.shape == [n] + rest;
    var r := Size(rest);
    DivBelow(k, n, r);
    FibrewiseFlat(layer, f, t, n, rest, k / r, k % r);
    NormalEntry(f, Strided(t.data, n, r, k % r), k / r);
  }

  /** Moving a dimension only moves elements. */
  lemma MovedElement<T>(t: Tensor<T>, from: nat, to: nat, k: nat)
    requires Valid(t) && from < |t.shape| && to < |t.shape| && k < |t.data|
    ensures |Move(t, from, to).data| == |t.data|
    ensures exists j :: 0 <= j < |t.data| && Move(t, from, to).data[k] == t.data[j]
  {
    MoveIsInvertible(|t.shape|, from, to);
    MoveKeepsSize(t, from, to);
    var perm := MovePerm(|t.shape|, from, to);
    SkippingKeepsData(t, perm);
    SizePermuted(perm, t.shape);
    var j := TransposeSource(t.shape, perm, k);
    assert Move(t, from, to).data[k] == t.data[j];
  }

  /** Where the axis does not arrive, the layer finds single elements exactly when the groups are larger. */
  lemma NotArrivedFront<T>(t: Tensor<T>, axis: nat)
    requires Valid(t) && axis < |t.shape| && Positive(t.shape) && !AxisArrives(t.shape, axis)
    ensures
      var flat := FlattenedShape(t.shape, axis);
      && Size(flat) == Size(t.shape) && Valid(Move(Reshape(t, flat), axis, 0))
      && (Move(Reshape(t, flat), axis, 0).shape[0] == 1 <==> Size(t.shape[axis..]) != 1)
  {
    var flat := FlattenedShape(t.shape, axis);
    SizeFlattened(t.shape, axis);
    FrontMoveSkippedIff(flat, axis);
    MoveKeepsSize(Reshape(t, flat), axis, 0);
    FlattenedDims(t.shape, axis);
  }

  /** There, every element of the result is one exactly when it should not be. */
  lemma NotArrivedOnes(layer: Tensor<real> -> Tensor<real>, f: seq<real> -> seq<real>, t: Tensor<real>, axis: nat,
                       k: nat)
    requires Fibrewise(layer, f) && Normalises(f) && Valid(t) && axis < |t.shape| && Positive(t.shape)
    requires !AxisArrives(t.shape, axis) && k < |t.data|
    ensures |SoftmaxImport(t, axis, layer).data| == |t.data|
    ensures SoftmaxImport(t, axis, layer).data[k] == 1.0 <==> Size(t.shape[axis..]) != 1
  {
    NotArrivedFront(t, axis);
    var front := Move(Reshape(t, FlattenedShape(t.shape, axis)), axis, 0);
    MovedElement(Reshape(t, FlattenedShape(t.shape, axis)), axis, 0, k);
    LayerOnes(layer, f, front, k);
    MovedElement(layer(front), 0, axis, k);
    var j :| 0 <= j < |layer(front).data| && Move(layer(front), 0, axis).data[k] == layer(front).data[j];
    LayerOnes(layer, f, front, j);
  }

  lemma NotArrivedIsWrong(layer: Tensor<real> -> Tensor<real>, f: seq<real> -> seq<real>, t: Tensor<real>, axis: nat)
    requires Fibrewise(layer, f) && Normalises(f) && Valid(t) && axis < |t.shape| && Positive(t.shape)
    requires !AxisArrives(t.shape, axis)
    ensures !OnGroups(f, t, axis, SoftmaxImport(t, axis, layer))
  {
    var d, u := Size(t.shape[axis..]), SoftmaxImport(t, axis, layer);
    SizePositive(t.shape[..axis]);
    SizePositive(t.shape[axis..]);
    SizePositive(t.shape);
    NotArrivedOnes(layer, f, t, axis, 0);
    WrongEntry(f, d, t.data, u.data);
  }

  lemma WrongEntry(f: seq<real> -> seq<real>, size: nat, before: seq<real>, after: seq<real>)
    requires Normalises(f) && size >= 1 && after != [] && (after[0] == 1.0 <==> size != 1)
    ensures !GroupMapped(f, size, before, after, 0, 0)
  {
    if size <= |before| { NormalEntry(f, before[0..size], 0); }
  }

  /** For every layer like softmax and every content, the result is the layer's function on the groups of the flattened
      axis if and only if the axis arrives in front of the layer. */
  lemma SoftmaxGroupsIff(layer: Tensor<real> -> Tensor<real>, f: seq<real> -> seq<real>, t: Tensor<real>, axis: nat)
    requires Fibrewise(layer, f) && Normalises(f) && Valid(t) && axis < |t.shape| && Positive(t.shape)
    ensures OnGroups(f, t, axis, SoftmaxImport(t, axis, layer)) <==> AxisArrives(t.shape, axis)
  {
    if AxisArrives(t.shape, axis) {
      ArrivedIsRight(layer, f, t, axis);
    } else {
      NotArrivedIsWrong(layer, f, t, axis);
    }
  }

  /** On a row of ten with the axis behind it, each element is normalised by itself: the result is all ones. */
  lemma RowIsNotTreated(layer: Tensor<real> -> Tensor<real>, f: seq<real> -> seq<real>, t: Tensor<real>)
    requires Fibrewise(layer, f) && Normalises(f) && Valid(t) && t.shape == [1, 10]
    ensures !OnGroups(f, t, 1, SoftmaxImport(t, 1, layer))
    ensures |SoftmaxImport(t, 1, layer).data| == 10
    ensures forall k :: 0 <= k < 10 ==> SoftmaxImport(t, 1, layer).data[k] == 1.0
  {
    RowDoesNotArrive(t.shape);
    SoftmaxGroupsIff(layer, f, t, 1);
    forall k: nat | k < 10 ensures SoftmaxImport(t, 1, layer).data[k] == 1.0 {
      NotArrivedOnes(layer, f, t, 1, k);
    }
  }

  lemma RowDoesNotArrive(shape: Shape)
    requires shape == [1, 10]
    ensures Positive(shape) && Size(shape) == Size(shape[1..]) == 10 && !AxisArrives(shape, 1)
  {
    assert shape[1..] == [10] && shape[1..][1..] == [];
  }
}
