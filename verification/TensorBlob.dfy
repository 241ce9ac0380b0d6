/**
 Flat views of tensors: the compactness check and FlatToKD of include/mxnet/tensor_blob.h, and the batch dimension
 that the Transpose importer takes off (3rdparty/onnx-tensorrt/trt_utils.hpp).
 */
module TensorBlob {
  import opened Arithmetic
  import opened RowMajor
  import opened Shuffle

  // ----- the DLTensor check

  function RowMajorStrides(shape: Shape): (r: seq<int>)
    ensures |r| == |shape| && forall i :: 0 <= i < |shape| ==> r[i] == Size(shape[i + 1..])
  {
    seq(|shape|, i requires 0 <= i < |shape| => Size(shape[i + 1..]))
  }

  /** The loop that compares strides with sizes from the last dimension on. */
  method IsCompact(shape: Shape, strides: seq<int>) returns (ok: bool)
    requires |strides| == |shape|
    ensures ok <==> strides == RowMajorStrides(shape)
  {
    var n := |shape|;
    if n >= 1 {
      assert shape[n..] == [];
      if strides[n - 1] != 1 {
        return false;
      }
      var i := n - 2;
      while i >= 0
        invariant -1 <= i <= n - 2
        invariant forall k :: i < k < n ==> strides[k] == Size(shape[k + 1..])
      {
        assert shape[i + 1..][0] == shape[i + 1] && shape[i + 1..][1..] == shape[i + 2..];
        if strides[i] != shape[i + 1] * strides[i + 1] {
          assert RowMajorStrides(shape)[i] != strides[i];
          return false;
        }
        i := i - 1;
      }
    }
    ok := true;
  }

  /** The offset strided storage gives an index. */
  function StridedOffset(strides: seq<int>, idx: Index): int
    requires |strides| == |idx|
  {
    if idx == [] then 0 else strides[0] * idx[0] + StridedOffset(strides[1..], idx[1..])
  }

  ghost predicate OffsetsAgree(shape: Shape, strides: seq<int>)
    requires |strides| == |shape|
  {
    forall idx: Index :: InBounds(shape, idx) ==> StridedOffset(strides, idx) == Flat(shape, idx)
  }

  /** The strides that matter, those of dimensions of two or more, are row-major. */
  ghost predicate SignificantStridesRight(shape: Shape, strides: seq<int>)
    requires |strides| == |shape|
  {
    forall i :: 0 <= i < |shape| && shape[i] >= 2 ==> strides[i] == Size(shape[i + 1..])
  }

  lemma {:induction false} StridesGiveOffset(shape: Shape, strides: seq<int>, idx: Index)
    requires |strides| == |shape| && InBounds(shape, idx) && SignificantStridesRight(shape, strides)
    ensures StridedOffset(strides, idx) == Flat(shape, idx)
  {
    if shape != [] {
      forall i | 0 <= i < |shape| - 1 && shape[1..][i] >= 2 ensures strides[1..][i] == Size(shape[1..][i + 1..]) {
        assert shape[1..][i + 1..] == shape[i + 2..];
      }
      StridesGiveOffset(shape[1..], strides[1..], idx[1..]);
      if shape[0] < 2 { assert idx[0] == 0; }
    }
  }

  lemma {:induction false} OffsetOfUnit(strides: seq<int>, d: nat)
    requires d < |strides|
    ensures StridedOffset(strides, Unit(|strides|, d)) == strides[d]
  {
    var u := Unit(|strides|, d);
    if d == 0 {
      OffsetOfZero(strides[1..], u[1..]);
    } else {
      OffsetOfUnit(strides[1..], d - 1);
      assert u[1..] == Unit(|strides| - 1, d - 1);
    }
  }

  lemma {:induction false} OffsetOfZero(strides: seq<int>, idx: Index)
    requires |strides| == |idx| && forall i :: 0 <= i < |idx| ==> idx[i] == 0
    ensures StridedOffset(strides, idx) == 0
  {
    if idx != [] { OffsetOfZero(strides[1..], idx[1..]); }
  }

  lemma {:induction false} EmptyHasZero(shape: Shape)
    ensures Size(shape) == 0 <==> !Positive(shape)
  {
    if shape != [] {
      EmptyHasZero(shape[1..]);
      assert Positive(shape) <==> shape[0] >= 1 && Positive(shape[1..]) by {
        assert forall i :: 1 <= i < |shape| ==> shape[i] == shape[1..][i - 1];
      }
    }
  }

  /** Strided and contiguous storage agree on every index exactly when there is none or the strides that matter are
      row-major. The check asks for more: it also fixes the strides of dimensions of size one. */
  lemma OffsetsAgreeIff(shape: Shape, strides: seq<int>)
    requires |strides| == |shape|
    ensures OffsetsAgree(shape, strides) <==> Size(shape) == 0 || SignificantStridesRight(shape, strides)
    ensures strides == RowMajorStrides(shape) ==> OffsetsAgree(shape, strides)
  {
    EmptyHasZero(shape);
    if SignificantStridesRight(shape, strides) {
      forall idx: Index | InBounds(shape, idx) ensures StridedOffset(strides, idx) == Flat(shape, idx) {
        StridesGiveOffset(shape, strides, idx);
      }
    }
    if OffsetsAgree(shape, strides) && Positive(shape) {
      forall i | 0 <= i < |shape| && shape[i] >= 2 ensures strides[i] == Size(shape[i + 1..]) {
        assert InBounds(shape, Unit(|shape|, i));
        OffsetOfUnit(strides, i);
        FlatUnit(shape, i);
      }
    }
  }

  /** A compact tensor the check refuses: one row, whose stride nobody can observe. */
  lemma CheckRefusesCompactTensor()
    ensures OffsetsAgree([1, 3], [5, 1]) && [5, 1] != RowMajorStrides([1, 3])
  {
    var shape: Shape, strides: seq<int> := [1, 3], [5, 1];
    assert shape[1..] == [3] && shape[2..] == [] && shape[1..][1..] == [];
    assert Size(shape[1..]) == 3 && Size(shape[2..]) == 1;
    assert RowMajorStrides(shape)[0] == 3 && strides[0] == 5;
    OffsetsAgreeIff(shape, strides);
  }

  // ----- FlatToKD

  /** The shape with k dimensions: the leading ones merged, or ones put in front. */
  function FlatShape(shape: Shape, k: nat): (r: Shape)
    requires k >= 1
    ensures |r| == k
  {
    var n := |shape|;
    if n < k then Ones(k - n) + shape
    else [Size(shape[..n - k + 1])] + shape[n - k + 1..]
  }

  method FlatToKD(shape_: Shape, k: nat) returns (shape: array<nat>)
    requires k >= 1
    ensures shape[..] == FlatShape(shape_, k)
  {
    var n := |shape_|;
    shape := new nat[k](_ => 0);
    shape[0] := 1;
    for i := 0 to if k > n then k - n else 0
      invariant shape[0] == 1 && forall j :: 0 <= j < i ==> shape[j] == 1
    {
      shape[i] := 1;
    }
    for i := 0 to if n - k + 1 > 0 then n - k + 1 else 0
      invariant shape[0] == Size(shape_[..i])
      invariant forall j :: 1 <= j < k - n ==> shape[j] == 1
    {
      SizeSnoc(shape_, i);
      shape[0] := shape[0] * shape_[i];
    }
    var start := if n - k + 1 > 0 then n - k + 1 else 0;
    for i := start to n
      invariant forall j :: 0 <= j < k - n ==> shape[j] == 1
      invariant n >= k ==> shape[0] == Size(shape_[..start])
      invariant forall j :: start <= j < i ==> shape[j - n + k] == shape_[j]
    {
      shape[i - n + k] := shape_[i];
    }
    IsFlatShape(shape_, k, start, shape[..]);
  }

  lemma IsFlatShape(shape: Shape, k: nat, start: nat, r: Shape)
    requires |r| == k >= 1 && start == if |shape| >= k then |shape| - k + 1 else 0
    requires forall j :: 0 <= j < k - |shape| ==> r[j] == 1
    requires |shape| >= k ==> r[0] == Size(shape[..start])
    requires forall j :: start <= j < |shape| ==> r[j - |shape| + k] == shape[j]
    ensures r == FlatShape(shape, k)
  {
    var n, flat := |shape|, FlatShape(shape, k);
    forall i | 0 <= i < k ensures r[i] == flat[i] {
      if n < k || i > 0 {
        if i >= k - n { assert r[(i - k + n) - n + k] == shape[i - k + n]; }
      }
    }
  }

  lemma SizeSnoc(shape: Shape, i: nat)
    requires i < |shape|
    ensures Size(shape[..i + 1]) == Size(shape[..i]) * shape[i]
  {
    assert shape[..i + 1] == shape[..i] + [shape[i]];
    SizeConcat(shape[..i], [shape[i]]);
    SizeCons(shape[i], []);
    assert [shape[i]] + [] == [shape[i]];
  }

  /** The index in the flattened shape. */
  function FlatIndex(shape: Shape, k: nat, idx: Index): (r: Index)
    requires k >= 1 && |idx| == |shape|
    ensures |r| == k
  {
    var n := |shape|;
    if n < k then Unit(k - n, k) + idx
    else [Flat(shape[..n - k + 1], idx[..n - k + 1])] + idx[n - k + 1..]
  }

  /** Flattening to any number of dimensions keeps the elements: as many, and each at its offset. */
  lemma FlatToKDKeepsElements(shape: Shape, k: nat, idx: Index)
    requires k >= 1 && InBounds(shape, idx)
    ensures Size(FlatShape(shape, k)) == Size(shape)
    ensures InBounds(FlatShape(shape, k), FlatIndex(shape, k, idx))
    ensures Flat(FlatShape(shape, k), FlatIndex(shape, k, idx)) == Flat(shape, idx)
  {
    var n := |shape|;
    if n < k {
      SizeOnes(k - n);
      SizeConcat(Ones(k - n), shape);
      FlatZero(Ones(k - n), Unit(k - n, k));
      FlatConcat(Ones(k - n), shape, Unit(k - n, k), idx);
    } else {
      var m := n - k + 1;
      assert shape == shape[..m] + shape[m..] && idx == idx[..m] + idx[m..];
      SizeConcat(shape[..m], shape[m..]);
      SizeCons(Size(shape[..m]), shape[m..]);
      FlatBelow(shape[..m], idx[..m]);
      FlatConcat(shape[..m], shape[m..], idx[..m], idx[m..]);
      FlatCons(Size(shape[..m]), shape[m..], Flat(shape[..m], idx[..m]), idx[m..]);
    }
  }

  // ----- the batch dimension

  /** remove_first_dim on the entries that belong to the rank: what is left is a valid permutation if it was one. */
  method RemoveFirstDim(order: seq<nat>) returns (r: seq<int>)
    requires order != [] && order[0] == 0
    ensures |r| == |order| - 1 && forall i :: 0 <= i < |r| ==> r[i] + 1 == order[i + 1]
    ensures IsPerm(order) ==> IsPerm(DropFirst(order)) && r == DropFirst(order)
  {
    r := [];
    for i := 0 to |order| - 1
      invariant |r| == i && forall k :: 0 <= k < i ==> r[k] + 1 == order[k + 1]
    {
      var d: int := order[i + 1];
      r := r + [d - 1];
    }
    if IsPerm(order) {
      DropFirstIsPerm(order);
      forall i | 0 <= i < |r| ensures r[i] == DropFirst(order)[i] {
        assert order[i + 1] != order[0];
      }
    }
  }

  /** Where sample k of a batch starts. */
  function SampleStart(shape: Shape, k: nat): (start: nat)
    requires shape != [] && k < shape[0]
    ensures start + Size(shape[1..]) <= Size(shape)
  {
    var s := Size(shape[1..]);
    MulMono(k + 1, shape[0], s);
    assert (k + 1) * s == k * s + s;
    k * s
  }

  /** Sample k of a batch. */
  function Sample<T>(t: Tensor<T>, k: nat): (u: Tensor<T>)
    requires Valid(t) && t.shape != [] && k < t.shape[0]
    ensures Valid(u) && u.shape == t.shape[1..]
  {
    var start := SampleStart(t.shape, k);
    Tensor(t.shape[1..], t.data[start..start + Size(t.shape[1..])])
  }

  lemma SampleOffset(shape: Shape, k: nat, idx: Index)
    requires shape != [] && k < shape[0] && InBounds(shape[1..], idx)
    ensures Flat(shape[1..], idx) < Size(shape[1..])
    ensures Flat(shape, [k] + idx) == SampleStart(shape, k) + Flat(shape[1..], idx)
  {
    FlatBelow(shape[1..], idx);
    assert ([k] + idx)[1..] == idx;
  }

  lemma SampleAt<T>(t: Tensor<T>, k: nat, idx: Index)
    requires Valid(t) && t.shape != [] && k < t.shape[0] && InBounds(t.shape[1..], idx)
    ensures InBounds(t.shape, [k] + idx) && At(Sample(t, k), idx) == At(t, [k] + idx)
  {
    SampleOffset(t.shape, k, idx);
    var start, f := SampleStart(t.shape, k), Flat(t.shape[1..], idx);
    assert Sample(t, k).data[f] == t.data[start + f];
  }

  /** Transposing a batch by a permutation that leaves the batch dimension in place transposes each sample by what
      remove_first_dim makes of it, which is a valid permutation. */
  lemma BatchTranspose<T>(t: Tensor<T>, perm: seq<nat>, k: nat)
    requires Valid(t) && IsPerm(perm) && |perm| == |t.shape| && perm != [] && perm[0] == 0 && k < t.shape[0]
    ensures IsPerm(DropFirst(perm))
    ensures Sample(Transpose(t, perm), k) == Transpose(Sample(t, k), DropFirst(perm))
  {
    DropFirstIsPerm(perm);
    var inner := DropFirst(perm);
    forall i | 0 <= i < |inner| ensures inner[i] == perm[i + 1] - 1 {
      assert perm[i + 1] != perm[0];
    }
    var l, r := Sample(Transpose(t, perm), k), Transpose(Sample(t, k), inner);
    forall i | 0 <= i < |inner| ensures l.shape[i] == r.shape[i] {
      assert Permute(perm, t.shape)[i + 1] == t.shape[perm[i + 1]];
    }
    forall idx: Index | InBounds(r.shape, idx) ensures At(l, idx) == At(r, idx) {
      BatchElement(t, perm, inner, k, idx);
    }
    SameElements(l, r);
  }

  lemma BatchElement<T>(t: Tensor<T>, perm: seq<nat>, inner: seq<nat>, k: nat, idx: Index)
    requires Valid(t) && IsPerm(perm) && |perm| == |t.shape| && perm != [] && perm[0] == 0 && k < t.shape[0]
    requires IsPerm(inner) && |inner| == |perm| - 1 && forall i :: 0 <= i < |inner| ==> inner[i] == perm[i + 1] - 1
    requires InBounds(Permute(inner, t.shape[1..]), idx)
    ensures InBounds(Permute(perm, t.shape)[1..], idx)
    ensures At(Sample(Transpose(t, perm), k), idx) == At(Transpose(Sample(t, k), inner), idx)
  {
    assert Permute(perm, t.shape)[1..] == Permute(inner, t.shape[1..]);
    var back := Permute(Inverse(inner), idx);
    InversePerm(inner);
    PermuteInverse(Inverse(inner), inner, idx);
    PermuteBounds(inner, t.shape[1..], back);
    TransposeAt(Sample(t, k), inner, back);
    SampleAt(t, k, back);
    TransposeAt(t, perm, [k] + back);
    assert Permute(perm, [k] + back) == [k] + idx;
    SampleAt(Transpose(t, perm), k, idx);
  }
}
