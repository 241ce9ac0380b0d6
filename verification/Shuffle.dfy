/**
 The shuffle layers of 3rdparty/onnx-tensorrt/builtin_op_importers.cpp: the test that skips a transpose,
 and what is lost by skipping.
 */
module Shuffle {
  import opened Arithmetic
  import opened Sequences
  import opened RowMajor

  ghost predicate Positive(shape: Shape) {
    forall i :: 0 <= i < |shape| ==> shape[i] >= 1
  }

  // ----- the test that skips a transpose

  /** The dimensions larger than one keep their order. */
  ghost predicate KeepsOrder(shape: Shape, perm: seq<nat>)
    requires |perm| == |shape| && forall i :: 0 <= i < |perm| ==> perm[i] < |shape|
  {
    forall a, b :: 0 <= a < b < |perm| && shape[perm[a]] != 1 && shape[perm[b]] != 1 ==> perm[a] <= perm[b]
  }

  /** is_transpose_required. In spite of its name it returns true when the transpose is NOT required. */
  method IsTransposeRequired(shape: Shape, perm: seq<nat>) returns (r: bool)
    requires |perm| == |shape| && forall i :: 0 <= i < |perm| ==> perm[i] < |shape|
    ensures r <==> KeepsOrder(shape, perm)
  {
    var prevSignificantDim := 0;
    ghost var at := 0;
    for dst := 0 to |shape|
      invariant forall a :: 0 <= a < dst && shape[perm[a]] != 1 ==> perm[a] <= prevSignificantDim
      invariant forall a, b :: 0 <= a < b < dst && shape[perm[a]] != 1 && shape[perm[b]] != 1 ==> perm[a] <= perm[b]
      invariant prevSignificantDim == 0 || (at < dst && shape[perm[at]] != 1 && perm[at] == prevSignificantDim)
    {
      var src := perm[dst];
      if shape[src] != 1 {
        if src < prevSignificantDim {
          return false;
        }
        prevSignificantDim := src;
        at := dst;
      }
    }
    r := true;
  }

  /** Transposing moves no element. */
  ghost predicate MovesNothing(shape: Shape, perm: seq<nat>)
    requires IsPerm(perm) && |perm| == |shape|
  {
    forall idx: Index :: InBounds(shape, idx) ==> Flat(Permute(perm, shape), Permute(perm, idx)) == Flat(shape, idx)
  }

  // Dimensions of size one contribute nothing to an offset.

  function Significant(shape: Shape, dims: seq<nat>): (r: seq<nat>)
    requires forall i :: 0 <= i < |dims| ==> dims[i] < |shape|
    ensures forall i :: 0 <= i < |r| ==> r[i] < |shape|
    ensures forall d :: d in r <==> d in dims && shape[d] != 1
  {
    if dims == [] then []
    else (if shape[dims[0]] != 1 then [dims[0]] else []) + Significant(shape, dims[1..])
  }

  function Pick(dims: seq<nat>, s: seq<nat>): (r: seq<nat>)
    requires forall i :: 0 <= i < |dims| ==> dims[i] < |s|
    ensures |r| == |dims| && forall i :: 0 <= i < |dims| ==> r[i] == s[dims[i]]
  {
    seq(|dims|, i requires 0 <= i < |dims| => s[dims[i]])
  }

  lemma PickCons(d: nat, dims: seq<nat>, s: seq<nat>)
    requires d < |s| && forall i :: 0 <= i < |dims| ==> dims[i] < |s|
    ensures Pick([d] + dims, s) == [s[d]] + Pick(dims, s)
  {
  }

  lemma SignificantFirst(d: nat, i: nat, r: Shape, j: Index, r': Shape, j': Index)
    requires |j| == |r| && |j'| == |r'| && Size(r) == Size(r') && Flat(r, j) == Flat(r', j') && i < d
    ensures Size([d] + r) == Size(if d == 1 then r' else [d] + r')
    ensures Flat([d] + r, [i] + j) == if d == 1 then Flat(r', j') else Flat([d] + r', [i] + j')
  {
    SizeCons(d, r);
    SizeCons(d, r');
    FlatCons(d, r, i, j);
    FlatCons(d, r', i, j');
  }

  lemma {:induction false} FlatSignificant(shape: Shape, idx: Index, dims: seq<nat>)
    requires InBounds(shape, idx) && forall i :: 0 <= i < |dims| ==> dims[i] < |shape|
    ensures Size(Pick(dims, shape)) == Size(Pick(Significant(shape, dims), shape))
    ensures Flat(Pick(dims, shape), Pick(dims, idx)) ==
      Flat(Pick(Significant(shape, dims), shape), Pick(Significant(shape, dims), idx))
  {
    if dims != [] {
      var d, rest := dims[0], Significant(shape, dims[1..]);
      FlatSignificant(shape, idx, dims[1..]);
      assert dims == [d] + dims[1..];
      PickCons(d, dims[1..], shape);
      PickCons(d, dims[1..], idx);
      PickCons(d, rest, shape);
      PickCons(d, rest, idx);
      assert Significant(shape, dims) == if shape[d] == 1 then rest else [d] + rest;
      SignificantFirst(shape[d], idx[d], Pick(dims[1..], shape), Pick(dims[1..], idx), Pick(rest, shape),
        Pick(rest, idx));
    }
  }

  lemma {:induction false} SignificantSorted(shape: Shape, dims: seq<nat>)
    requires Distinct(dims) && forall i :: 0 <= i < |dims| ==> dims[i] < |shape|
    requires forall a, b :: 0 <= a < b < |dims| && shape[dims[a]] != 1 && shape[dims[b]] != 1 ==> dims[a] <= dims[b]
    ensures StrictlySorted(Significant(shape, dims))
  {
    if dims != [] {
      SignificantSorted(shape, dims[1..]);
      var rest := Significant(shape, dims[1..]);
      if shape[dims[0]] != 1 {
        forall k | 0 <= k < |rest| ensures dims[0] < rest[k] {
          assert rest[k] in rest;
          var b :| 0 <= b < |dims[1..]| && dims[1..][b] == rest[k];
          assert dims[b + 1] == rest[k];
        }
      }
    }
  }

  function Iota(n: nat): (r: seq<nat>)
    ensures |r| == n && forall i :: 0 <= i < n ==> r[i] == i
  {
    seq(n, i => i)
  }

  lemma KeepsOrderMovesNothing(shape: Shape, perm: seq<nat>)
    requires IsPerm(perm) && |perm| == |shape| && KeepsOrder(shape, perm)
    ensures MovesNothing(shape, perm)
  {
    var id := Iota(|shape|);
    SignificantSorted(shape, perm);
    SignificantSorted(shape, id);
    forall x ensures x in Significant(shape, perm) <==> x in Significant(shape, id) {
      assert x in id <==> 0 <= x < |shape| by { if 0 <= x < |shape| { assert id[x] == x; } }
    }
    SortedOneWay(Significant(shape, perm), Significant(shape, id));
    forall idx: Index | InBounds(shape, idx)
      ensures Flat(Permute(perm, shape), Permute(perm, idx)) == Flat(shape, idx)
    {
      FlatSignificant(shape, idx, perm);
      FlatSignificant(shape, idx, id);
      assert Pick(perm, shape) == Permute(perm, shape) && Pick(perm, idx) == Permute(perm, idx);
      assert Pick(id, shape) == shape && Pick(id, idx) == idx;
    }
  }

  // Unit indices read off the strides.

  function Unit(n: nat, d: nat): (r: Index)
    ensures |r| == n && forall i :: 0 <= i < n ==> r[i] == if i == d then 1 else 0
  {
    seq(n, i => if i == d then 1 else 0)
  }

  lemma {:induction false} FlatZero(shape: Shape, idx: Index)
    requires |idx| == |shape| && forall i :: 0 <= i < |idx| ==> idx[i] == 0
    ensures Flat(shape, idx) == 0
  {
    if shape != [] { FlatZero(shape[1..], idx[1..]); }
  }

  lemma {:induction false} FlatUnit(shape: Shape, d: nat)
    requires d < |shape|
    ensures Flat(shape, Unit(|shape|, d)) == Size(shape[d + 1..])
  {
    var u := Unit(|shape|, d);
    if d == 0 {
      FlatZero(shape[1..], u[1..]);
    } else {
      FlatUnit(shape[1..], d - 1);
      assert u[1..] == Unit(|shape| - 1, d - 1);
      assert shape[1..][d..] == shape[d + 1..];
    }
  }

  lemma {:induction false} SizePositive(shape: Shape)
    requires Positive(shape)
    ensures Size(shape) >= 1
  {
    if shape != [] {
      SizePositive(shape[1..]);
      MulMono(1, shape[0], Size(shape[1..]));
    }
  }

  /** An earlier dimension has the larger stride if there is anything to step over. */
  lemma StridesFall(shape: Shape, u: nat, v: nat)
    requires Positive(shape) && u < v < |shape| && shape[v] >= 2
    ensures Size(shape[u + 1..]) > Size(shape[v + 1..])
  {
    var mid, tail := shape[u + 1..v], shape[v..];
    assert shape[u + 1..] == mid + tail;
    SizeConcat(mid, tail);
    SizePositive(mid);
    SizePositive(shape[v + 1..]);
    assert tail[1..] == shape[v + 1..] && tail[0] == shape[v];
    MulMono(2, shape[v], Size(shape[v + 1..]));
    MulMono(1, Size(mid), Size(tail));
  }

  lemma MovesNothingKeepsOrder(shape: Shape, perm: seq<nat>)
    requires IsPerm(perm) && |perm| == |shape| && Positive(shape) && MovesNothing(shape, perm)
    ensures KeepsOrder(shape, perm)
  {
    forall a, b | 0 <= a < b < |perm| && shape[perm[a]] != 1 && shape[perm[b]] != 1 ensures perm[a] <= perm[b] {
      PairKeepsOrder(shape, perm, a, b);
    }
  }

  lemma PairKeepsOrder(shape: Shape, perm: seq<nat>, a: nat, b: nat)
    requires IsPerm(perm) && |perm| == |shape| && Positive(shape) && MovesNothing(shape, perm)
    requires a < b < |perm| && shape[perm[a]] >= 2 && shape[perm[b]] >= 2
    ensures perm[a] <= perm[b]
  {
    StrideKept(shape, perm, a);
    StrideKept(shape, perm, b);
    StridesFall(Permute(perm, shape), a, b);
    if perm[a] > perm[b] { StridesFall(shape, perm[b], perm[a]); }
  }

  lemma StrideKept(shape: Shape, perm: seq<nat>, a: nat)
    requires IsPerm(perm) && |perm| == |shape| && Positive(shape) && MovesNothing(shape, perm)
    requires a < |perm| && shape[perm[a]] >= 2
    ensures Size(shape[perm[a] + 1..]) == Size(Permute(perm, shape)[a + 1..])
  {
    var n := |shape|;
    var e := Unit(n, perm[a]);
    assert InBounds(shape, e);
    assert Permute(perm, e) == Unit(n, a);
    FlatUnit(shape, perm[a]);
    FlatUnit(Permute(perm, shape), a);
  }

  /** The test is exact: it lets a transpose be skipped if and only if the transpose moves no element. */
  lemma SkipIffMovesNothing(shape: Shape, perm: seq<nat>)
    requires IsPerm(perm) && |perm| == |shape| && Positive(shape)
    ensures KeepsOrder(shape, perm) <==> MovesNothing(shape, perm)
  {
    if KeepsOrder(shape, perm) { KeepsOrderMovesNothing(shape, perm); }
    if MovesNothing(shape, perm) { MovesNothingKeepsOrder(shape, perm); }
  }

  // ----- transpose_tensor

  /** The layer transpose_tensor adds. The zero entries of its reshape copy the shape of whatever the first transpose
      leaves, so a skipped transpose also leaves the shape as it was. */
  ghost function TransposeTensor<T>(t: Tensor<T>, perm: seq<nat>): (u: Tensor<T>)
    requires Valid(t) && IsPerm(perm) && |perm| == |t.shape|
    ensures Valid(u)
  {
    if KeepsOrder(t.shape, perm) then t else Transpose(t, perm)
  }

  lemma MovesNothingSameData<T>(t: Tensor<T>, perm: seq<nat>)
    requires Valid(t) && IsPerm(perm) && |perm| == |t.shape| && MovesNothing(t.shape, perm)
    ensures Transpose(t, perm).data == t.data
  {
    var u := Transpose(t, perm);
    SizePermuted(perm, t.shape);
    forall k | 0 <= k < |t.data| ensures u.data[k] == t.data[k] {
      FlatUnflat(t.shape, k);
      TransposeAt(t, perm, Unflat(t.shape, k));
    }
  }

  /** Skipping loses nothing: the data is that of the transposed tensor either way. */
  lemma SkippingKeepsData<T>(t: Tensor<T>, perm: seq<nat>)
    requires Valid(t) && IsPerm(perm) && |perm| == |t.shape|
    ensures TransposeTensor(t, perm).data == Transpose(t, perm).data
  {
    if KeepsOrder(t.shape, perm) {
      KeepsOrderMovesNothing(t.shape, perm);
      MovesNothingSameData(t, perm);
    }
  }

  /** A transpose that is not skipped changes the data of some tensor, and of the one that numbers its elements in
      particular. */
  lemma TransposeChangesNumbering(shape: Shape, perm: seq<nat>)
    requires IsPerm(perm) && |perm| == |shape| && Positive(shape) && !KeepsOrder(shape, perm)
    ensures Transpose(Tensor(shape, Iota(Size(shape))), perm).data != Iota(Size(shape))
  {
    SkipIffMovesNothing(shape, perm);
    var idx: Index :| InBounds(shape, idx) && Flat(Permute(perm, shape), Permute(perm, idx)) != Flat(shape, idx);
    var t := Tensor(shape, Iota(Size(shape)));
    FlatBelow(shape, idx);
    TransposeAt(t, perm, idx);
    FlatBelow(Permute(perm, shape), Permute(perm, idx));
    assert Transpose(t, perm).data[Flat(Permute(perm, shape), Permute(perm, idx))] == Flat(shape, idx);
  }
}
