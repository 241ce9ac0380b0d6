/**
 move_tensor_dimension and flatten_tensor (3rdparty/onnx-tensorrt/builtin_op_importers.cpp). Moving an axis to the
 front and back does not always restore the data; the exact condition is proved.
 */
module MoveDimension {
  import opened RowMajor
  import opened Shuffle

  // ----- the permutation

  /** Where entry i of the moved list comes from. */
  function Moved(from: nat, to: nat, i: nat): nat {
    if i == to then from
    else
      var k := if i < to then i else i - 1;
      if k < from then k else k + 1
  }

  function MovePerm(n: nat, from: nat, to: nat): (p: seq<nat>)
    ensures |p| == n && forall i :: 0 <= i < n ==> p[i] == Moved(from, to, i)
  {
    seq(n, i requires 0 <= i < n => Moved(from, to, i))
  }

  /** move_tensor_dimension's permutation: dimensions listed in order, one erased and inserted elsewhere. */
  method BuildPerm(n: nat, from: int, to: int) returns (ok: bool, vperm: seq<nat>)
    ensures ok <==> 0 <= from < n && 0 <= to < n
    ensures ok ==> vperm == MovePerm(n, from, to)
  {
    vperm := [];
    if !(0 <= from < n) { return false, vperm; }
    if !(0 <= to < n) { return false, vperm; }
    for i := 0 to n
      invariant |vperm| == i && forall k :: 0 <= k < i ==> vperm[k] == k
    {
      vperm := vperm + [i];
    }
    vperm := vperm[..from] + vperm[from + 1..];
    vperm := vperm[..to] + [from as nat] + vperm[to..];
    ok := true;
  }

  /** The permutation is always valid, and moving back is its inverse. */
  lemma MoveIsInvertible(n: nat, from: nat, to: nat)
    requires from < n && to < n
    ensures AreInverse(MovePerm(n, from, to), MovePerm(n, to, from))
    ensures IsPerm(MovePerm(n, from, to))
  {
    InversesArePerms(MovePerm(n, from, to), MovePerm(n, to, from));
  }

  /** What it does to a list: entry `from` goes to place `to`, and the others keep their order. */
  lemma MoveIs<T>(s: seq<T>, from: nat, to: nat)
    requires from < |s| && to < |s|
    ensures IsPerm(MovePerm(|s|, from, to))
    ensures
      var r := Permute(MovePerm(|s|, from, to), s);
      r[to] == s[from] && r[..to] + r[to + 1..] == s[..from] + s[from + 1..]
  {
    MoveIsInvertible(|s|, from, to);
    var r := Permute(MovePerm(|s|, from, to), s);
    var rest, kept := r[..to] + r[to + 1..], s[..from] + s[from + 1..];
    forall k | 0 <= k < |s| - 1 ensures rest[k] == kept[k] {
      assert rest[k] == r[if k < to then k else k + 1];
      assert kept[k] == s[if k < from then k else k + 1];
    }
  }

  // ----- moving an axis to the front and back

  /** move_tensor_dimension within range. */
  ghost function Move<T>(t: Tensor<T>, from: nat, to: nat): (u: Tensor<T>)
    requires Valid(t) && from < |t.shape| && to < |t.shape|
    ensures Valid(u) && |u.shape| == |t.shape|
  {
    MoveIsInvertible(|t.shape|, from, to);
    TransposeTensor(t, MovePerm(|t.shape|, from, to))
  }

  ghost function MoveAndBack<T>(t: Tensor<T>, axis: nat): (u: Tensor<T>)
    requires Valid(t) && axis < |t.shape|
    ensures Valid(u)
  {
    Move(Move(t, axis, 0), 0, axis)
  }

  /** The shapes on which moving back goes wrong: the axis has size one, so that moving it is skipped and the shape
      stays as it is, but the first dimension then really moves past a larger one. */
  predicate MoveBackFails(shape: Shape, axis: nat)
    requires axis < |shape|
  {
    shape[axis] == 1 && shape[0] != 1 && exists j :: 1 <= j < axis && shape[j] != 1
  }

  lemma FrontMoveSkippedIff(shape: Shape, axis: nat)
    requires axis < |shape|
    ensures KeepsOrder(shape, MovePerm(|shape|, axis, 0)) <==>
      shape[axis] == 1 || forall j :: 0 <= j < axis ==> shape[j] == 1
  {
    var p := MovePerm(|shape|, axis, 0);
    if shape[axis] != 1 && exists j :: 0 <= j < axis && shape[j] != 1 {
      var j :| 0 <= j < axis && shape[j] != 1;
      assert p[0] == axis && p[j + 1] == j;
    }
  }

  lemma BackMoveSkippedIff(shape: Shape, axis: nat)
    requires axis < |shape|
    ensures KeepsOrder(shape, MovePerm(|shape|, 0, axis)) <==>
      shape[0] == 1 || forall j :: 1 <= j <= axis ==> shape[j] == 1
  {
    var q := MovePerm(|shape|, 0, axis);
    if shape[0] != 1 && exists j :: 1 <= j <= axis && shape[j] != 1 {
      var j :| 1 <= j <= axis && shape[j] != 1;
      assert q[j - 1] == j && q[axis] == 0;
    }
  }

  /** Moving the axis to the front and back restores the data unless the shape is one of those. */
  lemma MoveAndBackRestores<T>(t: Tensor<T>, axis: nat)
    requires Valid(t) && axis < |t.shape| && !MoveBackFails(t.shape, axis)
    ensures MoveAndBack(t, axis).data == t.data
  {
    var n := |t.shape|;
    var p, q := MovePerm(n, axis, 0), MovePerm(n, 0, axis);
    MoveIsInvertible(n, axis, 0);
    MoveIsInvertible(n, 0, axis);
    FrontMoveSkippedIff(t.shape, axis);
    BackMoveSkippedIff(t.shape, axis);
    if !KeepsOrder(t.shape, p) {
      TransposeBack(t, p, q);
      SkippingKeepsData(Transpose(t, p), q);
    }
  }

  /** On those shapes the tensor that numbers its elements is scrambled. */
  lemma MoveBackScrambles(shape: Shape, axis: nat)
    requires axis < |shape| && Positive(shape) && MoveBackFails(shape, axis)
    ensures MoveAndBack(Tensor(shape, Iota(Size(shape))), axis).data != Iota(Size(shape))
  {
    MoveIsInvertible(|shape|, axis, 0);
    MoveIsInvertible(|shape|, 0, axis);
    FrontMoveSkippedIff(shape, axis);
    BackMoveSkippedIff(shape, axis);
    TransposeChangesNumbering(shape, MovePerm(|shape|, 0, axis));
  }

  /** Restored for every content, exactly when the shape is not one of those. */
  lemma MoveAndBackIff(shape: Shape, axis: nat)
    requires axis < |shape| && Positive(shape)
    ensures !MoveBackFails(shape, axis) <==>
      forall data: seq<nat> :: |data| == Size(shape) ==> MoveAndBack(Tensor(shape, data), axis).data == data
  {
    if MoveBackFails(shape, axis) {
      MoveBackScrambles(shape, axis);
    } else {
      forall data: seq<nat> | |data| == Size(shape) ensures MoveAndBack(Tensor(shape, data), axis).data == data {
        MoveAndBackRestores(Tensor(shape, data), axis);
      }
    }
  }

  /** A tensor that moving there and back scrambles. */
  lemma MoveBackFailsOn231()
    ensures Valid(Tensor([2, 3, 1], [0, 1, 2, 3, 4, 5]))
    ensures MoveAndBack(Tensor([2, 3, 1], [0, 1, 2, 3, 4, 5]), 2).data != [0, 1, 2, 3, 4, 5]
  {
    var shape: Shape := [2, 3, 1];
    assert shape[1..] == [3, 1] && shape[1..][1..] == [1] && shape[1..][1..][1..] == [];
    assert Size(shape) == 6;
    assert Iota(6) == [0, 1, 2, 3, 4, 5];
    assert shape[1] != 1;
    MoveBackScrambles(shape, 2);
  }

  // ----- flatten_tensor

  function FlattenedShape(shape: Shape, axis: nat): (r: Shape)
    requires axis < |shape|
    ensures |r| == |shape|
  {
    shape[..axis] + ([Size(shape[axis..])] + Ones(|shape| - axis - 1))
  }

  lemma SizeWithOnes(d: nat, n: nat)
    ensures Size([d] + Ones(n)) == d
  {
    SizeOnes(n);
    SizeCons(d, Ones(n));
  }

  lemma SizeFlattened(shape: Shape, axis: nat)
    requires axis < |shape|
    ensures Size(FlattenedShape(shape, axis)) == Size(shape)
  {
    var head, tail := shape[..axis], shape[axis..];
    var flat := [Size(tail)] + Ones(|shape| - axis - 1);
    SizeWithOnes(Size(tail), |shape| - axis - 1);
    assert shape == head + tail;
    SameSizeTail(head, flat, tail);
  }

  lemma {:induction false} SameSizeTail(head: Shape, a: Shape, b: Shape)
    requires Size(a) == Size(b)
    ensures Size(head + a) == Size(head + b)
  {
    if head == [] {
      assert head + a == a && head + b == b;
    } else {
      assert (head + a)[1..] == head[1..] + a && (head + b)[1..] == head[1..] + b;
      SameSizeTail(head[1..], a, b);
    }
  }

  /** flatten_tensor's loop over the array of dimensions. */
  method FlattenShape(d: array<nat>, axis: nat)
    requires axis < d.Length
    modifies d
    ensures d[..] == FlattenedShape(old(d[..]), axis)
  {
    ghost var shape := d[..];
    for i := axis + 1 to d.Length
      invariant d[..axis] == shape[..axis]
      invariant d[axis] == Size(shape[axis..i])
      invariant forall k :: axis < k < i ==> d[k] == 1
      invariant forall k :: i <= k < d.Length ==> d[k] == shape[k]
    {
      SizeConcat(shape[axis..i], [shape[i]]);
      assert shape[axis..i + 1] == shape[axis..i] + [shape[i]];
      SizeCons(shape[i], []);
      assert [shape[i]] + [] == [shape[i]];
      d[axis] := d[axis] * d[i];
      d[i] := 1;
    }
    assert shape[axis..d.Length] == shape[axis..];
    assert d[..] == FlattenedShape(shape, axis);
  }

  lemma MoveKeepsSize<T>(t: Tensor<T>, from: nat, to: nat)
    requires Valid(t) && from < |t.shape| && to < |t.shape|
    ensures Size(Move(t, from, to).shape) == Size(t.shape)
  {
    MoveIsInvertible(|t.shape|, from, to);
    SizePermuted(MovePerm(|t.shape|, from, to), t.shape);
  }
}
