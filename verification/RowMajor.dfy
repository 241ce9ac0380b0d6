/**
 Row-major tensors of any rank: how a multi-index and a flat offset determine each other, and what transposing
 and reshaping do to the data.
 */
module RowMajor {
  import opened Arithmetic
  import opened Sequences

  type Shape = seq<nat>
  type Index = seq<nat>

  // ----- offsets

  /** How many elements a shape has. */
  function Size(shape: Shape): nat {
    if shape == [] then 1 else shape[0] * Size(shape[1..])
  }

  predicate InBounds(shape: Shape, idx: Index) {
    |idx| == |shape| && forall i :: 0 <= i < |shape| ==> idx[i] < shape[i]
  }

  function Flat(shape: Shape, idx: Index): nat
    requires |idx| == |shape|
  {
    if shape == [] then 0 else idx[0] * Size(shape[1..]) + Flat(shape[1..], idx[1..])
  }

  lemma {:induction false} FlatBelow(shape: Shape, idx: Index)
    requires InBounds(shape, idx)
    ensures Flat(shape, idx) < Size(shape)
  {
    if shape != [] {
      var s := Size(shape[1..]);
      FlatBelow(shape[1..], idx[1..]);
      MulMono(idx[0] + 1, shape[0], s);
      assert (idx[0] + 1) * s == idx[0] * s + s;
    }
  }

  function Unflat(shape: Shape, k: nat): (idx: Index)
    requires k < Size(shape)
    ensures InBounds(shape, idx)
  {
    if shape == [] then []
    else
      var s := Size(shape[1..]);
      DivBelow(k, shape[0], s);
      [k / s] + Unflat(shape[1..], k % s)
  }

  lemma {:induction false} FlatUnflat(shape: Shape, k: nat)
    requires k < Size(shape)
    ensures Flat(shape, Unflat(shape, k)) == k
  {
    if shape != [] {
      var s := Size(shape[1..]);
      DivBelow(k, shape[0], s);
      FlatUnflat(shape[1..], k % s);
      assert Unflat(shape, k)[1..] == Unflat(shape[1..], k % s);
    }
  }

  lemma {:induction false} UnflatFlat(shape: Shape, idx: Index)
    requires InBounds(shape, idx)
    ensures Flat(shape, idx) < Size(shape) && Unflat(shape, Flat(shape, idx)) == idx
  {
    FlatBelow(shape, idx);
    if shape != [] {
      var s := Size(shape[1..]);
      FlatBelow(shape[1..], idx[1..]);
      DivModUnique(idx[0], Flat(shape[1..], idx[1..]), s);
      UnflatFlat(shape[1..], idx[1..]);
      assert idx == [idx[0]] + idx[1..];
    }
  }

  // ----- joining shapes

  lemma SizeCons(d: nat, shape: Shape)
    ensures Size([d] + shape) == d * Size(shape)
  {
    assert ([d] + shape)[1..] == shape;
  }

  function Ones(n: nat): (r: Shape)
    ensures |r| == n && forall i :: 0 <= i < n ==> r[i] == 1
  {
    seq(n, _ => 1)
  }

  lemma {:induction false} SizeOnes(n: nat)
    ensures Size(Ones(n)) == 1
  {
    if n > 0 {
      SizeOnes(n - 1);
      assert Ones(n)[1..] == Ones(n - 1);
    }
  }

  lemma {:induction false} SizeConcat(a: Shape, b: Shape)
    ensures Size(a + b) == Size(a) * Size(b)
  {
    if a == [] {
      assert a + b == b;
    } else {
      assert (a + b)[1..] == a[1..] + b;
      SizeConcat(a[1..], b);
      assert a[0] * (Size(a[1..]) * Size(b)) == (a[0] * Size(a[1..])) * Size(b);
    }
  }

  lemma FlatCons(d: nat, shape: Shape, i: nat, idx: Index)
    requires |idx| == |shape|
    ensures Flat([d] + shape, [i] + idx) == i * Size(shape) + Flat(shape, idx)
  {
    assert ([d] + shape)[1..] == shape && ([i] + idx)[1..] == idx;
  }

  lemma {:induction false} FlatConcat(a: Shape, b: Shape, i: Index, j: Index)
    requires |i| == |a| && |j| == |b|
    ensures Flat(a + b, i + j) == Flat(a, i) * Size(b) + Flat(b, j)
  {
    if a == [] {
      assert a + b == b && i + j == j;
    } else {
      assert (a + b)[1..] == a[1..] + b && (i + j)[1..] == i[1..] + j;
      FlatConcat(a[1..], b, i[1..], j);
      SizeConcat(a[1..], b);
      var s, t := Size(a[1..]), Size(b);
      assert i[0] * (s * t) + Flat(a[1..], i[1..]) * t == (i[0] * s + Flat(a[1..], i[1..])) * t;
    }
  }

  // ----- permutations

  /** perm[i] is the source of dimension i: each dimension is taken once. */
  ghost predicate IsPerm(perm: seq<nat>) {
    && Distinct(perm)
    && (forall i :: 0 <= i < |perm| ==> perm[i] < |perm|)
    && (forall j: nat :: j < |perm| ==> j in perm)
  }

  function Permute<T>(perm: seq<nat>, s: seq<T>): (r: seq<T>)
    requires |perm| == |s| && forall i :: 0 <= i < |perm| ==> perm[i] < |s|
    ensures |r| == |s| && forall i :: 0 <= i < |s| ==> r[i] == s[perm[i]]
  {
    seq(|perm|, i requires 0 <= i < |perm| => s[perm[i]])
  }

  function Position(perm: seq<nat>, j: nat): (i: nat)
    requires j in perm
    ensures i < |perm| && perm[i] == j
  {
    if perm[0] == j then 0 else 1 + Position(perm[1..], j)
  }

  function Inverse(perm: seq<nat>): (inv: seq<nat>)
    requires IsPerm(perm)
    ensures |inv| == |perm| && forall j :: 0 <= j < |perm| ==> inv[j] < |perm| && perm[inv[j]] == j
  {
    seq(|perm|, j requires 0 <= j < |perm| => Position(perm, j))
  }

  ghost predicate AreInverse(p: seq<nat>, q: seq<nat>) {
    && |p| == |q|
    && (forall i :: 0 <= i < |p| ==> p[i] < |p| && q[p[i]] == i)
    && (forall i :: 0 <= i < |q| ==> q[i] < |q| && p[q[i]] == i)
  }

  lemma InversePerm(p: seq<nat>)
    requires IsPerm(p)
    ensures AreInverse(p, Inverse(p))
  {
    var q := Inverse(p);
    forall i | 0 <= i < |p| ensures q[p[i]] == i {
      assert p[q[p[i]]] == p[i];
    }
  }

  lemma InversesArePerms(p: seq<nat>, q: seq<nat>)
    requires AreInverse(p, q)
    ensures IsPerm(p) && IsPerm(q)
  {
    forall j: nat | j < |p| ensures j in p && j in q {
      assert p[q[j]] == j && q[p[j]] == j;
    }
    forall i, j | 0 <= i < j < |p| ensures p[i] != p[j] && q[i] != q[j] {
      assert q[p[i]] == i && q[p[j]] == j && p[q[i]] == i && p[q[j]] == j;
    }
  }

  lemma PermuteInverse<T>(p: seq<nat>, q: seq<nat>, s: seq<T>)
    requires AreInverse(p, q) && |s| == |p|
    ensures Permute(q, Permute(p, s)) == s
  {
  }

  lemma PermuteBounds(perm: seq<nat>, shape: Shape, idx: Index)
    requires IsPerm(perm) && |perm| == |shape| == |idx|
    ensures InBounds(Permute(perm, shape), Permute(perm, idx)) <==> InBounds(shape, idx)
  {
    if InBounds(Permute(perm, shape), Permute(perm, idx)) {
      forall j | 0 <= j < |shape| ensures idx[j] < shape[j] {
        var i := Position(perm, j);
        assert Permute(perm, idx)[i] < Permute(perm, shape)[i];
      }
    }
  }

  /** What is left of a permutation when its first entry and that dimension are taken away. */
  function DropFirst(perm: seq<nat>): (r: seq<nat>)
    requires IsPerm(perm) && perm != []
    ensures |r| == |perm| - 1
    ensures forall i :: 0 <= i < |r| ==> r[i] == if perm[i + 1] > perm[0] then perm[i + 1] - 1 else perm[i + 1]
  {
    seq(|perm| - 1, i requires 0 <= i < |perm| - 1 => if perm[i + 1] > perm[0] then perm[i + 1] - 1 else perm[i + 1])
  }

  lemma DropFirstIsPerm(perm: seq<nat>)
    requires IsPerm(perm) && perm != []
    ensures IsPerm(DropFirst(perm))
  {
    var r := DropFirst(perm);
    forall j: nat | j < |r| ensures j in r {
      var from := if j < perm[0] then j else j + 1;
      var i := Position(perm, from);
      assert i > 0 && r[i - 1] == j;
    }
  }

  /** Permuting the dimensions keeps the number of elements. */
  lemma {:induction false} SizePermuted(perm: seq<nat>, shape: Shape)
    requires IsPerm(perm) && |perm| == |shape|
    ensures Size(Permute(perm, shape)) == Size(shape)
    decreases |perm|
  {
    if perm != [] {
      var j := perm[0];
      var rest := shape[..j] + shape[j + 1..];
      DropFirstIsPerm(perm);
      SizePermuted(DropFirst(perm), rest);
      assert Permute(perm, shape)[1..] == Permute(DropFirst(perm), rest);
      SizeWithout(shape, j);
    }
  }

  lemma SizeWithout(shape: Shape, j: nat)
    requires j < |shape|
    ensures Size(shape) == shape[j] * Size(shape[..j] + shape[j + 1..])
  {
    assert shape == shape[..j] + ([shape[j]] + shape[j + 1..]);
    SizeConcat(shape[..j], [shape[j]] + shape[j + 1..]);
    SizeConcat(shape[..j], shape[j + 1..]);
    SizeCons(shape[j], shape[j + 1..]);
    MulSwap(Size(shape[..j]), shape[j], Size(shape[j + 1..]));
  }

  // ----- tensors

  datatype Tensor<T> = Tensor(shape: Shape, data: seq<T>)

  predicate Valid<T>(t: Tensor<T>) {
    |t.data| == Size(t.shape)
  }

  function At<T>(t: Tensor<T>, idx: Index): T
    requires Valid(t) && InBounds(t.shape, idx)
  {
    FlatBelow(t.shape, idx);
    t.data[Flat(t.shape, idx)]
  }

  /** Tensors of one shape that agree on every index are equal. */
  lemma SameElements<T>(t: Tensor<T>, u: Tensor<T>)
    requires Valid(t) && Valid(u) && t.shape == u.shape
    requires forall idx: Index :: InBounds(t.shape, idx) ==> At(t, idx) == At(u, idx)
    ensures t == u
  {
    forall k | 0 <= k < |t.data| ensures t.data[k] == u.data[k] {
      FlatUnflat(t.shape, k);
      assert At(t, Unflat(t.shape, k)) == At(u, Unflat(t.shape, k));
    }
  }

  /** Where element k of the transposed tensor comes from. */
  function TransposeSource(shape: Shape, perm: seq<nat>, k: nat): (j: nat)
    requires IsPerm(perm) && |perm| == |shape| && k < Size(Permute(perm, shape))
    ensures j < Size(shape)
  {
    var idx := Unflat(Permute(perm, shape), k);
    var inv := Inverse(perm);
    InversePerm(perm);
    PermuteInverse(inv, perm, idx);
    PermuteBounds(perm, shape, Permute(inv, idx));
    FlatBelow(shape, Permute(inv, idx));
    Flat(shape, Permute(inv, idx))
  }

  function Transpose<T>(t: Tensor<T>, perm: seq<nat>): (u: Tensor<T>)
    requires Valid(t) && IsPerm(perm) && |perm| == |t.shape|
    ensures Valid(u) && u.shape == Permute(perm, t.shape)
  {
    var shape := Permute(perm, t.shape);
    Tensor(shape, seq(Size(shape), k requires 0 <= k < Size(shape) => t.data[TransposeSource(t.shape, perm, k)]))
  }

  lemma TransposeAt<T>(t: Tensor<T>, perm: seq<nat>, idx: Index)
    requires Valid(t) && IsPerm(perm) && |perm| == |t.shape| && InBounds(t.shape, idx)
    ensures InBounds(Permute(perm, t.shape), Permute(perm, idx))
    ensures At(Transpose(t, perm), Permute(perm, idx)) == At(t, idx)
  {
    var shape := Permute(perm, t.shape);
    PermuteBounds(perm, t.shape, idx);
    UnflatFlat(shape, Permute(perm, idx));
    InversePerm(perm);
    PermuteInverse(perm, Inverse(perm), idx);
  }

  function Reshape<T>(t: Tensor<T>, shape: Shape): (u: Tensor<T>)
    requires Valid(t) && Size(shape) == Size(t.shape)
    ensures Valid(u)
  {
    Tensor(shape, t.data)
  }

  lemma TransposeBack<T>(t: Tensor<T>, p: seq<nat>, q: seq<nat>)
    requires Valid(t) && AreInverse(p, q) && |p| == |t.shape|
    ensures IsPerm(p) && IsPerm(q)
    ensures Transpose(Transpose(t, p), q) == t
  {
    InversesArePerms(p, q);
    var u := Transpose(Transpose(t, p), q);
    PermuteInverse(p, q, t.shape);
    forall idx: Index | InBounds(t.shape, idx) ensures At(u, idx) == At(t, idx) {
      TransposeAt(t, p, idx);
      TransposeAt(Transpose(t, p), q, Permute(p, idx));
      PermuteInverse(p, q, idx);
    }
    SameElements(u, t);
  }
}
