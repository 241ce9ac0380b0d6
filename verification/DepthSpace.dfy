/**
 The DepthToSpace and SpaceToDepth importers (3rdparty/onnx-tensorrt/builtin_op_importers.cpp), for any number of
 spatial dimensions: a reshape, a transpose and a reshape. A tensor's first dimension is its channel.
 */
module DepthSpace {
  import opened Arithmetic
  import opened RowMajor

  // ----- the shapes and permutations on the way

  function Repeat(b: nat, n: nat): (r: Shape)
    ensures |r| == n && forall i :: 0 <= i < n ==> r[i] == b
  {
    seq(n, _ => b)
  }

  /** Spatial sizes with a block after each of them. */
  function Interleave(s: seq<nat>, t: seq<nat>): (r: seq<nat>)
    requires |s| == |t|
    ensures |r| == 2 * |s|
    ensures forall k :: 0 <= k < 2 * |s| ==> r[k] == if k % 2 == 0 then s[k / 2] else t[k / 2]
  {
    if s == [] then []
    else
      var rest := Interleave(s[1..], t[1..]);
      assert forall k :: 0 <= k < |rest| ==> rest[k] == if k % 2 == 0 then s[1 + k / 2] else t[1 + k / 2];
      [s[0], t[0]] + rest
  }

  function Scale(s: seq<nat>, b: nat): (r: seq<nat>)
    ensures |r| == |s| && forall i :: 0 <= i < |s| ==> r[i] == s[i] * b
  {
    seq(|s|, i requires 0 <= i < |s| => s[i] * b)
  }

  /** The permutation DepthToSpace sets for n spatial dimensions. */
  function DepthPerm(n: nat): (p: seq<nat>)
    ensures |p| == 2 * n + 1
    ensures forall k :: 0 <= k <= 2 * n ==> p[k] == DepthSource(n, k)
  {
    seq(2 * n + 1, k requires 0 <= k <= 2 * n => DepthSource(n, k))
  }

  function DepthSource(n: nat, k: nat): nat {
    if k == 0 then n else if k % 2 == 1 then n + 1 + k / 2 else k / 2 - 1
  }

  /** The permutation SpaceToDepth sets. */
  function SpacePerm(n: nat): (p: seq<nat>)
    ensures |p| == 2 * n + 1
    ensures forall k :: 0 <= k <= 2 * n ==> p[k] == SpaceSource(n, k)
  {
    seq(2 * n + 1, k requires 0 <= k <= 2 * n => SpaceSource(n, k))
  }

  function SpaceSource(n: nat, k: nat): nat {
    if k < n then 2 + 2 * k else if k == n then 0 else 1 + 2 * (k - n - 1)
  }

  /** The loop that fills DepthToSpace's permutation. */
  method FillDepthPerm(n: nat) returns (order: array<nat>)
    ensures order[..] == DepthPerm(n)
  {
    order := new nat[2 * n + 1](_ => 0);
    order[0] := n;
    for i := 0 to n
      invariant forall k :: 0 <= k < 1 + 2 * i ==> order[k] == DepthSource(n, k)
    {
      order[1 + 2 * i + 0] := n + 1 + i;
      order[1 + 2 * i + 1] := i;
    }
  }

  /** The loop that fills SpaceToDepth's. */
  method FillSpacePerm(n: nat) returns (order: array<nat>)
    ensures order[..] == SpacePerm(n)
  {
    order := new nat[2 * n + 1](_ => 0);
    order[n] := 0;
    for i := 0 to n
      invariant forall k :: 0 <= k < i || n <= k <= n + i ==> order[k] == SpaceSource(n, k)
    {
      order[n + 1 + i] := 1 + 2 * i + 0;
      order[i] := 1 + 2 * i + 1;
    }
  }

  lemma PermsAreInverse(n: nat)
    ensures AreInverse(DepthPerm(n), SpacePerm(n)) && AreInverse(SpacePerm(n), DepthPerm(n))
    ensures IsPerm(DepthPerm(n)) && IsPerm(SpacePerm(n))
  {
    forall k | 0 <= k <= 2 * n
      ensures DepthSource(n, k) <= 2 * n && SpaceSource(n, DepthSource(n, k)) == k
      ensures SpaceSource(n, k) <= 2 * n && DepthSource(n, SpaceSource(n, k)) == k
    {}
    InversesArePerms(DepthPerm(n), SpacePerm(n));
  }

  /** Blocks first, then the channel, then the spatial sizes. */
  function BlocksFirst(u: seq<nat>, c: nat, s: seq<nat>): (r: seq<nat>)
    ensures |r| == |u| + 1 + |s|
    ensures forall k :: 0 <= k < |r| ==> r[k] == if k < |u| then u[k] else if k == |u| then c else s[k - |u| - 1]
  {
    (u + [c]) + s
  }

  /** Channel first, then each spatial size followed by its block. */
  function BlocksInside(u: seq<nat>, c: nat, s: seq<nat>): (r: seq<nat>)
    requires |u| == |s|
    ensures |r| == 2 * |s| + 1
    ensures forall k :: 0 <= k < |r| ==> r[k] == if k == 0 then c else if k % 2 == 1 then s[k / 2] else u[k / 2 - 1]
  {
    [c] + Interleave(s, u)
  }

  /** The one permutation puts the blocks inside, the other takes them out again. */
  lemma PermsMoveBlocks(u: seq<nat>, c: nat, s: seq<nat>)
    requires |u| == |s|
    ensures IsPerm(DepthPerm(|s|)) && Permute(DepthPerm(|s|), BlocksFirst(u, c, s)) == BlocksInside(u, c, s)
    ensures IsPerm(SpacePerm(|s|)) && Permute(SpacePerm(|s|), BlocksInside(u, c, s)) == BlocksFirst(u, c, s)
  {
    var n := |s|;
    PermsAreInverse(n);
    var p, from, to := DepthPerm(n), BlocksFirst(u, c, s), BlocksInside(u, c, s);
    forall k | 0 <= k <= 2 * n ensures Permute(p, from)[k] == to[k] {
      assert p[k] == DepthSource(n, k);
    }
    assert Permute(p, from) == to;
    PermuteInverse(p, SpacePerm(n), from);
  }

  // ----- sizes

  function Pow(b: nat, n: nat): nat {
    if n == 0 then 1 else b * Pow(b, n - 1)
  }

  lemma {:induction false} SizeRepeat(b: nat, n: nat)
    ensures Size(Repeat(b, n)) == Pow(b, n)
  {
    if n > 0 {
      SizeRepeat(b, n - 1);
      assert Repeat(b, n)[1..] == Repeat(b, n - 1);
    }
  }

  lemma SizeBlocksFirst(b: nat, c: nat, s: Shape)
    ensures Size(BlocksFirst(Repeat(b, |s|), c, s)) == Size([Pow(b, |s|) * c] + s)
  {
    SizeBlocks(b, |s|, c);
    SizeConcat(Repeat(b, |s|) + [c], s);
    SizeCons(Pow(b, |s|) * c, s);
  }

  lemma SizeBlocks(b: nat, n: nat, c: nat)
    ensures Size(Repeat(b, n) + [c]) == Pow(b, n) * c
  {
    SizeRepeat(b, n);
    SizeConcat(Repeat(b, n), [c]);
    SizeCons(c, []);
    assert [c] + [] == [c];
  }

  /** Merging each spatial size with its block keeps offsets. */
  lemma {:induction false} FlatInterleave(s: Shape, b: nat, x: Index, y: Index)
    requires |x| == |y| == |s|
    ensures Size(Interleave(s, Repeat(b, |s|))) == Size(Scale(s, b))
    ensures Flat(Interleave(s, Repeat(b, |s|)), Interleave(x, y)) == Flat(Scale(s, b), Merge(x, y, b))
  {
    if s != [] {
      FlatInterleave(s[1..], b, x[1..], y[1..]);
      InterleaveFirst(s, b, x, y);
      MergeFirst(s[0], b, s[0] * b, x[0], y[0], x[0] * b + y[0], Interleave(s[1..], Repeat(b, |s| - 1)),
        Interleave(x[1..], y[1..]), Scale(s[1..], b), Merge(x[1..], y[1..], b));
    }
  }

  lemma InterleaveFirst(s: Shape, b: nat, x: Index, y: Index)
    requires |x| == |y| == |s| > 0
    ensures Interleave(s, Repeat(b, |s|)) == [s[0]] + ([b] + Interleave(s[1..], Repeat(b, |s| - 1)))
    ensures Interleave(x, y) == [x[0]] + ([y[0]] + Interleave(x[1..], y[1..]))
    ensures Scale(s, b) == [s[0] * b] + Scale(s[1..], b)
    ensures Merge(x, y, b) == [x[0] * b + y[0]] + Merge(x[1..], y[1..], b)
  {
    assert Repeat(b, |s|)[1..] == Repeat(b, |s| - 1);
  }

  lemma MergeFirst(s: nat, b: nat, sb: nat, x: nat, y: nat, xy: nat, r: Shape, j: Index, r': Shape, j': Index)
    requires |j| == |r| && |j'| == |r'| && Size(r) == Size(r') && Flat(r, j) == Flat(r', j')
    requires sb == s * b && xy == x * b + y
    ensures Size([s] + ([b] + r)) == Size([sb] + r')
    ensures Flat([s] + ([b] + r), [x] + ([y] + j)) == Flat([sb] + r', [xy] + j')
  {
    SizeCons(s, [b] + r);
    SizeCons(b, r);
    SizeCons(sb, r');
    FlatCons(s, [b] + r, x, [y] + j);
    FlatCons(b, r, y, j);
    FlatCons(sb, r', xy, j');
    MergeArith(s, b, 0, sb, Size(r));
    MergeArith(x, b, y, xy, Size(r));
  }

  lemma MergeArith(x: nat, b: nat, y: nat, xy: nat, z: nat)
    requires xy == x * b + y
    ensures xy * z == x * (b * z) + y * z
  {
  }

  /** The spatial index made of a coarse one and one inside the block. */
  function Merge(x: Index, y: Index, b: nat): (r: Index)
    requires |x| == |y|
    ensures |r| == |x| && forall i :: 0 <= i < |x| ==> r[i] == x[i] * b + y[i]
  {
    seq(|x|, i requires 0 <= i < |x| => x[i] * b + y[i])
  }

  lemma SizeBlocksInside(b: nat, c: nat, s: Shape)
    ensures Size(BlocksInside(Repeat(b, |s|), c, s)) == Size([c] + Scale(s, b))
  {
    FlatInterleave(s, b, Repeat(0, |s|), Repeat(0, |s|));
    SizeCons(c, Interleave(s, Repeat(b, |s|)));
    SizeCons(c, Scale(s, b));
  }

  // ----- the operators

  /** The transpose in the middle of DepthToSpace. */
  function MoveBlocksInside<T>(t: Tensor<T>, b: nat, c: nat, s: Shape): (u: Tensor<T>)
    requires Valid(t) && t.shape == BlocksFirst(Repeat(b, |s|), c, s)
    ensures Valid(u) && u.shape == BlocksInside(Repeat(b, |s|), c, s)
  {
    PermsMoveBlocks(Repeat(b, |s|), c, s);
    Transpose(t, DepthPerm(|s|))
  }

  /** The transpose in the middle of SpaceToDepth. */
  function MoveBlocksFirst<T>(t: Tensor<T>, b: nat, c: nat, s: Shape): (u: Tensor<T>)
    requires Valid(t) && t.shape == BlocksInside(Repeat(b, |s|), c, s)
    ensures Valid(u) && u.shape == BlocksFirst(Repeat(b, |s|), c, s)
  {
    PermsMoveBlocks(Repeat(b, |s|), c, s);
    Transpose(t, SpacePerm(|s|))
  }

  /** DepthToSpace of a tensor with Pow(b, n) * c channels. */
  function DepthToSpace<T>(t: Tensor<T>, b: nat, c: nat, s: Shape): (u: Tensor<T>)
    requires Valid(t) && t.shape == [Pow(b, |s|) * c] + s
    ensures Valid(u) && u.shape == [c] + Scale(s, b)
  {
    SizeBlocksFirst(b, c, s);
    SizeBlocksInside(b, c, s);
    Reshape(MoveBlocksInside(Reshape(t, BlocksFirst(Repeat(b, |s|), c, s)), b, c, s), [c] + Scale(s, b))
  }

  /** SpaceToDepth of a tensor whose spatial sizes are b times s. */
  function SpaceToDepth<T>(t: Tensor<T>, b: nat, c: nat, s: Shape): (u: Tensor<T>)
    requires Valid(t) && t.shape == [c] + Scale(s, b)
    ensures Valid(u) && u.shape == [Pow(b, |s|) * c] + s
  {
    SizeBlocksInside(b, c, s);
    SizeBlocksFirst(b, c, s);
    var moved := MoveBlocksFirst(Reshape(t, BlocksInside(Repeat(b, |s|), c, s)), b, c, s);
    assert moved.shape == BlocksFirst(Repeat(b, |s|), c, s);
    Reshape(moved, [Pow(b, |s|) * c] + s)
  }

  lemma MovesAreInverse<T>(t: Tensor<T>, b: nat, c: nat, s: Shape)
    requires Valid(t)
    ensures t.shape == BlocksFirst(Repeat(b, |s|), c, s) ==> MoveBlocksFirst(MoveBlocksInside(t, b, c, s), b, c, s) == t
    ensures t.shape == BlocksInside(Repeat(b, |s|), c, s) ==>
      MoveBlocksInside(MoveBlocksFirst(t, b, c, s), b, c, s) == t
  {
    PermsAreInverse(|s|);
    if t.shape == BlocksFirst(Repeat(b, |s|), c, s) {
      TransposeBack(t, DepthPerm(|s|), SpacePerm(|s|));
    }
    if t.shape == BlocksInside(Repeat(b, |s|), c, s) {
      TransposeBack(t, SpacePerm(|s|), DepthPerm(|s|));
    }
  }

  lemma SpaceUndoesDepth<T>(t: Tensor<T>, b: nat, c: nat, s: Shape)
    requires Valid(t) && t.shape == [Pow(b, |s|) * c] + s
    ensures SpaceToDepth(DepthToSpace(t, b, c, s), b, c, s) == t
  {
    SizeBlocksFirst(b, c, s);
    SizeBlocksInside(b, c, s);
    MovesAreInverse(Reshape(t, BlocksFirst(Repeat(b, |s|), c, s)), b, c, s);
  }

  lemma DepthUndoesSpace<T>(t: Tensor<T>, b: nat, c: nat, s: Shape)
    requires Valid(t) && t.shape == [c] + Scale(s, b)
    ensures DepthToSpace(SpaceToDepth(t, b, c, s), b, c, s) == t
  {
    SizeBlocksFirst(b, c, s);
    SizeBlocksInside(b, c, s);
    MovesAreInverse(Reshape(t, BlocksInside(Repeat(b, |s|), c, s)), b, c, s);
  }

  // ----- what the operators are for

  /** Element by element: block position y of channel k at spatial position x comes from the channel numbered by
      the block position and then k. */
  lemma DepthToSpaceAt<T>(t: Tensor<T>, b: nat, c: nat, s: Shape, k: nat, x: Index, y: Index)
    requires Valid(t) && t.shape == [Pow(b, |s|) * c] + s
    requires InBounds(s, x) && InBounds(Repeat(b, |s|), y) && k < c
    ensures
      var from := [Flat(Repeat(b, |s|) + [c], y + [k])] + x;
      var to := [k] + Merge(x, y, b);
      var u := DepthToSpace(t, b, c, s);
      InBounds(t.shape, from) && InBounds(u.shape, to) && At(u, to) == At(t, from)
  {
    SizeBlocksFirst(b, c, s);
    SourceOffset(b, c, s, k, x, y);
    TargetOffset(b, c, s, k, x, y);
    MovedInsideAt(Reshape(t, BlocksFirst(Repeat(b, |s|), c, s)), b, c, s, k, x, y);
  }

  lemma MovedInsideAt<T>(t: Tensor<T>, b: nat, c: nat, s: Shape, k: nat, x: Index, y: Index)
    requires Valid(t) && t.shape == BlocksFirst(Repeat(b, |s|), c, s)
    requires InBounds(s, x) && InBounds(Repeat(b, |s|), y) && k < c
    ensures
      var u := MoveBlocksInside(t, b, c, s);
      && InBounds(t.shape, BlocksFirst(y, k, x)) && InBounds(u.shape, BlocksInside(y, k, x))
      && At(u, BlocksInside(y, k, x)) == At(t, BlocksFirst(y, k, x))
  {
    BlocksFirstBounds(Repeat(b, |s|), c, s, k, x, y);
    PermsMoveBlocks(Repeat(b, |s|), c, s);
    PermsMoveBlocks(y, k, x);
    TransposeAt(t, DepthPerm(|s|), BlocksFirst(y, k, x));
  }

  lemma BlocksFirstBounds(blocks: Shape, c: nat, s: Shape, k: nat, x: Index, y: Index)
    requires |blocks| == |s| && InBounds(s, x) && InBounds(blocks, y) && k < c
    ensures InBounds(BlocksFirst(blocks, c, s), BlocksFirst(y, k, x))
  {
    forall i | 0 <= i < 2 * |s| + 1 ensures BlocksFirst(y, k, x)[i] < BlocksFirst(blocks, c, s)[i] {
      if i > |s| { assert i == |s| + 1 + (i - |s| - 1); }
    }
  }

  /** Taking the blocks out of the channel keeps offsets. */
  lemma SourceOffset(b: nat, c: nat, s: Shape, k: nat, x: Index, y: Index)
    requires InBounds(s, x) && InBounds(Repeat(b, |s|), y) && k < c
    ensures
      var from := [Flat(Repeat(b, |s|) + [c], y + [k])] + x;
      && InBounds([Pow(b, |s|) * c] + s, from)
      && Flat([Pow(b, |s|) * c] + s, from) == Flat(BlocksFirst(Repeat(b, |s|), c, s), BlocksFirst(y, k, x))
  {
    var blocks := Repeat(b, |s|) + [c];
    SizeBlocks(b, |s|, c);
    FlatBelow(blocks, y + [k]);
    FlatConcat(blocks, s, y + [k], x);
    FlatCons(Pow(b, |s|) * c, s, Flat(blocks, y + [k]), x);
  }

  /** Merging the blocks into the spatial sizes keeps offsets. */
  lemma TargetOffset(b: nat, c: nat, s: Shape, k: nat, x: Index, y: Index)
    requires InBounds(s, x) && InBounds(Repeat(b, |s|), y) && k < c
    ensures
      var to := [k] + Merge(x, y, b);
      && InBounds([c] + Scale(s, b), to)
      && Flat([c] + Scale(s, b), to) == Flat(BlocksInside(Repeat(b, |s|), c, s), BlocksInside(y, k, x))
  {
    MergeBounds(s, b, x, y);
    FlatInterleave(s, b, x, y);
    FlatCons(c, Scale(s, b), k, Merge(x, y, b));
    FlatCons(c, Interleave(s, Repeat(b, |s|)), k, Interleave(x, y));
  }

  lemma MergeBounds(s: Shape, b: nat, x: Index, y: Index)
    requires InBounds(s, x) && InBounds(Repeat(b, |s|), y)
    ensures InBounds(Scale(s, b), Merge(x, y, b))
  {
    forall i | 0 <= i < |s| ensures x[i] * b + y[i] < s[i] * b {
      assert y[i] < Repeat(b, |s|)[i];
      MulMono(x[i] + 1, s[i], b);
      assert (x[i] + 1) * b == x[i] * b + b;
    }
  }

  // ----- the loops that compute the shapes

  lemma {:induction false} PowPositive(b: nat, n: nat)
    requires b >= 1
    ensures Pow(b, n) >= 1
  {
    if n > 0 {
      PowPositive(b, n - 1);
      MulMono(1, b, Pow(b, n - 1));
    }
  }

  ghost predicate Divisible(a: nat, p: nat) {
    exists c: nat :: a == p * c
  }

  /** m channels are left after dividing by p; one more factor b divides them exactly if p * b divides them all. */
  lemma OneMoreFactor(channels: nat, m: nat, p: nat, b: nat)
    requires channels == m * p && p >= 1 && b >= 1
    ensures m % b == 0 <==> Divisible(channels, b * p)
    ensures m % b == 0 ==> channels == (m / b) * (b * p)
  {
    assert m == (m / b) * b + m % b;
    if m % b == 0 {
      assert ((m / b) * b) * p == (m / b) * (b * p) == (b * p) * (m / b);
    }
    if Divisible(channels, b * p) {
      var c: nat :| channels == (b * p) * c;
      assert (b * p) * c == (b * c) * p;
      SameFactor(m, b * c, p);
      DivModUnique(c, 0, b);
      assert b * c == c * b + 0;
    }
  }

  lemma SameFactor(a: nat, b: nat, p: nat)
    requires a * p == b * p && p >= 1
    ensures a == b
  {
    assert (a + 1) * p == a * p + p && (b + 1) * p == b * p + p;
    if a < b { MulMono(a + 1, b, p); }
    if b < a { MulMono(b + 1, a, p); }
  }

  /** DepthToSpace's first shape; the channels must be divisible by the block size once per spatial dimension. */
  method DepthToSpaceShape(dims: Shape, b: nat) returns (ok: bool, shape: Shape, c: nat)
    requires |dims| >= 1 && b >= 1
    ensures ok <==> Divisible(dims[0], Pow(b, |dims| - 1))
    ensures ok ==> dims[0] == Pow(b, |dims| - 1) * c && shape == BlocksFirst(Repeat(b, |dims| - 1), c, dims[1..])
  {
    var n := |dims| - 1;
    var channels: nat := dims[0];
    var blocks: Shape, sizes: Shape := [], [];
    for i := 0 to n
      invariant dims[0] == channels * Pow(b, i)
      invariant blocks == Repeat(b, i) && sizes == dims[1..i + 1]
    {
      PowPositive(b, i);
      OneMoreFactor(dims[0], channels, Pow(b, i), b);
      if channels % b != 0 {
        if Divisible(dims[0], Pow(b, n)) { DivisibleByLess(dims[0], b, i, n); }
        return false, [], 0;
      }
      channels := channels / b;
      blocks := blocks + [b];
      sizes := sizes + [dims[1 + i]];
    }
    c := channels;
    assert dims[0] == Pow(b, n) * channels;
    assert sizes == dims[1..];
    ok, shape := true, BlocksFirst(blocks, channels, sizes);
  }

  lemma DivisibleByLess(channels: nat, b: nat, i: nat, n: nat)
    requires i < n && Divisible(channels, Pow(b, n))
    ensures Divisible(channels, b * Pow(b, i))
  {
    var c: nat :| channels == Pow(b, n) * c;
    var k := PowSplit(b, i + 1, n);
    assert Pow(b, n) * c == (b * Pow(b, i)) * (k * c);
  }

  lemma {:induction false} PowSplit(b: nat, i: nat, n: nat) returns (k: nat)
    requires i <= n
    ensures Pow(b, n) == Pow(b, i) * k
  {
    if i == n {
      k := 1;
    } else {
      var k' := PowSplit(b, i, n - 1);
      k := b * k';
      MulSwap(b, Pow(b, i), k');
    }
  }

  lemma InsideNext(b: nat, c: nat, s: Shape, q: nat)
    ensures BlocksInside(Repeat(b, |s + [q]|), c, s + [q]) == BlocksInside(Repeat(b, |s|), c, s) + [q] + [b]
  {
    var before, after := BlocksInside(Repeat(b, |s|), c, s), BlocksInside(Repeat(b, |s| + 1), c, s + [q]);
    forall k | 0 <= k < |before| ensures after[k] == before[k] {}
  }

  /** SpaceToDepth's first shape; every spatial size must be divisible by the block size. */
  method SpaceToDepthShape(dims: Shape, b: nat) returns (ok: bool, shape: Shape, s: Shape)
    requires |dims| >= 1 && b >= 1
    ensures ok <==> forall i :: 1 <= i < |dims| ==> dims[i] % b == 0
    ensures ok ==> dims[1..] == Scale(s, b) && shape == BlocksInside(Repeat(b, |s|), dims[0], s)
  {
    var n := |dims| - 1;
    shape := [dims[0]];
    s := [];
    for i := 0 to n
      invariant |s| == i && dims[1..i + 1] == Scale(s, b)
      invariant forall k :: 1 <= k <= i ==> dims[k] % b == 0
      invariant shape == BlocksInside(Repeat(b, i), dims[0], s)
    {
      if dims[1 + i] % b != 0 {
        return false, [], [];
      }
      var q := dims[1 + i] / b;
      InsideNext(b, dims[0], s, q);
      shape := shape + [q] + [b];
      assert dims[1 + i] == q * b;
      s := s + [q];
      assert dims[1..i + 2] == dims[1..i + 1] + [dims[i + 1]];
    }
    assert dims[1..n + 1] == dims[1..];
    ok := true;
  }
}
