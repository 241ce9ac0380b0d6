/**
 Running operations one after another: the result, and what each operation sees, depend only on the order of those
 that conflict.
 */
module EngineOrders {
  import opened EngineVar
  import opened Engine
  import opened Sequences

  ghost predicate AreOps<T>(p: Program<T>, order: seq<nat>) {
    forall i :: 0 <= i < |order| ==> order[i] < |p.ops|
  }

  /** Some dependency of x conflicts with one of y. */
  ghost predicate OpsConflict<T>(p: Program<T>, x: nat, y: nat) {
    exists a, b :: IsRef(p, a) && IsRef(p, b) && a.op == x && b.op == y && Conflict(p, a, b)
  }

  /** x stands before y. */
  ghost predicate Precedes(order: seq<nat>, x: nat, y: nat) {
    exists i, j :: 0 <= i < j < |order| && order[i] == x && order[j] == y
  }

  /** Some dependency of operation o stands for each variable in its lists. */
  lemma DepOn<T>(p: Program<T>, o: nat, v: nat) returns (q: Ref)
    requires o < |p.ops| && v in p.ops[o].constVars + p.ops[o].mutableVars
    ensures IsRef(p, q) && q.op == o && VarOf(p, q) == v
    ensures v in p.ops[o].mutableVars ==> IsWrite(p, q)
  {
    var c, m := p.ops[o].constVars, p.ops[o].mutableVars;
    if v in m {
      var i :| 0 <= i < |m| && m[i] == v;
      q := Ref(o, |c| + i);
    } else {
      var i :| 0 <= i < |c| && c[i] == v;
      q := Ref(o, i);
    }
  }

  /** What one operation mutates, an operation that does not conflict with it neither reads nor mutates. */
  lemma Apart<T>(p: Program<T>, x: nat, y: nat, v: nat)
    requires x < |p.ops| && y < |p.ops| && x != y && !OpsConflict(p, x, y) && !OpsConflict(p, y, x)
    requires v in p.ops[x].mutableVars
    ensures v !in p.ops[y].constVars + p.ops[y].mutableVars
  {
    if v in p.ops[y].constVars + p.ops[y].mutableVars {
      var a := DepOn(p, x, v);
      var b := DepOn(p, y, v);
      assert Conflict(p, a, b);
    }
  }

  lemma ConflictIsMutual<T>(p: Program<T>, x: nat, y: nat)
    requires OpsConflict(p, x, y)
    ensures OpsConflict(p, y, x)
  {
    var a, b :| IsRef(p, a) && IsRef(p, b) && a.op == x && b.op == y && Conflict(p, a, b);
    assert Conflict(p, b, a);
  }

  // ----- what an operation is given

  /** A view holds the variables in the two lists of operation o and no others, each with its content. */
  ghost predicate Sees<T>(p: Program<T>, o: nat, view: map<nat, T>, mem: seq<T>)
    requires o < |p.ops|
  {
    && (forall v :: v in view <==> v in p.ops[o].constVars || v in p.ops[o].mutableVars)
    && (forall v :: v in view ==> v < |mem| && view[v] == mem[v])
  }

  lemma ViewSees<T>(p: Program<T>, o: nat, mem: seq<T>)
    requires ValidProgram(p) && o < |p.ops| && |mem| == |p.init|
    ensures Sees(p, o, View(p, o, mem), mem)
  {
    forall v | v in p.ops[o].constVars || v in p.ops[o].mutableVars ensures v < |mem| {
      var q := DepOn(p, o, v);
    }
  }

  lemma SeenIsView<T>(p: Program<T>, o: nat, view: map<nat, T>, mem: seq<T>)
    requires o < |p.ops| && Sees(p, o, view, mem)
    ensures view == View(p, o, mem)
  {
  }

  /** Running one more operation: it is given the contents of exactly the variables it names, and what its function
      makes of them is stored into those it mutates; the others stay. */
  lemma InTurnStep<T>(p: Program<T>, order: seq<nat>, o: nat, view: map<nat, T>)
    requires AreOps(p, order) && o < |p.ops| && Sees(p, o, view, InTurn(p, order))
    ensures AreOps(p, order + [o]) && InTurn(p, []) == p.init
    ensures forall v :: 0 <= v < |p.init| ==>
      InTurn(p, order + [o])[v] == if v in p.ops[o].mutableVars then p.fn(o, view, v) else InTurn(p, order)[v]
  {
    SeenIsView(p, o, view, InTurn(p, order));
    InTurnSnoc(p, order, o);
  }

  // ----- leaving one operation out

  /** The contents with x run after a, and with x left out. */
  ghost predicate LeftOut<T>(p: Program<T>, a: seq<nat>, x: nat, with: seq<T>, without: seq<T>)
    requires x < |p.ops| && AreOps(p, a)
  {
    && |with| == |without| == |p.init| && View(p, x, without) == View(p, x, InTurn(p, a))
    && forall v :: 0 <= v < |p.init| ==>
      with[v] == if v in p.ops[x].mutableVars then p.fn(x, View(p, x, InTurn(p, a)), v) else without[v]
  }

  /** Operations that do not conflict with x run as if x were not there, and x as if they were not. */
  lemma {:induction false} LeaveOut<T>(p: Program<T>, a: seq<nat>, x: nat, b: seq<nat>)
    requires AreOps(p, a) && x < |p.ops| && AreOps(p, b) && x !in b
    requires forall y :: y in b ==> !OpsConflict(p, x, y)
    ensures AreOps(p, a + ([x] + b)) && AreOps(p, a + b)
    ensures LeftOut(p, a, x, InTurn(p, a + ([x] + b)), InTurn(p, a + b))
  {
    if b == [] {
      assert a + ([x] + b) == a + [x] && a + b == a;
      InTurnSnoc(p, a, x);
    } else {
      var n := |b| - 1;
      var y, b' := b[n], b[..n];
      LeaveOut(p, a, x, b');
      assert a + ([x] + b) == (a + ([x] + b')) + [y] && a + b == (a + b') + [y];
      assert y in b;
      InTurnSnoc(p, a + ([x] + b'), y);
      InTurnSnoc(p, a + b', y);
      StoreApart(p, a, x, y, InTurn(p, a + ([x] + b')), InTurn(p, a + b'));
    }
  }

  lemma InTurnSnoc<T>(p: Program<T>, a: seq<nat>, y: nat)
    requires AreOps(p, a) && y < |p.ops|
    ensures AreOps(p, a + [y]) && InTurn(p, a + [y]) == Store(p, y, View(p, y, InTurn(p, a)), InTurn(p, a))
  {
    assert (a + [y])[..|a|] == a;
  }

  lemma StoreApart<T>(p: Program<T>, a: seq<nat>, x: nat, y: nat, with: seq<T>, without: seq<T>)
    requires AreOps(p, a) && x < |p.ops| && y < |p.ops| && x != y && !OpsConflict(p, x, y)
    requires LeftOut(p, a, x, with, without)
    ensures View(p, y, with) == View(p, y, without)
    ensures LeftOut(p, a, x, Store(p, y, View(p, y, with), with), Store(p, y, View(p, y, without), without))
  {
    if OpsConflict(p, y, x) { ConflictIsMutual(p, y, x); }
    forall v | v in p.ops[x].mutableVars ensures v !in p.ops[y].constVars + p.ops[y].mutableVars {
      Apart(p, x, y, v);
    }
    forall v | v in p.ops[y].mutableVars ensures v !in p.ops[x].constVars + p.ops[x].mutableVars {
      Apart(p, y, x, v);
    }
    assert View(p, y, with) == View(p, y, without);
    assert View(p, x, Store(p, y, View(p, y, without), without)) == View(p, x, without);
  }

  // ----- two orders of the same operations

  ghost predicate SameOps(a: seq<nat>, b: seq<nat>) {
    Distinct(a) && Distinct(b) && forall x :: x in a <==> x in b
  }

  /** Conflicting operations that stand in one order in a stand in the same order in b. */
  ghost predicate Agrees<T>(p: Program<T>, a: seq<nat>, b: seq<nat>) {
    forall x, y :: OpsConflict(p, x, y) && Precedes(a, x, y) ==> Precedes(b, x, y)
  }

  /** Each operation sees the same in both orders. */
  ghost predicate SameViews<T>(p: Program<T>, a: seq<nat>, b: seq<nat>)
    requires AreOps(p, a) && AreOps(p, b)
  {
    forall i, j :: 0 <= i < |a| && 0 <= j < |b| && a[i] == b[j] ==>
      View(p, a[i], InTurn(p, a[..i])) == View(p, b[j], InTurn(p, b[..j]))
  }

  /** Each operation finds the variables it names the same in both orders. */
  ghost predicate FindTheSame<T>(p: Program<T>, a: seq<nat>, b: seq<nat>)
    requires AreOps(p, a) && AreOps(p, b)
  {
    forall i, j, v | 0 <= i < |a| && 0 <= j < |b| && a[i] == b[j] && 0 <= v < |p.init| &&
      (v in p.ops[a[i]].constVars || v in p.ops[a[i]].mutableVars) :: InTurn(p, a[..i])[v] == InTurn(p, b[..j])[v]
  }

  /** The contents, and what each operation finds, are those of any other order that agrees on conflicts. */
  lemma OrdersAgree<T>(p: Program<T>, a: seq<nat>, b: seq<nat>)
    requires AreOps(p, a) && AreOps(p, b) && SameOps(a, b) && Agrees(p, a, b)
    ensures InTurn(p, a) == InTurn(p, b) && FindTheSame(p, a, b)
  {
    ViewsAgreeInTurn(p, a, b);
    forall i, j, v | 0 <= i < |a| && 0 <= j < |b| && a[i] == b[j] && 0 <= v < |p.init| &&
      (v in p.ops[a[i]].constVars || v in p.ops[a[i]].mutableVars)
      ensures InTurn(p, a[..i])[v] == InTurn(p, b[..j])[v]
    {
      assert View(p, a[i], InTurn(p, a[..i]))[v] == View(p, b[j], InTurn(p, b[..j]))[v];
    }
  }

  lemma {:induction false} ViewsAgreeInTurn<T>(p: Program<T>, a: seq<nat>, b: seq<nat>)
    requires AreOps(p, a) && AreOps(p, b) && SameOps(a, b) && Agrees(p, a, b)
    ensures InTurn(p, a) == InTurn(p, b) && SameViews(p, a, b)
    decreases |b|
  {
    if b == [] {
      DistinctSize(a);
      assert (set x | x in a) == {};
    } else {
      var n := |b| - 1;
      var x, b' := b[n], b[..n];
      assert x in a;
      var k :| 0 <= k < |a| && a[k] == x;
      var c, d := a[..k], a[k + 1..];
      assert a == c + ([x] + d);
      LastIsFree(p, a, b, k);
      WithoutLast(p, a, b, k);
      ViewsAgreeInTurn(p, c + d, b');
      LeaveOut(p, c, x, d);
      InTurnIsStore(p, a, b, c, d);
      ViewsAgree(p, a, b, k);
    }
  }

  /** What follows x in a does not conflict with x, the last of b. */
  lemma LastIsFree<T>(p: Program<T>, a: seq<nat>, b: seq<nat>, k: nat)
    requires SameOps(a, b) && Agrees(p, a, b) && k < |a| && b != [] && a[k] == b[|b| - 1]
    ensures a[k] !in a[k + 1..] && forall y :: y in a[k + 1..] ==> !OpsConflict(p, a[k], y)
  {
    var x, d := a[k], a[k + 1..];
    forall y | y in d ensures y != x && !OpsConflict(p, x, y) {
      var j :| 0 <= j < |d| && d[j] == y;
      assert a[k + 1 + j] == y;
      assert Precedes(a, x, y);
      assert !Precedes(b, x, y);
    }
  }

  lemma WithoutLast<T>(p: Program<T>, a: seq<nat>, b: seq<nat>, k: nat)
    requires AreOps(p, a) && AreOps(p, b) && SameOps(a, b) && Agrees(p, a, b)
    requires k < |a| && b != [] && a[k] == b[|b| - 1]
    ensures
      var a', b' := a[..k] + a[k + 1..], b[..|b| - 1];
      AreOps(p, a') && AreOps(p, b') && SameOps(a', b') && Agrees(p, a', b')
  {
    var x, n := a[k], |b| - 1;
    var a', b' := a[..k] + a[k + 1..], b[..n];
    Leaves(a, k);
    assert b == b' + [x];
    forall y ensures y in b' <==> y in b && y != x {
      if y in b' { var j :| 0 <= j < n && b'[j] == y; assert b[j] == y; }
    }
    forall y, z | OpsConflict(p, y, z) && Precedes(a', y, z) ensures Precedes(b', y, z) {
      PrecedesWhole(a, k, y, z);
      var i, j :| 0 <= i < j < |b| && b[i] == y && b[j] == z;
      assert z in a' by { var i', j' :| 0 <= i' < j' < |a'| && a'[i'] == y && a'[j'] == z; }
      assert j < n;
      assert b'[i] == y && b'[j] == z;
    }
  }

  /** Taking out the k-th element. */
  lemma Leaves(a: seq<nat>, k: nat)
    requires Distinct(a) && k < |a|
    ensures var a' := a[..k] + a[k + 1..]; Distinct(a') && forall y :: y in a' <==> y in a && y != a[k]
  {
    var a' := a[..k] + a[k + 1..];
    forall i | 0 <= i < |a'| ensures a'[i] == a[if i < k then i else i + 1] {}
    forall y | y in a && y != a[k] ensures y in a' {
      var i :| 0 <= i < |a| && a[i] == y;
      assert a'[if i < k then i else i - 1] == y;
    }
  }

  lemma PrecedesWhole(a: seq<nat>, k: nat, y: nat, z: nat)
    requires k < |a| && Precedes(a[..k] + a[k + 1..], y, z)
    ensures Precedes(a, y, z)
  {
    var a' := a[..k] + a[k + 1..];
    var i, j :| 0 <= i < j < |a'| && a'[i] == y && a'[j] == z;
    assert a[if i < k then i else i + 1] == y && a[if j < k then j else j + 1] == z;
  }

  lemma InTurnIsStore<T>(p: Program<T>, a: seq<nat>, b: seq<nat>, c: seq<nat>, d: seq<nat>)
    requires AreOps(p, b) && b != [] && AreOps(p, c) && AreOps(p, c + d) && AreOps(p, a)
    requires InTurn(p, c + d) == InTurn(p, b[..|b| - 1])
    requires LeftOut(p, c, b[|b| - 1], InTurn(p, a), InTurn(p, c + d))
    ensures InTurn(p, a) == InTurn(p, b)
  {
  }

  lemma ViewsAgree<T>(p: Program<T>, a: seq<nat>, b: seq<nat>, k: nat)
    requires AreOps(p, a) && AreOps(p, b) && Distinct(a) && Distinct(b) && b != [] && k < |a| && a[k] == b[|b| - 1]
    requires a[k] !in a[k + 1..] && forall y :: y in a[k + 1..] ==> !OpsConflict(p, a[k], y)
    requires AreOps(p, a[..k] + a[k + 1..]) && AreOps(p, b[..|b| - 1])
    requires InTurn(p, a[..k] + a[k + 1..]) == InTurn(p, b[..|b| - 1])
    requires SameViews(p, a[..k] + a[k + 1..], b[..|b| - 1])
    ensures SameViews(p, a, b)
  {
    forall i, j | 0 <= i < |a| && 0 <= j < |b| && a[i] == b[j]
      ensures View(p, a[i], InTurn(p, a[..i])) == View(p, b[j], InTurn(p, b[..j]))
    {
      if i == k {
        LeaveOut(p, a[..k], a[k], a[k + 1..]);
      } else {
        ViewWithout(p, a, k, i);
        OtherViewAgrees(p, a, b, k, i, j);
      }
    }
  }

  lemma OtherViewAgrees<T>(p: Program<T>, a: seq<nat>, b: seq<nat>, k: nat, i: nat, j: nat)
    requires AreOps(p, a) && AreOps(p, b) && Distinct(a) && Distinct(b) && b != [] && k < |a| && a[k] == b[|b| - 1]
    requires AreOps(p, a[..k] + a[k + 1..]) && AreOps(p, b[..|b| - 1])
    requires SameViews(p, a[..k] + a[k + 1..], b[..|b| - 1])
    requires i < |a| && j < |b| && a[i] == b[j] && i != k
    requires
      var i' := if i < k then i else i - 1;
      View(p, a[i], InTurn(p, (a[..k] + a[k + 1..])[..i'])) == View(p, a[i], InTurn(p, a[..i]))
    ensures View(p, a[i], InTurn(p, a[..i])) == View(p, b[j], InTurn(p, b[..j]))
  {
    var a', b' := a[..k] + a[k + 1..], b[..|b| - 1];
    var i' := if i < k then i else i - 1;
    assert a'[i'] == b'[j] && b'[..j] == b[..j];
  }

  /** The other operations see the same when the k-th is left out. */
  lemma ViewWithout<T>(p: Program<T>, a: seq<nat>, k: nat, i: nat)
    requires AreOps(p, a) && k < |a| && i < |a| && i != k && AreOps(p, a[..k] + a[k + 1..])
    requires a[k] !in a[k + 1..] && forall y :: y in a[k + 1..] ==> !OpsConflict(p, a[k], y)
    ensures
      var i' := if i < k then i else i - 1;
      View(p, a[i], InTurn(p, (a[..k] + a[k + 1..])[..i'])) == View(p, a[i], InTurn(p, a[..i]))
  {
    var a' := a[..k] + a[k + 1..];
    if i < k {
      assert a'[..i] == a[..i];
    } else {
      var e := a[k + 1..i];
      assert a[..i] == a[..k] + ([a[k]] + e) && a'[..i - 1] == a[..k] + e;
      assert forall y :: y in e ==> y in a[k + 1..];
      assert a[i] in a[k + 1..];
      LeaveOut(p, a[..k], a[k], e);
      StoreApart(p, a[..k], a[k], a[i], InTurn(p, a[..i]), InTurn(p, a'[..i - 1]));
    }
  }
}
