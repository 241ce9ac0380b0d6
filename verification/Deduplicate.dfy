/**
 Engine::DeduplicateVarHandle (include/mxnet/engine.h): sorts two vectors of variable handles, drops
 repetitions, and drops from the read vector what the write vector holds, compacting in place.
 A vector is an array with the length its last resize left.
 */
module Deduplicate {
  import Engine
  import EngineDeadlock
  import EngineVar
  import opened Sequences

  ghost predicate Sorted(s: seq<nat>) {
    forall i, j :: 0 <= i < j < |s| ==> s[i] <= s[j]
  }

  function Elements(s: seq<nat>): set<nat> {
    set x | x in s
  }

  lemma ElementsConcat(s: seq<nat>, t: seq<nat>)
    ensures Elements(s + t) == Elements(s) + Elements(t)
  {
  }

  lemma SnocSorted(s: seq<nat>, x: nat)
    requires StrictlySorted(s) && forall y :: y in Elements(s) ==> y < x
    ensures StrictlySorted(s + [x])
  {
    forall i | 0 <= i < |s| ensures s[i] < x {
      assert s[i] in Elements(s);
    }
  }

  // ----- the standard library's sort and unique

  function Insert(x: nat, s: seq<nat>): seq<nat> {
    if s == [] || x <= s[0] then [x] + s else [s[0]] + Insert(x, s[1..])
  }

  lemma {:induction false} InsertSorts(x: nat, s: seq<nat>)
    requires Sorted(s)
    ensures Sorted(Insert(x, s)) && forall y :: y in Insert(x, s) ==> y == x || y in s
  {
    if s != [] && x > s[0] {
      InsertSorts(x, s[1..]);
      var t := Insert(x, s[1..]);
      forall i | 0 <= i < |t| ensures s[0] <= t[i] {
        assert t[i] in t;
      }
    }
  }

  lemma {:induction false} InsertAdds(x: nat, s: seq<nat>)
    ensures multiset(Insert(x, s)) == multiset(s) + multiset{x}
  {
    if s != [] && x > s[0] {
      InsertAdds(x, s[1..]);
      assert s == [s[0]] + s[1..];
    }
  }

  function Sort(s: seq<nat>): seq<nat> {
    if s == [] then [] else Insert(s[0], Sort(s[1..]))
  }

  lemma {:induction false} SortSorts(s: seq<nat>)
    ensures Sorted(Sort(s)) && multiset(Sort(s)) == multiset(s)
  {
    if s != [] {
      SortSorts(s[1..]);
      InsertSorts(s[0], Sort(s[1..]));
      InsertAdds(s[0], Sort(s[1..]));
      assert s == [s[0]] + s[1..];
    }
  }

  lemma SameMultiset(a: seq<nat>, b: seq<nat>)
    requires multiset(a) == multiset(b)
    ensures |a| == |b| && Elements(a) == Elements(b)
  {
    assert |multiset(a)| == |multiset(b)|;
    forall x ensures x in a <==> x in b {
      assert x in multiset(a) <==> x in multiset(b);
    }
  }

  method SortInPlace(a: array<nat>)
    modifies a
    ensures Sorted(a[..]) && multiset(a[..]) == multiset(old(a[..]))
    ensures Elements(a[..]) == Elements(old(a[..]))
  {
    var s := Sort(a[..]);
    SortSorts(a[..]);
    SameMultiset(s, a[..]);
    forall i | 0 <= i < a.Length { a[i] := s[i]; }
    assert a[..] == s;
  }

  /** s without the elements equal to the one before them. */
  ghost function Unique(s: seq<nat>): seq<nat> {
    if s == [] then []
    else
      var n := |s| - 1;
      Unique(s[..n]) + if n > 0 && s[n - 1] == s[n] then [] else [s[n]]
  }

  lemma {:induction false} UniqueSorts(s: seq<nat>)
    requires Sorted(s)
    ensures StrictlySorted(Unique(s)) && Elements(Unique(s)) == Elements(s)
  {
    if s != [] {
      var n := |s| - 1;
      UniqueSorts(s[..n]);
      assert s == s[..n] + [s[n]];
      ElementsConcat(s[..n], [s[n]]);
      ElementsConcat(Unique(s[..n]), [s[n]]);
      if n > 0 && s[n - 1] == s[n] {
        assert s[..n][n - 1] in Elements(s[..n]);
        assert Elements(s) == Elements(s[..n]);
        assert Unique(s) == Unique(s[..n]);
      } else {
        SnocSorted(Unique(s[..n]), s[n]);
      }
    }
  }

  /** Keeps the first of each group of equal neighbours and returns the new length. */
  method UniqueInPlace(a: array<nat>) returns (n: nat)
    modifies a
    ensures n <= a.Length && a[..n] == Unique(old(a[..]))
  {
    n := 0;
    ghost var s := a[..];
    for i := 0 to a.Length
      invariant n <= i && (n == 0 <==> i == 0)
      invariant forall k :: i <= k < a.Length ==> a[k] == s[k]
      invariant n > 0 ==> a[n - 1] == s[i - 1]
      invariant a[..n] == Unique(s[..i])
    {
      assert s[..i + 1][..i] == s[..i];
      ghost var before := a[..n];
      if n == 0 || a[n - 1] != a[i] {
        a[n] := a[i];
        n := n + 1;
        assert a[..n] == before + [s[i]];
      }
    }
    assert s[..a.Length] == s;
  }

  // ----- the merge

  /** s without what ws holds. */
  ghost function Without(s: seq<nat>, ws: set<nat>): seq<nat> {
    if s == [] then []
    else
      var n := |s| - 1;
      Without(s[..n], ws) + if s[n] in ws then [] else [s[n]]
  }

  lemma {:induction false} WithoutSorts(s: seq<nat>, ws: set<nat>)
    requires StrictlySorted(s)
    ensures StrictlySorted(Without(s, ws)) && Elements(Without(s, ws)) == Elements(s) - ws
  {
    if s != [] {
      var n := |s| - 1;
      WithoutSorts(s[..n], ws);
      assert s == s[..n] + [s[n]];
      ElementsConcat(s[..n], [s[n]]);
      ElementsConcat(Without(s[..n], ws), [s[n]]);
      if s[n] in ws {
        assert Without(s, ws) == Without(s[..n], ws);
      } else {
        SnocSorted(Without(s[..n], ws), s[n]);
      }
    }
  }

  /** The first w of the writes lie below x, the next one does not: x is a write only if it is that one. */
  lemma WriteAt(ws: seq<nat>, w: nat, x: nat)
    requires StrictlySorted(ws) && w <= |ws|
    requires forall j :: 0 <= j < w ==> ws[j] < x
    requires w < |ws| ==> x <= ws[w]
    ensures x in Elements(ws) <==> w < |ws| && ws[w] == x
  {
    if x in ws {
      var j :| 0 <= j < |ws| && ws[j] == x;
      assert w <= j;
    }
  }

  lemma WithoutNext(s: seq<nat>, r: nat, gone: set<nat>)
    requires r < |s|
    ensures Without(s[..r + 1], gone) == Without(s[..r], gone) + if s[r] in gone then [] else [s[r]]
  {
    assert s[..r + 1][..r] == s[..r];
  }

  /** Compacts the n strictly sorted reads to those that are not among the m strictly sorted writes. The
      loop reads each entry before anything can be stored over it. */
  method RemoveWritten(readVars: array<nat>, n: nat, writeVars: array<nat>, m: nat) returns (top: nat)
    requires n <= readVars.Length && m <= writeVars.Length && readVars != writeVars
    requires StrictlySorted(readVars[..n]) && StrictlySorted(writeVars[..m])
    modifies readVars
    ensures top <= n && readVars[..top] == Without(old(readVars[..n]), Elements(writeVars[..m]))
  {
    top := 0;
    var w := 0;
    ghost var s := readVars[..n];
    ghost var ws := writeVars[..m];
    for r := 0 to n
      invariant top <= r && w <= m
      invariant forall k :: r <= k < n ==> readVars[k] == s[k]
      invariant forall j, k :: 0 <= j < w && r <= k < n ==> ws[j] < s[k]
      invariant readVars[..top] == Without(s[..r], Elements(ws))
    {
      var x := readVars[r];
      while w < m && writeVars[w] < x
        invariant w <= m
        invariant forall j :: 0 <= j < w ==> ws[j] < x
      {
        w := w + 1;
      }
      WriteAt(ws, w, x);
      WithoutNext(s, r, Elements(ws));
      ghost var before := readVars[..top];
      if w == m || writeVars[w] != x {
        readVars[top] := x;
        top := top + 1;
        assert readVars[..top] == before + [x];
      }
    }
    assert s[..n] == s;
  }

  /** The two lengths are those the vectors are resized to. */
  method DeduplicateVarHandle(readVars: array<nat>, writeVars: array<nat>) returns (nr: nat, nw: nat)
    requires readVars != writeVars
    modifies readVars, writeVars
    ensures nr <= readVars.Length && nw <= writeVars.Length
    ensures StrictlySorted(writeVars[..nw]) && Elements(writeVars[..nw]) == Elements(old(writeVars[..]))
    ensures StrictlySorted(readVars[..nr])
    ensures Elements(readVars[..nr]) == Elements(old(readVars[..])) - Elements(old(writeVars[..]))
  {
    SortInPlace(writeVars);
    UniqueSorts(writeVars[..]);
    nw := UniqueInPlace(writeVars);
    SortInPlace(readVars);
    UniqueSorts(readVars[..]);
    var n := UniqueInPlace(readVars);
    WithoutSorts(readVars[..n], Elements(writeVars[..nw]));
    nr := RemoveWritten(readVars, n, writeVars, nw);
  }

  /** Operations whose handles have been through DeduplicateVarHandle never conflict with themselves, so one pushing
      thread cannot bring them to a deadlock. */
  lemma DeduplicatedNeverSelfConflicts<T>(p: Engine.Program<T>)
    requires forall o :: 0 <= o < |p.ops| ==>
      StrictlySorted(p.ops[o].mutableVars) && Elements(p.ops[o].constVars) !! Elements(p.ops[o].mutableVars)
    ensures Engine.NoSelfConflict(p)
  {
    forall a, b | Engine.IsRef(p, a) && Engine.IsRef(p, b) && a.op == b.op ensures !Engine.Conflict(p, a, b) {
      InOneList(p, a);
      InOneList(p, b);
    }
  }

  lemma InOneList<T>(p: Engine.Program<T>, a: EngineVar.Ref)
    requires Engine.IsRef(p, a)
    ensures
      var opr := p.ops[a.op];
      Engine.VarOf(p, a) in if Engine.IsWrite(p, a) then Elements(opr.mutableVars) else Elements(opr.constVars)
  {
  }

  ghost predicate Deduplicated<T>(p: Engine.Program<T>) {
    forall o :: 0 <= o < |p.ops| ==>
      && StrictlySorted(p.ops[o].mutableVars) && StrictlySorted(p.ops[o].constVars)
      && Elements(p.ops[o].constVars) !! Elements(p.ops[o].mutableVars)
  }

  /** Where several threads deadlock them, there are at least two operations, and one of them is entered and left on two
      different variables. */
  lemma DeduplicatedCycle<T>(p: Engine.Program<T>, links: seq<EngineDeadlock.Link>)
    requires Deduplicated(p) && EngineDeadlock.IsCycle(p, links)
    ensures |links| >= 2 && EngineDeadlock.IsLink(p, links[0]) && EngineDeadlock.IsLink(p, links[|links| - 1])
    ensures Engine.VarOf(p, links[|links| - 1].a) != Engine.VarOf(p, links[0].q)
  {
    var a, q := links[|links| - 1].a, links[0].q;
    assert EngineDeadlock.IsLink(p, links[0]) && EngineDeadlock.IsLink(p, links[|links| - 1]);
    InOneList(p, a);
    InOneList(p, q);
  }
}
