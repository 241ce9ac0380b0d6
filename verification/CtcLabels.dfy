/**
 Label packing of plugin/warpctc/warpctc-inl.h: Backward counts the labels of each batch entry that are not blank,
 allocates that many cells and packs the labels into them.
 */
module CtcLabels {

  import opened Sequences

  /** The labels that are not blank, in order. */
  function NonBlank(labels: seq<int>, blank: int): seq<int> {
    if labels == [] then []
    else
      var n := |labels| - 1;
      NonBlank(labels[..n], blank) + if labels[n] == blank then [] else [labels[n]]
  }

  /** Those are the labels at the positions that do not hold the blank, and at no others. */
  lemma {:induction false} NonBlankIs(labels: seq<int>, blank: int) returns (ks: seq<nat>)
    ensures StrictlySorted(ks) && forall i: nat :: i in ks <==> i < |labels| && labels[i] != blank
    ensures |NonBlank(labels, blank)| == |ks|
    ensures forall j :: 0 <= j < |ks| ==> ks[j] < |labels| && NonBlank(labels, blank)[j] == labels[ks[j]]
  {
    if labels == [] {
      ks := [];
    } else {
      var n := |labels| - 1;
      ks := NonBlankIs(labels[..n], blank);
      assert forall i: nat :: i in ks <==> i < n && labels[i] != blank;
      if labels[n] != blank { ks := ks + [n]; }
    }
  }

  lemma {:induction false} NonBlankConcat(a: seq<int>, b: seq<int>, blank: int)
    ensures NonBlank(a + b, blank) == NonBlank(a, blank) + NonBlank(b, blank)
  {
    if b == [] {
      assert a + b == a;
    } else {
      var n := |b| - 1;
      NonBlankConcat(a, b[..n], blank);
      assert (a + b)[..|a + b| - 1] == a + b[..n];
    }
  }

  /** Where the labels of batch entry b start. */
  function Start(width: nat, b: nat): nat {
    if b == 0 then 0 else Start(width, b - 1) + width
  }

  lemma {:induction false} StartIsProduct(width: nat, b: nat)
    ensures Start(width, b) == width * b
  {
    if b > 0 { StartIsProduct(width, b - 1); }
  }

  lemma {:induction false} StartsRise(width: nat, a: nat, b: nat)
    requires a <= b
    ensures Start(width, a) <= Start(width, b)
    ensures a < b ==> Start(width, a + 1) <= Start(width, b)
  {
    if a < b { StartsRise(width, a, b - 1); }
  }

  /** The labels of batch entry b. */
  function Row(labels: seq<int>, width: nat, b: nat): seq<int>
    requires Start(width, b + 1) <= |labels|
  {
    labels[Start(width, b)..Start(width, b + 1)]
  }

  function Sum(lengths: seq<nat>): nat {
    if lengths == [] then 0 else Sum(lengths[..|lengths| - 1]) + lengths[|lengths| - 1]
  }

  /** Each length is that of the entry's own labels without blanks. */
  ghost predicate LengthsRight(labels: seq<int>, width: nat, blank: int, lengths: seq<nat>) {
    forall b: nat :: b < |lengths| ==> LengthRight(labels, width, blank, b, lengths[b])
  }

  ghost predicate LengthRight(labels: seq<int>, width: nat, blank: int, b: nat, length: nat) {
    Start(width, b + 1) <= |labels| && length == |NonBlank(Row(labels, width, b), blank)|
  }

  // ----- counting

  /** How many of the first i labels belong to entry b and are not blank. */
  function CountUpTo(labels: seq<int>, width: nat, blank: int, b: nat, i: nat): nat
    requires width >= 1 && i <= |labels|
  {
    if i == 0 then 0
    else CountUpTo(labels, width, blank, b, i - 1) + if labels[i - 1] != blank && (i - 1) / width == b then 1 else 0
  }

  /** Division finds the entry a label belongs to. */
  lemma EntryOf(i: nat, width: nat, b: nat)
    requires width >= 1
    ensures i / width == b <==> Start(width, b) <= i < Start(width, b + 1)
  {
    var q := i / width;
    StartIsProduct(width, q);
    assert i == width * q + i % width;
    if q < b { StartsRise(width, q, b); }
    if q > b { StartsRise(width, b, q); }
  }

  /** Counting label by label finds the length of the entry's own labels. */
  lemma {:induction false} CountIsRow(labels: seq<int>, width: nat, blank: int, b: nat, i: nat)
    requires width >= 1 && Start(width, b + 1) <= |labels| && i <= |labels|
    ensures
      var lo, hi := Start(width, b), Start(width, b + 1);
      CountUpTo(labels, width, blank, b, i) ==
        if i <= lo then 0 else |NonBlank(labels[lo..if i <= hi then i else hi], blank)|
  {
    var lo, hi := Start(width, b), Start(width, b + 1);
    if i > 0 {
      CountIsRow(labels, width, blank, b, i - 1);
      EntryOf(i - 1, width, b);
      if lo < i <= hi {
        assert labels[lo..i][..i - 1 - lo] == labels[lo..i - 1];
      }
    }
  }

  /** labelLengths; a batch the labels do not fill fails its CHECK. */
  method LabelLengths(labels: seq<int>, minibatch: nat, width: nat, blank: int)
    returns (ok: bool, lengths: seq<nat>, total: nat)
    ensures ok <==> width * minibatch == |labels|
    ensures ok ==> |lengths| == minibatch && total == |NonBlank(labels, blank)|
    ensures ok ==> LengthsRight(labels, width, blank, lengths)
  {
    lengths, total := [], 0;
    StartIsProduct(width, minibatch);
    if width * minibatch != |labels| {
      return false, lengths, total;
    }
    if labels != [] {
      NonZeroWidth(width, minibatch);
    }
    var ret := new nat[minibatch](_ => 0);
    for i := 0 to |labels|
      invariant total == |NonBlank(labels[..i], blank)|
      invariant forall b :: 0 <= b < minibatch ==> ret[b] == if i == 0 then 0 else CountUpTo(labels, width, blank, b, i)
    {
      assert labels[..i + 1][..i] == labels[..i];
      if labels[i] == blank {
        continue;
      }
      var b := OwningEntry(i, width, minibatch);
      ret[b] := ret[b] + 1;
      total := total + 1;
    }
    assert labels[..|labels|] == labels;
    forall b: nat | b < minibatch
      ensures LengthRight(labels, width, blank, b, ret[b])
    {
      StartsRise(width, b, minibatch);
      if width >= 1 && |labels| > 0 {
        CountIsRow(labels, width, blank, b, |labels|);
      } else {
        assert Row(labels, width, b) == [];
      }
    }
    ok, lengths := true, ret[..];
  }

  /** The division in the loop: labels fill the batch, so it stays inside. */
  method OwningEntry(i: nat, width: nat, minibatch: nat) returns (b: nat)
    requires i < Start(width, minibatch)
    ensures width >= 1 && b == i / width && b < minibatch
  {
    NonZeroWidth(width, minibatch);
    b := i / width;
    EntryOf(i, width, b);
    if b >= minibatch { StartsRise(width, minibatch, b); }
  }

  lemma {:induction false} NonZeroWidth(width: nat, b: nat)
    requires Start(width, b) > 0
    ensures width >= 1
  {
    if b > 0 && width == 0 { NonZeroWidth(width, b - 1); }
  }

  // ----- packing

  /** removeBlank: the cells written are exactly as many as labels are not blank. */
  method RemoveBlank(labels: seq<int>, cells: array<int>, blank: int)
    requires |NonBlank(labels, blank)| <= cells.Length
    modifies cells
    ensures cells[..|NonBlank(labels, blank)|] == NonBlank(labels, blank)
    ensures cells[|NonBlank(labels, blank)|..] == old(cells[|NonBlank(labels, blank)|..])
  {
    var k := 0;
    for i := 0 to |labels|
      invariant k == |NonBlank(labels[..i], blank)| <= |NonBlank(labels, blank)|
      invariant cells[..k] == NonBlank(labels[..i], blank)
      invariant forall j :: k <= j < cells.Length ==> cells[j] == old(cells[j])
    {
      assert labels[..i + 1][..i] == labels[..i];
      NonBlankConcat(labels[..i + 1], labels[i + 1..], blank);
      assert labels == labels[..i + 1] + labels[i + 1..];
      if labels[i] != blank {
        cells[k] := labels[i];
        k := k + 1;
      }
    }
    assert labels[..|labels|] == labels;
  }

  /** Cutting packed labels by the lengths gives back, entry by entry, the entry's own labels. */
  ghost predicate CutsRight(labels: seq<int>, width: nat, blank: int, lengths: seq<nat>, packed: seq<int>) {
    forall b: nat :: b < |lengths| ==> CutRight(labels, width, blank, b, Sum(lengths[..b]), lengths[b], packed)
  }

  ghost predicate CutRight(labels: seq<int>, width: nat, blank: int, b: nat, at: nat, length: nat, packed: seq<int>) {
    && Start(width, b + 1) <= |labels| && at + length <= |packed|
    && packed[at..at + length] == NonBlank(Row(labels, width, b), blank)
  }

  /** What Backward hands to the loss: the lengths, and packed labels in a block of just the right size. */
  method PackLabels(labels: seq<int>, minibatch: nat, width: nat, blank: int)
    returns (ok: bool, lengths: seq<nat>, cells: array<int>)
    ensures ok <==> width * minibatch == |labels|
    ensures ok ==> |lengths| == minibatch && cells[..] == NonBlank(labels, blank) && Sum(lengths) == cells.Length
    ensures ok ==> CutsRight(labels, width, blank, lengths, cells[..])
  {
    var total;
    ok, lengths, total := LabelLengths(labels, minibatch, width, blank);
    cells := new int[total](_ => 0);
    if !ok {
      return;
    }
    RemoveBlank(labels, cells, blank);
    assert cells[..] == cells[..total];
    StartIsProduct(width, minibatch);
    PackedRight(labels, width, blank, lengths);
  }

  lemma PackedRight(labels: seq<int>, width: nat, blank: int, lengths: seq<nat>)
    requires LengthsRight(labels, width, blank, lengths) && Start(width, |lengths|) == |labels|
    ensures Sum(lengths) == |NonBlank(labels, blank)|
    ensures CutsRight(labels, width, blank, lengths, NonBlank(labels, blank))
  {
    forall b: nat | b < |lengths|
      ensures CutRight(labels, width, blank, b, Sum(lengths[..b]), lengths[b], NonBlank(labels, blank))
    {
      CutOut(labels, width, blank, lengths, b);
    }
    PrefixLength(labels, width, blank, lengths, |lengths|);
    assert labels[..|labels|] == labels && lengths[..|lengths|] == lengths;
  }

  /** What packing makes of the first b entries. */
  lemma {:induction false} PrefixLength(labels: seq<int>, width: nat, blank: int, lengths: seq<nat>, b: nat)
    requires b <= |lengths| && LengthsRight(labels, width, blank, lengths) && Start(width, b) <= |labels|
    ensures |NonBlank(labels[..Start(width, b)], blank)| == Sum(lengths[..b])
  {
    if b > 0 {
      PrefixLength(labels, width, blank, lengths, b - 1);
      assert LengthRight(labels, width, blank, b - 1, lengths[b - 1]);
      NonBlankGrows(labels, Start(width, b - 1), Start(width, b), blank);
      assert lengths[..b][..b - 1] == lengths[..b - 1];
    } else {
      assert labels[..0] == [];
    }
  }

  lemma NonBlankGrows(labels: seq<int>, lo: nat, hi: nat, blank: int)
    requires lo <= hi <= |labels|
    ensures |NonBlank(labels[..hi], blank)| == |NonBlank(labels[..lo], blank)| + |NonBlank(labels[lo..hi], blank)|
  {
    assert labels[..hi] == labels[..lo] + labels[lo..hi];
    NonBlankConcat(labels[..lo], labels[lo..hi], blank);
  }

  lemma CutOut(labels: seq<int>, width: nat, blank: int, lengths: seq<nat>, b: nat)
    requires b < |lengths| && LengthsRight(labels, width, blank, lengths)
    ensures CutRight(labels, width, blank, b, Sum(lengths[..b]), lengths[b], NonBlank(labels, blank))
  {
    assert LengthRight(labels, width, blank, b, lengths[b]);
    PrefixLength(labels, width, blank, lengths, b);
    NonBlankMiddle(labels, Start(width, b), Start(width, b + 1), blank);
  }

  /** Where the labels between lo and hi stand among those that are not blank. */
  lemma NonBlankMiddle(labels: seq<int>, lo: nat, hi: nat, blank: int)
    requires lo <= hi <= |labels|
    ensures
      var at, row := |NonBlank(labels[..lo], blank)|, NonBlank(labels[lo..hi], blank);
      at + |row| <= |NonBlank(labels, blank)| && NonBlank(labels, blank)[at..at + |row|] == row
  {
    var x, y, z := NonBlank(labels[..lo], blank), NonBlank(labels[lo..hi], blank), NonBlank(labels[hi..], blank);
    NonBlankThree(labels[..lo], labels[lo..hi], labels[hi..], blank);
    assert labels == (labels[..lo] + labels[lo..hi]) + labels[hi..];
    Middle(x, y, z);
  }

  lemma NonBlankThree(a: seq<int>, b: seq<int>, c: seq<int>, blank: int)
    ensures NonBlank((a + b) + c, blank) == (NonBlank(a, blank) + NonBlank(b, blank)) + NonBlank(c, blank)
  {
    NonBlankConcat(a + b, c, blank);
    NonBlankConcat(a, b, blank);
  }

  lemma Middle(x: seq<int>, y: seq<int>, z: seq<int>)
    ensures ((x + y) + z)[|x|..|x| + |y|] == y
  {
  }
}
