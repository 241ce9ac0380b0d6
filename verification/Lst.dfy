/**
 The .lst files of tools/im2rec.py: write_list prints one line per item, read_list reads them back and skips every
 line it cannot read. A file is the string of its characters. Text mode turns "\r" and "\r\n" into a line break; here
 each of the two characters ends a line, which differs only by empty lines, and those are skipped.
 */
module Lst {

  import opened Options
  import opened Decimal

  datatype Item = Item(id: int, path: string, labels: seq<real>)

  // ----- str.strip, str.split and readline

  /** What str.strip takes off. */
  predicate IsSpace(c: char) {
    var n := c as int;
    || 0x09 <= n <= 0x0D || 0x1C <= n <= 0x20 || n == 0x85 || n == 0xA0 || n == 0x1680 || 0x2000 <= n <= 0x200A
    || n == 0x2028 || n == 0x2029 || n == 0x202F || n == 0x205F || n == 0x3000
  }

  predicate IsBreak(c: char) { c == '\n' || c == '\r' }

  predicate Trimmed(s: string) { s != [] ==> !IsSpace(s[0]) && !IsSpace(s[|s| - 1]) }

  function StripLeft(s: string): string { if s != [] && IsSpace(s[0]) then StripLeft(s[1..]) else s }

  function StripRight(s: string): string {
    if s != [] && IsSpace(s[|s| - 1]) then StripRight(s[..|s| - 1]) else s
  }

  function Strip(s: string): string { StripLeft(StripRight(s)) }

  /** The parts between tabs. */
  function Split(s: string): (parts: seq<string>)
    ensures parts != []
  {
    if s == [] then [[]]
    else if s[0] == '\t' then [[]] + Split(s[1..])
    else
      var rest := Split(s[1..]);
      [[s[0]] + rest[0]] + rest[1..]
  }

  /** The length of the first line with its break. */
  function LineLength(text: string): (k: nat)
    requires text != []
    ensures 0 < k <= |text|
  {
    if |text| == 1 || IsBreak(text[0]) then 1 else 1 + LineLength(text[1..])
  }

  // ----- write_list

  function PrintLabels(labels: seq<real>): string {
    if labels == [] then [] else PrintLabel(labels[0]) + (['\t'] + PrintLabels(labels[1..]))
  }

  function PrintBody(item: Item): string {
    PrintInt(item.id) + (['\t'] + (PrintLabels(item.labels) + item.path))
  }

  function PrintList(items: seq<Item>): string {
    if items == [] then [] else PrintBody(items[0]) + (['\n'] + PrintList(items[1..]))
  }

  lemma LabelsFrom(labels: seq<real>, j: nat)
    requires j < |labels|
    ensures PrintLabels(labels[j..]) == PrintLabel(labels[j]) + (['\t'] + PrintLabels(labels[j + 1..]))
  {
    assert labels[j..][1..] == labels[j + 1..];
  }

  lemma ListFrom(items: seq<Item>, i: nat)
    requires i < |items|
    ensures PrintList(items[i..]) == PrintBody(items[i]) + (['\n'] + PrintList(items[i + 1..]))
  {
    assert items[i..][1..] == items[i + 1..];
  }

  /** The line of one item. */
  method PrintLine(item: Item) returns (line: string)
    ensures line == PrintBody(item) + ['\n']
  {
    line := PrintInt(item.id) + ['\t'];
    ghost var whole := line + PrintLabels(item.labels);
    assert item.labels[0..] == item.labels;
    for j := 0 to |item.labels|
      invariant line + PrintLabels(item.labels[j..]) == whole
    {
      LabelsFrom(item.labels, j);
      Regroup(line, PrintLabel(item.labels[j]), '\t', PrintLabels(item.labels[j + 1..]));
      line := line + (PrintLabel(item.labels[j]) + ['\t']);
    }
    assert line == whole;
    line := line + (item.path + ['\n']);
    BodyIs(PrintInt(item.id), PrintLabels(item.labels), item.path);
  }

  method WriteList(items: seq<Item>) returns (text: string)
    ensures text == PrintList(items)
  {
    text := [];
    assert items[0..] == items;
    for i := 0 to |items|
      invariant text + PrintList(items[i..]) == PrintList(items)
    {
      var line := PrintLine(items[i]);
      ListFrom(items, i);
      Regroup(text, PrintBody(items[i]), '\n', PrintList(items[i + 1..]));
      text := text + line;
    }
  }

  lemma Regroup(text: string, body: string, end: char, rest: string)
    ensures text + (body + ([end] + rest)) == (text + (body + [end])) + rest
  {
  }

  lemma BodyIs(id: string, labels: string, path: string)
    ensures ((id + ['\t']) + labels) + (path + ['\n']) == (id + (['\t'] + (labels + path))) + ['\n']
  {
  }

  // ----- read_list

  function ParseLabels(parts: seq<string>): Option<seq<real>> {
    if parts == [] then Some([])
    else
      var head, tail := ParseFloat(parts[0]), ParseLabels(parts[1..]);
      if head.None? || tail.None? then None else Some([head.value] + tail.value)
  }

  function StripAll(parts: seq<string>): seq<string> { seq(|parts|, i requires 0 <= i < |parts| => Strip(parts[i])) }

  /** One line: None when it is skipped. */
  function ParseLine(line: string): Option<Item> {
    ParseParts(StripAll(Split(Strip(line))))
  }

  function ParseParts(parts: seq<string>): Option<Item> {
    if |parts| < 3 then None
    else
      var id, labels := ParseInt(parts[0]), ParseLabels(parts[1..|parts| - 1]);
      if id.None? || labels.None? then None else Some(Item(id.value, parts[|parts| - 1], labels.value))
  }

  function ParseList(text: string): seq<Item> {
    if text == [] then []
    else
      var k := LineLength(text);
      var item := ParseLine(text[..k]);
      (if item.Some? then [item.value] else []) + ParseList(text[k..])
  }

  lemma ParseFirst(text: string, k: nat)
    requires text != [] && k == LineLength(text)
    ensures ParseLine(text[..k]).None? ==> ParseList(text) == ParseList(text[k..])
    ensures ParseLine(text[..k]).Some? ==> ParseList(text) == [ParseLine(text[..k]).value] + ParseList(text[k..])
  {
  }

  method ReadList(text: string) returns (items: seq<Item>)
    ensures items == ParseList(text)
  {
    items := [];
    var rest := text;
    while rest != []
      invariant items + ParseList(rest) == ParseList(text)
      decreases |rest|
    {
      var k := LineLength(rest);
      var line := ParseLine(rest[..k]);
      ParseFirst(rest, k);
      rest := rest[k..];
      match line {
        case None =>
        case Some(item) => items := items + [item];
      }
    }
  }

  // ----- lines and parts

  function JoinTabs(parts: seq<string>): string
    requires parts != []
  {
    if |parts| == 1 then parts[0] else parts[0] + (['\t'] + JoinTabs(parts[1..]))
  }

  /** Splitting cuts at every tab, and only there. */
  lemma {:induction false} SplitIs(s: string)
    ensures JoinTabs(Split(s)) == s
    ensures forall i, k :: 0 <= i < |Split(s)| && 0 <= k < |Split(s)[i]| ==> Split(s)[i][k] != '\t'
  {
    if s != [] {
      SplitIs(s[1..]);
      var rest := Split(s[1..]);
      assert s == [s[0]] + s[1..];
      if s[0] == '\t' {
        JoinTab(rest);
      } else {
        JoinLonger(s[0], rest);
      }
    }
  }

  lemma JoinTab(rest: seq<string>)
    requires rest != []
    ensures JoinTabs([[]] + rest) == ['\t'] + JoinTabs(rest)
  {
    assert ([[]] + rest)[1..] == rest;
  }

  lemma JoinLonger(c: char, rest: seq<string>)
    requires rest != []
    ensures JoinTabs([[c] + rest[0]] + rest[1..]) == [c] + JoinTabs(rest)
  {
    assert ([[c] + rest[0]] + rest[1..])[1..] == rest[1..];
  }

  /** Stripping takes off blanks at the ends, and leaves none there. */
  lemma StripIs(s: string)
    ensures Trimmed(Strip(s)) && exists a, b :: s == a + (Strip(s) + b) && AllSpace(a) && AllSpace(b)
  {
    var r := StripRight(s);
    var b := RightPart(s);
    var a := LeftPart(r);
    StripKeepsEnds(s);
    assert s == a + (Strip(s) + b);
  }

  predicate AllSpace(s: string) { forall i :: 0 <= i < |s| ==> IsSpace(s[i]) }

  lemma {:induction false} LeftPart(s: string) returns (a: string)
    ensures s == a + StripLeft(s) && AllSpace(a)
  {
    if s != [] && IsSpace(s[0]) {
      a := LeftPart(s[1..]);
      a := [s[0]] + a;
      assert s == [s[0]] + s[1..];
    } else {
      a := [];
    }
  }

  lemma {:induction false} RightPart(s: string) returns (b: string)
    ensures s == StripRight(s) + b && AllSpace(b)
  {
    if s != [] && IsSpace(s[|s| - 1]) {
      b := RightPart(s[..|s| - 1]);
      b := b + [s[|s| - 1]];
    } else {
      b := [];
    }
  }

  /** A line goes up to the first line break, or to the end of the text. */
  lemma {:induction false} LineIs(text: string)
    requires text != []
    ensures
      var k := LineLength(text);
      (k == |text| || IsBreak(text[k - 1])) && forall i :: 0 <= i < k - 1 ==> !IsBreak(text[i])
  {
    if |text| > 1 && !IsBreak(text[0]) { LineIs(text[1..]); }
  }

  /** A line as it stands in the file. */
  lemma WrittenLine()
    ensures PrintList([Item(12, "a/b.jpg", [])]) == "12\ta/b.jpg\n"
  {
    var item := Item(12, "a/b.jpg", []);
    assert PrintInt(12) == "12";
    assert PrintBody(item) == "12" + (['\t'] + ("" + "a/b.jpg"));
    assert [item][1..] == [];
  }

  // ----- round trip

  predicate GoodPath(path: string) {
    path != [] && Trimmed(path) && forall i :: 0 <= i < |path| ==> path[i] != '\t' && !IsBreak(path[i])
  }

  /** The characters of printed numbers. */
  predicate Plain(s: string) { forall i :: 0 <= i < |s| ==> IsDigit(s[i]) || s[i] == '-' || s[i] == '.' }

  function RoundAll(labels: seq<real>): seq<real> {
    if labels == [] then [] else [Rounded(labels[0])] + RoundAll(labels[1..])
  }

  /** What reading gives back: the items that have a label, each label to the nearest millionth. */
  function Kept(items: seq<Item>): seq<Item> {
    if items == [] then []
    else
      var item := items[0];
      (if item.labels == [] then [] else [item.(labels := RoundAll(item.labels))]) + Kept(items[1..])
  }

  lemma IntIsPlain(n: int)
    ensures Plain(PrintInt(n)) && PrintInt(n) != []
  {
  }

  lemma LabelIsPlain(x: real)
    ensures Plain(PrintLabel(x)) && PrintLabel(x) != []
  {
    MicrosArePlain(Micros(x));
  }

  lemma MicrosArePlain(m: nat)
    ensures Plain(PrintMicros(m)) && PrintMicros(m) != []
  {
    SixDigits();
  }

  lemma StripTrimmed(s: string)
    requires Trimmed(s)
    ensures Strip(s) == s
  {
  }

  lemma StripBreak(s: string)
    requires Trimmed(s)
    ensures Strip(s + ['\n']) == s
  {
    assert (s + ['\n'])[..|s|] == s;
    assert StripRight(s + ['\n']) == StripRight(s) == s;
  }

  lemma {:induction false} SplitField(field: string, rest: string)
    requires forall i :: 0 <= i < |field| ==> field[i] != '\t'
    ensures Split(field + (['\t'] + rest)) == [field] + Split(rest)
  {
    var s := field + (['\t'] + rest);
    if field == [] {
      assert s == ['\t'] + rest;
      assert s[1..] == rest;
    } else {
      SplitField(field[1..], rest);
      assert s[1..] == field[1..] + (['\t'] + rest);
      assert [field[0]] + field[1..] == field;
    }
  }

  lemma {:induction false} SplitWhole(path: string)
    requires forall i :: 0 <= i < |path| ==> path[i] != '\t'
    ensures Split(path) == [path]
  {
    if path != [] {
      SplitWhole(path[1..]);
      assert [path[0]] + path[1..] == path;
    }
  }

  function PrintEach(labels: seq<real>): seq<string> {
    if labels == [] then [] else [PrintLabel(labels[0])] + PrintEach(labels[1..])
  }

  lemma SplitLabel(x: real, rest: string)
    ensures Split(PrintLabel(x) + (['\t'] + rest)) == [PrintLabel(x)] + Split(rest)
  {
    LabelIsPlain(x);
    SplitField(PrintLabel(x), rest);
  }

  lemma {:induction false} SplitLabels(labels: seq<real>, path: string)
    requires GoodPath(path)
    ensures Split(PrintLabels(labels) + path) == PrintEach(labels) + [path]
  {
    if labels == [] {
      SplitWhole(path);
      assert PrintLabels(labels) + path == path;
    } else {
      SplitLabels(labels[1..], path);
      SplitLabel(labels[0], PrintLabels(labels[1..]) + path);
      Regrouped(PrintLabel(labels[0]), PrintLabels(labels[1..]), path);
      var each := PrintEach(labels[1..]);
      assert [PrintLabel(labels[0])] + (each + [path]) == ([PrintLabel(labels[0])] + each) + [path];
    }
  }

  lemma Regrouped(a: string, b: string, c: string)
    ensures (a + (['\t'] + b)) + c == a + (['\t'] + (b + c))
  {
  }

  lemma {:induction false} EachReadsBack(labels: seq<real>)
    ensures |PrintEach(labels)| == |labels| && ParseLabels(PrintEach(labels)) == Some(RoundAll(labels))
    ensures forall i :: 0 <= i < |labels| ==> Trimmed(PrintEach(labels)[i])
  {
    if labels != [] {
      EachReadsBack(labels[1..]);
      LabelReadsBack(labels[0]);
      ParseCons(PrintLabel(labels[0]), PrintEach(labels[1..]));
    }
  }

  lemma LabelReadsBack(x: real)
    ensures ParseFloat(PrintLabel(x)) == Some(Rounded(x)) && Trimmed(PrintLabel(x))
  {
    LabelRoundTrip(x);
    LabelIsPlain(x);
  }

  lemma ParseCons(part: string, parts: seq<string>)
    requires ParseFloat(part).Some? && ParseLabels(parts).Some?
    ensures ParseLabels([part] + parts) == Some([ParseFloat(part).value] + ParseLabels(parts).value)
  {
    assert ([part] + parts)[1..] == parts;
  }

  lemma BodyIsTrimmed(item: Item)
    requires GoodPath(item.path)
    ensures Trimmed(PrintBody(item))
  {
    IntIsPlain(item.id);
    var body, n := PrintBody(item), PrintInt(item.id);
    assert body[0] == n[0];
    assert body[|body| - 1] == item.path[|item.path| - 1];
  }

  lemma SplitBody(item: Item)
    requires GoodPath(item.path)
    ensures Split(PrintBody(item)) == [PrintInt(item.id)] + (PrintEach(item.labels) + [item.path])
  {
    IntIsPlain(item.id);
    SplitLabels(item.labels, item.path);
    SplitField(PrintInt(item.id), PrintLabels(item.labels) + item.path);
  }

  lemma StripsNothing(id: int, each: seq<string>, path: string)
    requires GoodPath(path) && forall i :: 0 <= i < |each| ==> Trimmed(each[i])
    ensures StripAll([PrintInt(id)] + (each + [path])) == [PrintInt(id)] + (each + [path])
  {
    IntIsPlain(id);
    var parts := [PrintInt(id)] + (each + [path]);
    forall i | 0 <= i < |parts| ensures Strip(parts[i]) == parts[i] {
      assert i == 0 || i == |parts| - 1 || parts[i] == each[i - 1];
      StripTrimmed(parts[i]);
    }
  }

  lemma LineRoundTrip(item: Item)
    requires GoodPath(item.path)
    ensures ParseLine(PrintBody(item) + ['\n']) ==
      if item.labels == [] then None else Some(item.(labels := RoundAll(item.labels)))
  {
    BodyIsTrimmed(item);
    StripBreak(PrintBody(item));
    SplitBody(item);
    EachReadsBack(item.labels);
    StripsNothing(item.id, PrintEach(item.labels), item.path);
    PartsReadBack(item, PrintEach(item.labels));
  }

  lemma PartsReadBack(item: Item, each: seq<string>)
    requires |each| == |item.labels| && ParseLabels(each) == Some(RoundAll(item.labels))
    ensures ParseParts([PrintInt(item.id)] + (each + [item.path])) ==
      if item.labels == [] then None else Some(item.(labels := RoundAll(item.labels)))
  {
    IntRoundTrip(item.id);
    InnerParts(PrintInt(item.id), each, item.path);
  }

  lemma InnerParts(id: string, each: seq<string>, path: string)
    ensures
      var parts := [id] + (each + [path]);
      |parts| == |each| + 2 && parts[0] == id && parts[|parts| - 1] == path && parts[1..|parts| - 1] == each
  {
  }

  lemma {:induction false} LineEnds(body: string, rest: string)
    requires forall i :: 0 <= i < |body| ==> !IsBreak(body[i])
    ensures LineLength(body + (['\n'] + rest)) == |body| + 1
  {
    var text := body + (['\n'] + rest);
    if body != [] {
      LineEnds(body[1..], rest);
      assert text[1..] == body[1..] + (['\n'] + rest);
    }
  }

  lemma {:induction false} LabelsHaveNoBreak(labels: seq<real>)
    ensures forall i :: 0 <= i < |PrintLabels(labels)| ==> !IsBreak(PrintLabels(labels)[i])
  {
    if labels != [] {
      LabelsHaveNoBreak(labels[1..]);
      LabelIsPlain(labels[0]);
    }
  }

  lemma BodyHasNoBreak(item: Item)
    requires GoodPath(item.path)
    ensures forall i :: 0 <= i < |PrintBody(item)| ==> !IsBreak(PrintBody(item)[i])
  {
    LabelsHaveNoBreak(item.labels);
    IntIsPlain(item.id);
  }

  lemma FirstLine(body: string, rest: string)
    requires LineLength(body + (['\n'] + rest)) == |body| + 1
    ensures
      var line := ParseLine(body + ['\n']);
      ParseList(body + (['\n'] + rest)) == (if line.Some? then [line.value] else []) + ParseList(rest)
  {
    var text := body + (['\n'] + rest);
    assert text[..|body| + 1] == body + ['\n'];
    assert text[|body| + 1..] == rest;
    ParseFirst(text, |body| + 1);
  }

  /** Reading what was written: every item with a label comes back, in order, its labels rounded. */
  lemma {:induction false} ReadAfterWrite(items: seq<Item>)
    requires forall i :: 0 <= i < |items| ==> GoodPath(items[i].path)
    ensures ParseList(PrintList(items)) == Kept(items)
  {
    if items != [] {
      ReadAfterWrite(items[1..]);
      var body, rest := PrintBody(items[0]), PrintList(items[1..]);
      BodyHasNoBreak(items[0]);
      LineEnds(body, rest);
      LineRoundTrip(items[0]);
      FirstLine(body, rest);
    }
  }

  // ----- what cannot come back

  lemma {:induction false} StripLeftIs(s: string)
    ensures |StripLeft(s)| <= |s| && StripLeft(s) == s[|s| - |StripLeft(s)|..]
    ensures StripLeft(s) != [] ==> !IsSpace(StripLeft(s)[0])
    ensures s != [] && !IsSpace(s[|s| - 1]) ==> StripLeft(s) != []
  {
    if s != [] && IsSpace(s[0]) {
      StripLeftIs(s[1..]);
    }
  }

  lemma {:induction false} StripRightIs(s: string)
    ensures var r := StripRight(s); r <= s && (r != [] ==> !IsSpace(r[|r| - 1]))
    ensures s != [] && IsSpace(s[|s| - 1]) ==> |StripRight(s)| < |s|
  {
    if s != [] && IsSpace(s[|s| - 1]) {
      StripRightIs(s[..|s| - 1]);
    }
  }

  lemma StripKeepsEnds(s: string)
    ensures Trimmed(Strip(s)) && forall c :: c in Strip(s) ==> c in s
    ensures s != [] && !IsSpace(s[|s| - 1]) ==> Strip(s) != []
  {
    var r := StripRight(s);
    StripRightIs(s);
    StripLeftIs(r);
    assert forall c :: c in StripLeft(r) ==> c in r;
  }

  /** Nothing of a line break is left of a line. */
  lemma StripLine(line: string)
    requires forall i :: 0 <= i < |line| - 1 ==> !IsBreak(line[i])
    ensures forall c :: c in Strip(line) ==> !IsBreak(c)
  {
    var r := StripRight(line);
    StripRightIs(line);
    StripLeftIs(r);
    assert forall c :: c in StripLeft(r) ==> c in r;
    assert forall i :: 0 <= i < |r| ==> r[i] == line[i] && !IsBreak(r[i]);
  }

  lemma {:induction false} SplitParts(s: string)
    ensures forall p, c :: p in Split(s) && c in p ==> c in s && c != '\t'
    ensures s != [] && s[|s| - 1] != '\t' ==> LastIs(Split(s), s[|s| - 1])
  {
    if s != [] {
      SplitParts(s[1..]);
      var rest := Split(s[1..]);
      assert forall p :: p in rest[1..] ==> p in rest;
      assert rest[0] in rest;
    }
  }

  /** The last part ends with c. */
  predicate LastIs(parts: seq<string>, c: char) {
    parts != [] && var p := parts[|parts| - 1]; p != [] && p[|p| - 1] == c
  }

  lemma LastPartIsGood(s: string)
    requires s != [] && Trimmed(s) && forall c :: c in s ==> !IsBreak(c)
    ensures GoodPath(Strip(Split(s)[|Split(s)| - 1]))
  {
    SplitParts(s);
    var last := Split(s)[|Split(s)| - 1];
    assert last in Split(s);
    StripKeepsEnds(last);
    var path := Strip(last);
    forall i | 0 <= i < |path| ensures path[i] != '\t' && !IsBreak(path[i]) {
      assert path[i] in path;
    }
  }

  lemma {:induction false} LabelCount(parts: seq<string>)
    ensures ParseLabels(parts).Some? ==> |ParseLabels(parts).value| == |parts|
  {
    if parts != [] { LabelCount(parts[1..]); }
  }

  lemma PartsGive(parts: seq<string>)
    requires ParseParts(parts).Some?
    ensures |parts| >= 3 && ParseParts(parts).value.path == parts[|parts| - 1] && ParseParts(parts).value.labels != []
  {
    LabelCount(parts[1..|parts| - 1]);
  }

  /** What every item that is read has: a path that can be written, and a label. */
  predicate GoodItem(item: Item) { GoodPath(item.path) && item.labels != [] }

  lemma ReadLineIsGood(line: string)
    requires ParseLine(line).Some? && forall i :: 0 <= i < |line| - 1 ==> !IsBreak(line[i])
    ensures GoodItem(ParseLine(line).value)
  {
    var s := Strip(line);
    PartsGive(StripAll(Split(s)));
    StripKeepsEnds(line);
    StripLine(line);
    LastPartIsGood(s);
  }

  lemma {:induction false} NoInnerBreak(text: string)
    requires text != []
    ensures forall i :: 0 <= i < LineLength(text) - 1 ==> !IsBreak(text[i])
  {
    if |text| > 1 && !IsBreak(text[0]) {
      NoInnerBreak(text[1..]);
      assert forall i :: 1 <= i < |text| ==> text[i] == text[1..][i - 1];
    }
  }

  lemma FirstIsGood(text: string)
    requires text != [] && ParseLine(text[..LineLength(text)]).Some?
    ensures GoodItem(ParseLine(text[..LineLength(text)]).value)
  {
    NoInnerBreak(text);
    ReadLineIsGood(text[..LineLength(text)]);
  }

  lemma {:induction false} ReadIsGood(text: string)
    ensures forall i :: 0 <= i < |ParseList(text)| ==> GoodItem(ParseList(text)[i])
    decreases |text|
  {
    if text != [] {
      var k := LineLength(text);
      ReadIsGood(text[k..]);
      ParseFirst(text, k);
      if ParseLine(text[..k]).Some? {
        FirstIsGood(text);
      }
    }
  }

  /** The list comes back unchanged exactly when every path can be written, every item has a label and every label is a
      whole number of millionths. */
  lemma ReadUndoesWriteIff(items: seq<Item>)
    ensures ParseList(PrintList(items)) == items <==>
      forall i :: 0 <= i < |items| ==> GoodPath(items[i].path) && items[i].labels != [] && AllWhole(items[i].labels)
  {
    ReadIsGood(PrintList(items));
    assert ParseList(PrintList(items)) == items ==> forall i :: 0 <= i < |items| ==> GoodItem(items[i]);
    if forall i :: 0 <= i < |items| ==> GoodPath(items[i].path) {
      ReadAfterWrite(items);
      KeptIff(items);
    }
  }

  /** An item whose path begins with a blank does not come back. */
  lemma EdgeBlankIsLost()
    ensures ParseList(PrintList([Item(0, " a", [1.0])])) != [Item(0, " a", [1.0])]
  {
    var items := [Item(0, " a", [1.0])];
    assert !GoodPath(items[0].path);
    ReadUndoesWriteIff(items);
  }

  predicate AllWhole(labels: seq<real>) { forall j :: 0 <= j < |labels| ==> WholeMicros(labels[j]) }

  lemma {:induction false} RoundAllIff(labels: seq<real>)
    ensures |RoundAll(labels)| == |labels|
    ensures RoundAll(labels) == labels <==> AllWhole(labels)
  {
    if labels != [] {
      RoundAllIff(labels[1..]);
      RoundedIffWhole(labels[0]);
      assert labels == [labels[0]] + labels[1..];
      assert AllWhole(labels) <==> WholeMicros(labels[0]) && AllWhole(labels[1..]);
    }
  }

  lemma {:induction false} KeptIff(items: seq<Item>)
    ensures |Kept(items)| <= |items|
    ensures Kept(items) == items <==>
      forall i :: 0 <= i < |items| ==> items[i].labels != [] && AllWhole(items[i].labels)
  {
    if items != [] {
      KeptIff(items[1..]);
      RoundAllIff(items[0].labels);
      assert items == [items[0]] + items[1..];
      if items[0].labels != [] && Kept(items) == items {
        assert Kept(items)[0] == items[0] && Kept(items)[1..] == Kept(items[1..]);
      }
    }
  }
}
