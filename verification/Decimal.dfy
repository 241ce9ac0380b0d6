/** Decimal numerals: Python's %d and %f, and the part of int() and float() that reads them back. */
module Decimal {

  import opened Arithmetic
  import opened Options

  predicate IsDigit(c: char) { '0' <= c <= '9' }

  function DigitValue(c: char): nat
    requires IsDigit(c)
  {
    c as int - '0' as int
  }

  function Digit(n: nat): (c: char)
    requires n < 10
    ensures IsDigit(c) && DigitValue(c) == n
  {
    ('0' as int + n) as char
  }

  predicate AllDigits(s: string) { forall i :: 0 <= i < |s| ==> IsDigit(s[i]) }

  /** The number whose numeral is s. */
  function Value(s: string): nat
    requires AllDigits(s)
  {
    if s == [] then 0 else 10 * Value(s[..|s| - 1]) + DigitValue(s[|s| - 1])
  }

  function Numeral(n: nat): (s: string)
    ensures s != [] && AllDigits(s) && Value(s) == n
  {
    if n < 10 then [Digit(n)]
    else
      var front := Numeral(n / 10);
      assert (front + [Digit(n % 10)])[..|front|] == front;
      front + [Digit(n % 10)]
  }

  function Pow10(k: nat): (p: nat)
    ensures p >= 1
  {
    if k == 0 then 1 else 10 * Pow10(k - 1)
  }

  /** The last k digits of n, with leading zeros. */
  function Fixed(n: nat, k: nat): (s: string)
    requires n < Pow10(k)
    ensures |s| == k && AllDigits(s) && Value(s) == n
    decreases k
  {
    if k == 0 then []
    else
      var front := Fixed(n / 10, k - 1);
      assert (front + [Digit(n % 10)])[..|front|] == front;
      front + [Digit(n % 10)]
  }

  lemma {:induction false} ValueConcat(a: string, b: string)
    requires AllDigits(a) && AllDigits(b)
    ensures AllDigits(a + b) && Value(a + b) == Value(a) * Pow10(|b|) + Value(b)
  {
    if b == [] {
      assert a + b == a;
    } else {
      var front := b[..|b| - 1];
      ValueConcat(a, front);
      assert (a + b)[..|a + b| - 1] == a + front;
      assert 10 * (Value(a) * Pow10(|front|)) == Value(a) * Pow10(|b|);
    }
  }

  // ----- digits and places

  /** The character `place` places before the end of s is that digit of n. */
  predicate HasDigit(s: string, n: nat, place: nat)
    requires place < |s|
  {
    s[|s| - 1 - place] as int == '0' as int + (n / Pow10(place)) % 10
  }

  /** One more digit behind moves the others up by one place. */
  lemma DigitMovesUp(front: string, c: char, n: nat, place: nat)
    requires 0 < place <= |front| && HasDigit(front, n / 10, place - 1)
    ensures HasDigit(front + [c], n, place)
  {
    DivDiv(n, 10, Pow10(place - 1));
    assert (front + [c])[|front| - place] == front[|front| - place];
  }

  lemma LastDigit(front: string, n: nat)
    ensures HasDigit(front + [Digit(n % 10)], n, 0)
  {
    assert n / Pow10(0) == n;
  }

  /** A numeral has the decimal digits of its number. */
  lemma {:induction false} NumeralDigits(n: nat, place: nat)
    requires place < |Numeral(n)|
    ensures HasDigit(Numeral(n), n, place)
  {
    if n < 10 {
      LastDigit([], n);
      assert Numeral(n) == [] + [Digit(n % 10)];
    } else if place == 0 {
      LastDigit(Numeral(n / 10), n);
    } else {
      NumeralDigits(n / 10, place - 1);
      DigitMovesUp(Numeral(n / 10), Digit(n % 10), n, place);
    }
  }

  /** It has as many as it takes, and no zero in front. */
  lemma {:induction false} NumeralLeads(n: nat)
    ensures n < Pow10(|Numeral(n)|)
    ensures if n == 0 then Numeral(n) == "0" else Numeral(n)[0] != '0'
  {
    if n >= 10 { NumeralLeads(n / 10); }
  }

  lemma {:induction false} FixedDigits(n: nat, k: nat, place: nat)
    requires n < Pow10(k) && place < k
    ensures HasDigit(Fixed(n, k), n, place)
    decreases k
  {
    if place == 0 {
      LastDigit(Fixed(n / 10, k - 1), n);
    } else {
      FixedDigits(n / 10, k - 1, place - 1);
      DigitMovesUp(Fixed(n / 10, k - 1), Digit(n % 10), n, place);
    }
  }

  /** The characters of s from number i on, each less the character zero and times its power of ten, summed up. */
  function PlaceSum(s: string, i: nat): int
    requires i <= |s|
    decreases |s| - i
  {
    if i == |s| then 0 else (s[i] as int - '0' as int) * Pow10(|s| - 1 - i) + PlaceSum(s, i + 1)
  }

  lemma {:induction false} ValueFrom(s: string, i: nat)
    requires AllDigits(s) && i <= |s|
    ensures Value(s[i..]) == PlaceSum(s, i)
    decreases |s| - i
  {
    if i < |s| {
      ValueFrom(s, i + 1);
      var first := [s[i]];
      assert s[i..] == first + s[i + 1..] && AllDigits(first);
      ValueConcat(first, s[i + 1..]);
      assert first[..0] == [] && Value(first) == DigitValue(s[i]);
    }
  }

  lemma ValueIsPlaceSum(s: string)
    requires AllDigits(s)
    ensures Value(s) == PlaceSum(s, 0)
  {
    ValueFrom(s, 0);
    assert s[0..] == s;
  }

  // ----- integers

  function PrintInt(n: int): string {
    if n < 0 then ['-'] + Numeral(-n) else Numeral(n)
  }

  /** int() on an optional sign and digits; anything else raises. */
  function ParseInt(s: string): Option<int> {
    if s != [] && s[0] == '-' then
      if |s| > 1 && AllDigits(s[1..]) then Some(0 - Value(s[1..])) else None
    else
      var digits := if s != [] && s[0] == '+' then s[1..] else s;
      if digits != [] && AllDigits(digits) then Some(Value(digits)) else None
  }

  /** What int() accepts, and the number it reads there. */
  lemma ParseIntIs(s: string)
    ensures
      var digits := if s != [] && (s[0] == '-' || s[0] == '+') then s[1..] else s;
      && (ParseInt(s).Some? <==> digits != [] && forall i :: 0 <= i < |digits| ==> '0' <= digits[i] <= '9')
      && (ParseInt(s).Some? ==> ParseInt(s).value == if s[0] == '-' then -PlaceSum(digits, 0) else PlaceSum(digits, 0))
  {
    var digits := if s != [] && (s[0] == '-' || s[0] == '+') then s[1..] else s;
    if AllDigits(digits) { ValueIsPlaceSum(digits); }
  }

  lemma IntRoundTrip(n: int)
    ensures ParseInt(PrintInt(n)) == Some(n)
  {
    if n < 0 {
      assert PrintInt(n)[1..] == Numeral(-n);
    } else {
      assert IsDigit(Numeral(n)[0]);
    }
  }

  // ----- labels

  const MILLION: nat := 1_000_000

  function Abs(x: real): real { if x < 0.0 then -x else x }

  /** The integer nearest to y, the even one of two. */
  function Nearest(y: real): (n: nat)
    requires y >= 0.0
    ensures Abs(n as real - y) <= 0.5 && (Abs(n as real - y) == 0.5 ==> n % 2 == 0)
  {
    var below := y.Floor;
    var above := y - below as real;
    if above < 0.5 || (above == 0.5 && below % 2 == 0) then below else below + 1
  }

  function OfMicros(m: nat): real { m as real / 1_000_000.0 }

  function Micros(x: real): nat { Nearest(Abs(x) * 1_000_000.0) }

  function Signed(negative: bool, m: nat): real { if negative then -OfMicros(m) else OfMicros(m) }

  /** The multiple of a millionth that %f prints for x. */
  function Rounded(x: real): real {
    Signed(x < 0.0, Micros(x))
  }

  lemma SixDigits()
    ensures Pow10(6) == MILLION
  {
    assert Pow10(3) == 1000;
    assert Pow10(6) == 1000 * Pow10(3);
  }

  /** Whole part, point, six decimals. */
  function PrintMicros(m: nat): string {
    SixDigits();
    Numeral(m / MILLION) + (['.'] + Fixed(m % MILLION, 6))
  }

  function PrintSigned(negative: bool, m: nat): string {
    if negative then ['-'] + PrintMicros(m) else PrintMicros(m)
  }

  function PrintLabel(x: real): string {
    PrintSigned(x < 0.0, Micros(x))
  }

  /** Where the point is, or the length of s. */
  function PointAt(s: string): (k: nat)
    ensures k <= |s| && (k < |s| ==> s[k] == '.') && forall i :: 0 <= i < k ==> s[i] != '.'
  {
    if s == [] || s[0] == '.' then 0 else 1 + PointAt(s[1..])
  }

  function Quotient(n: int, places: nat): real { n as real / Pow10(places) as real }

  function ParseUnsigned(s: string): Option<real> {
    var k := PointAt(s);
    var whole, decimals := s[..k], if k < |s| then s[k + 1..] else [];
    if whole + decimals != [] && AllDigits(whole + decimals)
    then Some(Quotient(Value(whole + decimals), |decimals|)) else None
  }

  /** float() on an optional sign, digits and at most one point; anything else raises. */
  function ParseFloat(s: string): Option<real> {
    if s != [] && s[0] == '-' then
      var r := ParseUnsigned(s[1..]);
      if r.None? then None else Some(-r.value)
    else ParseUnsigned(if s != [] && s[0] == '+' then s[1..] else s)
  }

  lemma ParsePoint(whole: string, decimals: string)
    requires whole + decimals != [] && AllDigits(whole) && AllDigits(decimals)
    ensures ParseUnsigned(whole + (['.'] + decimals)) ==
      Some(Quotient(Value(whole + decimals), |decimals|))
  {
    var s := whole + (['.'] + decimals);
    PointFound(whole, decimals);
    assert s[..|whole|] == whole && s[|whole| + 1..] == decimals;
    ValueConcat(whole, decimals);
  }

  lemma PointFound(whole: string, rest: string)
    requires AllDigits(whole)
    ensures PointAt(whole + (['.'] + rest)) == |whole|
  {
    var s := whole + (['.'] + rest);
    assert s[|whole|] == '.' && forall i :: 0 <= i < |whole| ==> s[i] == whole[i];
  }

  /** The number float() reads in digits with a point among them. */
  lemma ParseDigits(whole: string, decimals: string)
    requires whole + decimals != [] && AllDigits(whole) && AllDigits(decimals)
    ensures
      var s := whole + (['.'] + decimals);
      && ParseUnsigned(s) == Some(Quotient(PlaceSum(whole + decimals, 0), |decimals|))
      && s[0] != '-' && s[0] != '+'
  {
    ParsePoint(whole, decimals);
    assert AllDigits(whole + decimals);
    ValueIsPlaceSum(whole + decimals);
  }

  /** A minus in front of it. */
  lemma MinusRead(s: string, x: real)
    requires ParseUnsigned(s) == Some(x)
    ensures ParseFloat(['-'] + s) == Some(-x)
  {
    var minus := ['-'] + s;
    assert minus[0] == '-' && minus[1..] == s;
  }

  /** A plus in front of it, or nothing. */
  lemma PlusRead(s: string, x: real)
    requires s != [] && s[0] != '-' && s[0] != '+' && ParseUnsigned(s) == Some(x)
    ensures ParseFloat(s) == Some(x) && ParseFloat(['+'] + s) == Some(x)
  {
    var plus := ['+'] + s;
    assert plus[0] == '+' && plus[1..] == s;
  }

  /** And in digits alone. */
  lemma ParseWhole(whole: string)
    requires whole != [] && AllDigits(whole)
    ensures ParseUnsigned(whole) == Some(PlaceSum(whole, 0) as real) && whole[0] != '-' && whole[0] != '+'
  {
    ValueIsPlaceSum(whole);
    NoPoint(whole);
  }

  lemma NoPoint(whole: string)
    requires whole != [] && AllDigits(whole)
    ensures ParseUnsigned(whole) == Some(Value(whole) as real)
  {
    assert PointAt(whole) == |whole|;
    assert whole[..|whole|] + [] == whole;
    assert Quotient(Value(whole), 0) == Value(whole) as real;
  }

  /** There is no other number that is read: digits, at least one, with at most one point. */
  lemma ParsesIff(s: string)
    ensures ParseUnsigned(s).Some? <==>
      exists whole, decimals :: IsPointed(s, whole, decimals)
  {
    if ParseUnsigned(s).Some? { PointedParts(s); }
    forall whole, decimals | IsPointed(s, whole, decimals) ensures ParseUnsigned(s).Some? {
      PointedParses(s, whole, decimals);
    }
  }

  lemma PointedParses(s: string, whole: string, decimals: string)
    requires IsPointed(s, whole, decimals)
    ensures ParseUnsigned(s).Some?
  {
    if s == whole { NoPoint(whole); } else { ParsePoint(whole, decimals); }
  }

  lemma PointedParts(s: string)
    requires ParseUnsigned(s).Some?
    ensures exists whole, decimals :: IsPointed(s, whole, decimals)
  {
    var k := PointAt(s);
    var before, behind := s[..k], if k < |s| then s[k + 1..] else [];
    DigitsOfBoth(before, behind);
    assert s == if k < |s| then before + (['.'] + behind) else before;
    assert IsPointed(s, before, behind);
  }

  lemma DigitsOfBoth(a: string, b: string)
    ensures AllDigits(a + b) <==> AllDigits(a) && AllDigits(b)
  {
    if AllDigits(a + b) {
      assert forall i :: 0 <= i < |a| ==> a[i] == (a + b)[i];
      assert forall i :: 0 <= i < |b| ==> b[i] == (a + b)[|a| + i];
    }
  }

  ghost predicate IsPointed(s: string, whole: string, decimals: string) {
    && AllDigits(whole) && AllDigits(decimals) && whole + decimals != []
    && ((s == whole && decimals == []) || s == whole + (['.'] + decimals))
  }

  lemma MicrosValue(m: nat)
    ensures m % MILLION < Pow10(6)
    ensures Value(Numeral(m / MILLION) + Fixed(m % MILLION, 6)) == m
  {
    SixDigits();
    ValueConcat(Numeral(m / MILLION), Fixed(m % MILLION, 6));
  }

  lemma MicrosRoundTrip(m: nat)
    ensures PrintMicros(m) != [] && IsDigit(PrintMicros(m)[0])
    ensures ParseUnsigned(PrintMicros(m)) == Some(OfMicros(m))
  {
    MicrosValue(m);
    ParseMicros(Numeral(m / MILLION), Fixed(m % MILLION, 6), m);
  }

  lemma QuotientIsMicros(m: nat)
    ensures Quotient(m, 6) == OfMicros(m)
  {
    SixDigits();
  }

  lemma ParseMicros(whole: string, decimals: string, m: nat)
    requires whole != [] && AllDigits(whole) && AllDigits(decimals) && |decimals| == 6
    requires AllDigits(whole + decimals) && Value(whole + decimals) == m
    ensures ParseUnsigned(whole + (['.'] + decimals)) == Some(OfMicros(m))
    ensures IsDigit((whole + (['.'] + decimals))[0])
  {
    ParsePoint(whole, decimals);
    QuotientIsMicros(m);
  }

  lemma SignRead(m: nat, negative: bool)
    ensures ParseFloat(PrintSigned(negative, m)) == Some(Signed(negative, m))
  {
    MicrosRoundTrip(m);
    if negative { MinusRead(PrintMicros(m), OfMicros(m)); } else { PlusRead(PrintMicros(m), OfMicros(m)); }
  }

  lemma LabelRoundTrip(x: real)
    ensures ParseFloat(PrintLabel(x)) == Some(Rounded(x))
  {
    SignRead(Micros(x), x < 0.0);
  }

  lemma {:induction false} PowersMultiply(a: nat, b: nat)
    ensures Pow10(a) * Pow10(b) == Pow10(a + b)
  {
    if a == 0 {
      assert Pow10(0) * Pow10(b) == Pow10(b);
    } else {
      PowersMultiply(a - 1, b);
      assert (10 * Pow10(a - 1)) * Pow10(b) == 10 * (Pow10(a - 1) * Pow10(b));
    }
  }

  /** What is taken off above leaves the digit. */
  lemma DigitOfRemainder(m: nat, d: nat, e: nat, n: nat)
    requires d >= 1 && n == d * (10 * e) >= 1
    ensures (m / d) % 10 == ((m % n) / d) % 10
  {
    var a, b := m / n, m % n;
    Division(m, n);
    Division(b, d);
    Combine(a, b / d, b % d, d, e, n);
    var x := 10 * (a * e) + b / d;
    assert m == x * d + b % d;
    DivModUnique(x, b % d, d);
    TensDropped(a * e, b / d);
  }

  lemma Combine(a: nat, q: nat, r: nat, d: nat, e: nat, n: nat)
    requires n == d * (10 * e)
    ensures n * a + (d * q + r) == (10 * (a * e) + q) * d + r
  {
    MulSwap(a, d, 10 * e);
    MulSwap(a, 10, e);
    assert n * a == a * n;
    assert (10 * (a * e) + q) * d == (10 * (a * e)) * d + q * d;
    assert (10 * (a * e)) * d == d * (10 * (a * e)) && q * d == d * q;
  }

  lemma TensDropped(t: nat, q: nat)
    ensures (10 * t + q) % 10 == q % 10
  {
  }

  /** The decimals of m millionths are the last six digits of m. */
  lemma DecimalDigits(m: nat, place: nat)
    requires place < 6
    ensures (m / Pow10(place)) % 10 == ((m % MILLION) / Pow10(place)) % 10
  {
    SixDigits();
    PowersMultiply(place, 6 - place);
    DigitOfRemainder(m, Pow10(place), Pow10(5 - place), MILLION);
  }

  lemma MicrosDigits(m: nat)
    ensures
      var s := PrintMicros(m);
      && |s| >= 7 && s[..|s| - 7] == Numeral(m / 1_000_000) && s[|s| - 7] == '.'
      && forall place :: 0 <= place < 6 ==> HasDigit(s, m, place)
  {
    var s := PrintMicros(m);
    SixDigits();
    var whole, decimals := Numeral(m / MILLION), Fixed(m % MILLION, 6);
    assert |s| == |whole| + 7 && s[..|whole|] == whole;
    forall place | 0 <= place < 6 ensures HasDigit(s, m, place) {
      FixedDigits(m % MILLION, 6, place);
      DecimalDigits(m, place);
      assert s[|s| - 1 - place] == decimals[5 - place];
    }
  }

  lemma SignInFront(s: string, m: nat)
    requires |s| >= 7 && forall place :: 0 <= place < 6 ==> HasDigit(s, m, place)
    ensures
      var t := ['-'] + s;
      && t[..|t| - 7] == "-" + s[..|s| - 7] && t[|t| - 7] == s[|s| - 7]
      && forall place :: 0 <= place < 6 ==> HasDigit(t, m, place)
  {
    var t := ['-'] + s;
    forall place | 0 <= place < 6 ensures HasDigit(t, m, place) {
      assert HasDigit(s, m, place) && t[|t| - 1 - place] == s[|s| - 1 - place];
    }
  }

  /** What %f prints: a sign, the whole part, a point, and six digits of the number of millionths. */
  lemma LabelDigits(x: real)
    ensures
      var m, s := Micros(x), PrintLabel(x);
      && |s| >= 7 && s[..|s| - 7] == (if x < 0.0 then "-" else "") + Numeral(m / 1_000_000) && s[|s| - 7] == '.'
      && forall place :: 0 <= place < 6 ==> HasDigit(s, m, place)
  {
    MicrosDigits(Micros(x));
    SignInFront(PrintMicros(Micros(x)), Micros(x));
    assert "" + Numeral(Micros(x) / 1_000_000) == Numeral(Micros(x) / 1_000_000);
  }

  /** That number is the nearest to the label, and the even one of two. */
  lemma MicrosNearest(x: real)
    ensures
      var off := Abs(Micros(x) as real - (if x < 0.0 then -x else x) * 1_000_000.0);
      off <= 0.5 && (off == 0.5 ==> Micros(x) % 2 == 0)
  {
  }

  /** What a caller can look at before writing a label: whether it is a whole number of millionths. */
  predicate WholeMicros(x: real) { (x * 1_000_000.0).Floor as real == x * 1_000_000.0 }

  lemma RoundedIffWhole(x: real)
    ensures Rounded(x) == x <==> WholeMicros(x)
  {
    if Rounded(x) == x {
      RoundedIsWhole(x);
    } else if WholeMicros(x) {
      WholeIsRounded(x);
    }
  }

  lemma WholeIsRounded(x: real)
    requires WholeMicros(x)
    ensures Rounded(x) == x
  {
    var y, k := Abs(x) * 1_000_000.0, (x * 1_000_000.0).Floor;
    assert y == if x < 0.0 then (-k) as real else k as real;
    assert y.Floor as real == y;
  }

  lemma RoundedIsWhole(x: real)
    requires Rounded(x) == x
    ensures WholeMicros(x)
  {
    var m: int := Micros(x);
    assert x * 1_000_000.0 == if x < 0.0 then (-m) as real else m as real;
  }
}
