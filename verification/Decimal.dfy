/** 64-bit integers and their decimal text: strconv.Itoa, strconv.Atoi and the
    zero-padded verbs of fmt.Sprintf, with the order of equally long numerals. */
module Decimal {
  import opened Wrappers

  const TWO_64: int := 0x1_0000_0000_0000_0000
  const MAX_INT64: int := 0x7fff_ffff_ffff_ffff
  const MIN_INT64: int := -0x8000_0000_0000_0000

  predicate InInt64(x: int) {
    MIN_INT64 <= x <= MAX_INT64
  }

  /** Two's-complement truncation to 64 bits. */
  function Wrap64(x: int): (r: int)
    ensures InInt64(r)
    ensures InInt64(x) ==> r == x
    ensures (x - r) % TWO_64 == 0
  {
    var low := x % TWO_64;
    if low > MAX_INT64 then low - TWO_64 else low
  }

  /** Go's integer division and remainder: truncated toward zero. */
  function TruncDiv(a: int, b: int): int
    requires b > 0
  {
    if a >= 0 then a / b else -((-a) / b)
  }

  function TruncMod(a: int, b: int): int
    requires b > 0
  {
    a - TruncDiv(a, b) * b
  }

  predicate IsDigit(c: char) {
    '0' <= c <= '9'
  }

  predicate AllDigits(s: string) {
    forall i :: 0 <= i < |s| ==> IsDigit(s[i])
  }

  function DigitChar(d: nat): (c: char)
    requires d < 10
    ensures IsDigit(c) && DigitValue(c) == d
  {
    '0' + d as char
  }

  function DigitValue(c: char): (d: nat)
    requires IsDigit(c)
    ensures d < 10
  {
    (c - '0') as nat
  }

  /** The number a string of digits denotes; leading zeros are allowed. */
  function DigitsValue(s: string): nat
    requires AllDigits(s)
  {
    if s == [] then 0 else DigitsValue(s[..|s| - 1]) * 10 + DigitValue(s[|s| - 1])
  }

  /** The numeral of n, without leading zeros. */
  function PrintNat(n: nat): (s: string)
    ensures s != [] && AllDigits(s)
    ensures DigitsValue(s) == n
    ensures |s| > 1 ==> s[0] != '0'
  {
    if n < 10 then [DigitChar(n)]
    else
      var front := PrintNat(n / 10);
      var s := front + [DigitChar(n % 10)];
      assert s[..|s| - 1] == front;
      s
  }

  function Zeros(n: nat): string {
    seq(n, _ => '0')
  }

  /** Zero padding on the left to width w. */
  function PadZero(s: string, w: nat): string {
    if |s| >= w then s else Zeros(w - |s|) + s
  }

  /** The %0wd verb: the sign counts toward the width. */
  function PrintPadded(n: int, w: nat): string {
    if n >= 0 then PadZero(PrintNat(n), w)
    else "-" + PadZero(PrintNat(-n), if w == 0 then 0 else w - 1)
  }

  /** strconv.Itoa, and the %d verb. */
  function Itoa(n: int): string {
    if n >= 0 then PrintNat(n) else "-" + PrintNat(-n)
  }

  /** strconv.Atoi on a 64-bit platform: optional sign, digits only, range-checked. */
  function Atoi(s: string): Option<int> {
    var signed := s != [] && (s[0] == '-' || s[0] == '+');
    var digits := if signed then s[1..] else s;
    if digits == [] || !AllDigits(digits) then None
    else
      var m: int := DigitsValue(digits);
      var v := if signed && s[0] == '-' then -m else m;
      if InInt64(v) then Some(v) else None
  }

  lemma {:induction false} ZerosDoNotCount(n: nat, s: string)
    requires AllDigits(s)
    ensures AllDigits(Zeros(n) + s) && DigitsValue(Zeros(n) + s) == DigitsValue(s)
    decreases n, |s|
  {
    var t := Zeros(n) + s;
    if s != [] {
      assert t[..|t| - 1] == Zeros(n) + s[..|s| - 1];
      ZerosDoNotCount(n, s[..|s| - 1]);
    } else if n > 0 {
      assert t[..|t| - 1] == Zeros(n - 1) + [];
      ZerosDoNotCount(n - 1, []);
    }
  }

  lemma AtoiOfNumeral(p: string)
    requires p != [] && AllDigits(p)
    ensures Atoi(p) == if InInt64(DigitsValue(p)) then Some(DigitsValue(p)) else None
  {
    assert IsDigit(p[0]);
  }

  lemma AtoiOfNegatedNumeral(p: string)
    requires p != [] && AllDigits(p) && InInt64(-(DigitsValue(p) as int))
    ensures Atoi("-" + p) == Some(-(DigitsValue(p) as int))
  {
    assert ("-" + p)[1..] == p;
  }

  /** The text is the digits, with a sign or without, and denotes v. */
  predicate Writes(s: string, digits: string, v: int) {
    && digits != "" && AllDigits(digits) && InInt64(v)
    && (if s == "-" + digits then v == -(DigitsValue(digits) as int)
        else (s == digits || s == "+" + digits) && v == DigitsValue(digits))
  }

  /** Atoi accepts exactly the numerals, with or without a sign and leading zeros, whose number fits an int64. */
  lemma AtoiIff(s: string, v: int)
    ensures Atoi(s) == Some(v) <==> exists digits :: Writes(s, digits, v)
  {
    hide DigitsValue;
    if Atoi(s) == Some(v) {
      var signed := s[0] == '-' || s[0] == '+';
      var digits := if signed then s[1..] else s;
      assert s == (if signed then [s[0]] else "") + digits;
      assert Writes(s, digits, v);
    }
    if digits :| Writes(s, digits, v) {
      AtoiOfWritten(s, digits, v);
    }
  }

  lemma AtoiOfWritten(s: string, digits: string, v: int)
    requires Writes(s, digits, v)
    ensures Atoi(s) == Some(v)
  {
    hide DigitsValue;
    assert IsDigit(digits[0]);
    if s != digits {
      assert s[1..] == digits;
    }
  }

  lemma PadKeepsValue(p: string, w: nat)
    requires p != [] && AllDigits(p)
    ensures PadZero(p, w) != [] && AllDigits(PadZero(p, w)) && DigitsValue(PadZero(p, w)) == DigitsValue(p)
  {
    if |p| < w { ZerosDoNotCount(w - |p|, p); }
  }

  /** Reading back what Itoa or a padded verb printed gives the number, for every int64. */
  lemma AtoiReadsPrinted(n: int, w: nat)
    requires InInt64(n)
    ensures Atoi(Itoa(n)) == Some(n)
    ensures Atoi(PrintPadded(n, w)) == Some(n)
  {
    hide Atoi, PrintNat, PadZero;
    if n >= 0 {
      PadKeepsValue(PrintNat(n), w);
      AtoiOfNumeral(PrintNat(n));
      AtoiOfNumeral(PadZero(PrintNat(n), w));
    } else {
      var w' := if w == 0 then 0 else w - 1;
      PadKeepsValue(PrintNat(-n), w');
      AtoiOfNegatedNumeral(PrintNat(-n));
      AtoiOfNegatedNumeral(PadZero(PrintNat(-n), w'));
    }
  }

  function Pow10(n: nat): (r: nat)
    ensures r > 0
  {
    if n == 0 then 1 else 10 * Pow10(n - 1)
  }

  lemma {:induction false} DigitsValueBound(s: string)
    requires AllDigits(s)
    ensures DigitsValue(s) < Pow10(|s|)
  {
    if s != [] { DigitsValueBound(s[..|s| - 1]); }
  }

  lemma {:induction false} DigitsValueJoined(a: string, b: string)
    requires AllDigits(a) && AllDigits(b)
    ensures AllDigits(a + b) && DigitsValue(a + b) == DigitsValue(a) * Pow10(|b|) + DigitsValue(b)
  {
    hide DigitValue, DigitsValue;
    if b == "" {
      assert a + b == a;
      NoDigits();
    } else {
      var front, c := b[..|b| - 1], b[|b| - 1];
      assert b == front + [c] && a + b == (a + front) + [c];
      DigitsValueJoined(a, front);
      DigitsValueMore(front, c);
      DigitsValueMore(a + front, c);
      Shift(DigitsValue(a), Pow10(|front|), DigitsValue(front), DigitValue(c));
    }
  }

  lemma NoDigits()
    ensures DigitsValue("") == 0
  {
  }

  lemma DigitsValueMore(s: string, c: char)
    requires AllDigits(s) && IsDigit(c)
    ensures AllDigits(s + [c]) && DigitsValue(s + [c]) == DigitsValue(s) * 10 + DigitValue(c)
  {
    assert (s + [c])[..|s|] == s;
  }

  lemma Shift(a: nat, p: nat, b: nat, d: nat)
    ensures (a * p + b) * 10 + d == a * (10 * p) + (b * 10 + d)
  {
  }

  lemma {:induction false} Pow10Grows(m: nat, n: nat)
    requires m < n
    ensures Pow10(m) < Pow10(n)
  {
    if m + 1 < n {
      Pow10Grows(m, n - 1);
    }
  }

  /** A numeral is determined by its value and its length. */
  lemma {:induction false} NumeralsOfOneLengthAreUnique(a: string, b: string)
    requires AllDigits(a) && AllDigits(b) && |a| == |b|
    requires DigitsValue(a) == DigitsValue(b)
    ensures a == b
  {
    hide DigitValue;
    if a != [] {
      var m := |a| - 1;
      var front, front' := a[..m], b[..m];
      SameDigits(DigitsValue(front), DigitValue(a[m]), DigitsValue(front'), DigitValue(b[m]));
      SameDigitChar(a[m], b[m]);
      NumeralsOfOneLengthAreUnique(front, front');
      assert a == front + [a[m]] && b == front' + [b[m]];
    }
  }

  lemma SameDigitChar(c: char, d: char)
    requires IsDigit(c) && IsDigit(d) && DigitValue(c) == DigitValue(d)
    ensures c == d
  {
  }

  lemma SameDigits(x: nat, c: nat, y: nat, d: nat)
    requires c < 10 && d < 10 && x * 10 + c == y * 10 + d
    ensures x == y && c == d
  {
  }

  /** A numeral without superfluous leading zeros is what PrintNat prints. */
  lemma {:induction false} PrintNatOfCanonical(s: string)
    requires s != [] && AllDigits(s) && (|s| > 1 ==> s[0] != '0')
    ensures PrintNat(DigitsValue(s)) == s
  {
    hide PrintNat;
    var m := |s| - 1;
    assert s == s[..m] + [s[m]];
    if m == 0 {
      assert s[..0] == [];
      PrintNatOfMore(0, DigitValue(s[0]));
    } else {
      PrintNatOfCanonical(s[..m]);
      LeadingDigitCounts(s[..m]);
      PrintNatOfMore(DigitsValue(s[..m]), DigitValue(s[m]));
    }
  }

  lemma PrintNatOfMore(n: nat, d: nat)
    requires d < 10
    ensures PrintNat(n * 10 + d) == if n == 0 then [DigitChar(d)] else PrintNat(n) + [DigitChar(d)]
  {
    assert (n * 10 + d) / 10 == n && (n * 10 + d) % 10 == d;
  }

  lemma {:induction false} LeadingDigitCounts(s: string)
    requires s != [] && AllDigits(s) && s[0] != '0'
    ensures DigitsValue(s) > 0
  {
    if |s| > 1 { LeadingDigitCounts(s[..|s| - 1]); }
  }

  /** Padding brings back the leading zeros of a numeral. */
  lemma PadOfDigits(x: string)
    requires x != [] && AllDigits(x)
    ensures PadZero(PrintNat(DigitsValue(x)), |x|) == x
  {
    var n := DigitsValue(x);
    var p := PrintNat(n);
    DigitsValueBound(x);
    PrintedNoLonger(n, |x|);
    ZerosDoNotCount(|x| - |p|, p);
    assert PadZero(p, |x|) == Zeros(|x| - |p|) + p;
    NumeralsOfOneLengthAreUnique(PadZero(p, |x|), x);
  }

  lemma {:induction false} PrintedNoLonger(n: nat, w: nat)
    requires w > 0 && n < Pow10(w)
    ensures |PrintNat(n)| <= w
  {
    if n >= 10 { PrintedNoLonger(n / 10, w - 1); }
  }

  // ---- Go's string order (bytewise) and the order of numerals ----

  predicate Less(a: string, b: string) {
    b != [] && (a == [] || a[0] < b[0] || (a[0] == b[0] && Less(a[1..], b[1..])))
  }

  lemma {:induction false} LessBehindPrefix(p: string, a: string, b: string)
    ensures Less(p + a, p + b) <==> Less(a, b)
  {
    if p == [] {
      assert p + a == a && p + b == b;
    } else {
      assert (p + a)[1..] == p[1..] + a && (p + b)[1..] == p[1..] + b;
      LessBehindPrefix(p[1..], a, b);
    }
  }

  lemma ValueFromFront(s: string)
    requires s != [] && AllDigits(s)
    ensures DigitsValue(s) == DigitValue(s[0]) * Pow10(|s| - 1) + DigitsValue(s[1..])
    ensures DigitsValue(s[1..]) < Pow10(|s| - 1)
  {
    hide Pow10;
    assert s == [s[0]] + s[1..];
    DigitsValueJoined([s[0]], s[1..]);
    assert [s[0]][..0] == [] && DigitsValue([s[0]]) == DigitValue(s[0]);
    DigitsValueBound(s[1..]);
  }

  /** For numerals of one length, the string order is the numeric order. */
  lemma {:induction false} LessIsNumeric(a: string, b: string)
    requires AllDigits(a) && AllDigits(b) && |a| == |b|
    ensures Less(a, b) <==> DigitsValue(a) < DigitsValue(b)
  {
    if a != [] {
      ValueFromFront(a);
      ValueFromFront(b);
      LessIsNumeric(a[1..], b[1..]);
      var x, y, w := DigitValue(a[0]), DigitValue(b[0]), Pow10(|a| - 1);
      if x < y { LeadingDigitDecides(x, y, w); }
      if y < x { LeadingDigitDecides(y, x, w); }
    }
  }

  lemma LeadingDigitDecides(x: nat, y: nat, w: nat)
    requires x < y
    ensures x * w + w <= y * w
  {
    var k := y - x - 1;
    assert y == x + 1 + k;
    assert y * w == x * w + w + k * w;
  }

  /** The length of a numeral grows with its value. */
  lemma {:induction false} NumeralLength(n: nat, d: nat)
    requires d > 0 && Pow10(d) > n
    requires d > 1 ==> n >= Pow10(d - 1)
    ensures |PrintNat(n)| == d
  {
    if d > 1 { NumeralLength(n / 10, d - 1); }
  }

  /** The quotient and remainder that multiply back to a. */
  lemma Quotient(a: nat, b: nat, q: nat, r: nat)
    requires a == q * b + r && r < b
    ensures TruncDiv(a, b) == q && TruncMod(a, b) == r
  {
    var k := a / b;
    assert k * b <= a < k * b + b;
    if k < q {
      LeadingDigitDecides(k, q, b);
    } else if q < k {
      LeadingDigitDecides(q, k, b);
    }
  }
}
