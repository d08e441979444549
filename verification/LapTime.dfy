/** The lap-time codec of model/state.go: durations in int64 nanoseconds and their "M:SS.fff" text. */
module LapTime {
  import opened Wrappers
  import opened Decimal
  import opened Text

  const MILLISECOND: int := 1_000_000
  const SECOND: int := 1_000_000_000
  const MINUTE: int := 60_000_000_000

  /** formatDurationToLapTime. */
  function Format(d: int): string {
    var total := TruncDiv(d, MILLISECOND);
    var remaining := TruncMod(total, 60_000);
    Itoa(TruncDiv(total, 60_000)) + ":" + PrintPadded(TruncDiv(remaining, 1000), 2)
    + "." + PrintPadded(TruncMod(remaining, 1000), 3)
  }

  /** The int64 sum of the three components, each product and sum wrapping as in Go. */
  function Combine(minutes: int, seconds: int, milliseconds: int): int {
    Wrap64(Wrap64(Wrap64(minutes * MINUTE) + Wrap64(seconds * SECOND)) + Wrap64(milliseconds * MILLISECOND))
  }

  /** parseTimeToDuration. */
  function Parse(s: string): (r: Result<int>)
    ensures r.Ok? ==> InInt64(r.value)
    ensures r.Ok? ==> s != ""
  {
    var parts := Split(s, ':');
    if s == "" || |parts| > 2 then Err
    else
      var minutes := if |parts| == 2 && parts[0] != "" then Atoi(parts[0]) else Some(0);
      var pieces := Split(parts[|parts| - 1], '.');
      var seconds := if pieces[0] != "" then Atoi(pieces[0]) else if |pieces| == 1 then None else Some(0);
      var milliseconds := if |pieces| == 1 then Some(0) else if |pieces| == 2 then Atoi(pieces[1]) else None;
      if minutes.Some? && seconds.Some? && milliseconds.Some?
      then Ok(Combine(minutes.value, seconds.value, milliseconds.value))
      else Err
  }

  lemma CombineIsWrappedSum(m: int, s: int, f: int)
    ensures Combine(m, s, f) == Wrap64(m * MINUTE + s * SECOND + f * MILLISECOND)
  {
    hide Wrap64;
    var a, b, c := m * MINUTE, s * SECOND, f * MILLISECOND;
    WrapTwice(a, b);
    WrapTwice(Wrap64(a) + Wrap64(b), c);
    WrapTwice(a + b, c);
    assert Wrap64(Wrap64(a) + Wrap64(b)) == Wrap64(a + b);
    assert Combine(m, s, f) == Wrap64(Wrap64(a + b) + Wrap64(c));
  }

  lemma WrapTwice(a: int, b: int)
    ensures Wrap64(Wrap64(a) + Wrap64(b)) == Wrap64(a + b)
  {
    var x, y := Wrap64(a) + Wrap64(b), a + b;
    var k, l := (a - Wrap64(a)) / TWO_64, (b - Wrap64(b)) / TWO_64;
    assert y == x + (k + l) * TWO_64;
    SameResidue(x, y, k + l);
  }

  lemma SameResidue(x: int, y: int, k: int)
    requires y == x + k * TWO_64
    ensures x % TWO_64 == y % TWO_64
  {
  }

  lemma PrintedHasNoSeparator(n: int, w: nat, c: char)
    requires c == ':' || c == '.'
    ensures c !in Itoa(n) && c !in PrintPadded(n, w)
  {
    hide PrintNat, PadZero;
    var digits := PrintNat(if n >= 0 then n else -n);
    DigitsAreNoSeparator(digits, c);
    PadKeepsValue(digits, w);
    PadKeepsValue(digits, if w == 0 then 0 else w - 1);
    DigitsAreNoSeparator(PadZero(digits, w), c);
    DigitsAreNoSeparator(PadZero(digits, if w == 0 then 0 else w - 1), c);
  }

  lemma DigitsAreNoSeparator(s: string, c: char)
    requires AllDigits(s) && (c == ':' || c == '.')
    ensures c !in s
  {
  }

  /** Parsing text of the shape a:b.c. */
  lemma ParseOfParts(a: string, b: string, c: string)
    requires ':' !in a && ':' !in b && ':' !in c && '.' !in b && '.' !in c
    requires a != "" && b != ""
    ensures Parse(a + ":" + b + "." + c)
            == if Atoi(a).Some? && Atoi(b).Some? && Atoi(c).Some?
               then Ok(Combine(Atoi(a).value, Atoi(b).value, Atoi(c).value)) else Err
  {
    hide Combine, Atoi, Split;
    var rest := b + "." + c;
    assert a + ":" + b + "." + c == a + [':'] + rest;
    SplitAtFirst(a, ':', rest);
    SplitWithoutSeparator(rest, ':');
    SplitAtFirst(b, '.', c);
    SplitWithoutSeparator(c, '.');
    assert Split(a + [':'] + rest, ':') == [a, rest];
    assert Split(rest, '.') == [b, c];
  }

  predicate Components(d: int, m: int, s: int, f: int) {
    && InInt64(m) && InInt64(s) && InInt64(f)
    && m * MINUTE + s * SECOND + f * MILLISECOND == d - TruncMod(d, MILLISECOND)
    && InInt64(d - TruncMod(d, MILLISECOND))
    && Format(d) == Itoa(m) + ":" + PrintPadded(s, 2) + "." + PrintPadded(f, 3)
  }

  lemma Decompose(d: int) returns (m: int, s: int, f: int)
    requires InInt64(d)
    ensures Components(d, m, s, f)
  {
    var total := TruncDiv(d, MILLISECOND);
    var remaining := TruncMod(total, 60_000);
    m, s, f := TruncDiv(total, 60_000), TruncDiv(remaining, 1000), TruncMod(remaining, 1000);
  }

  lemma ParseOfPrintedParts(m: int, s: int, f: int)
    requires InInt64(m) && InInt64(s) && InInt64(f)
    ensures Parse(Itoa(m) + ":" + PrintPadded(s, 2) + "." + PrintPadded(f, 3)) == Ok(Combine(m, s, f))
  {
    AtoiReadsPrinted(m, 0);
    AtoiReadsPrinted(s, 2);
    AtoiReadsPrinted(f, 3);
    PrintedHasNoSeparator(m, 0, ':');
    PrintedHasNoSeparator(s, 2, ':');
    PrintedHasNoSeparator(f, 3, ':');
    PrintedHasNoSeparator(s, 2, '.');
    PrintedHasNoSeparator(f, 3, '.');
    ParseOfParts(Itoa(m), PrintPadded(s, 2), PrintPadded(f, 3));
  }

  /** Parsing what was printed drops the part below a millisecond, for every int64, negative ones included. */
  lemma ParseOfFormat(d: int)
    requires InInt64(d)
    ensures Parse(Format(d)) == Ok(d - TruncMod(d, MILLISECOND))
  {
    hide Format, Parse, Combine, TruncMod, Itoa, PrintPadded;
    var m, s, f := Decompose(d);
    ParseOfPrintedParts(m, s, f);
    CombineIsWrappedSum(m, s, f);
  }

  /** Two durations print alike exactly when they agree to the millisecond. */
  lemma FormatIsInjective(d: int, e: int)
    requires InInt64(d) && InInt64(e)
    ensures Format(d) == Format(e) <==> TruncDiv(d, MILLISECOND) == TruncDiv(e, MILLISECOND)
  {
    hide Parse;
    ParseOfFormat(d);
    ParseOfFormat(e);
  }

  /** A lap time as the feed writes it: minutes without leading zeros, two digits, three digits. */
  predicate IsCanonical(m: string, ss: string, fff: string) {
    && m != [] && AllDigits(m) && (|m| > 1 ==> m[0] != '0')
    && |ss| == 2 && AllDigits(ss) && ss[0] <= '5'
    && |fff| == 3 && AllDigits(fff)
  }

  function Nanoseconds(m: string, ss: string, fff: string): int
    requires AllDigits(m) && AllDigits(ss) && AllDigits(fff)
  {
    DigitsValue(m) * MINUTE + DigitsValue(ss) * SECOND + DigitsValue(fff) * MILLISECOND
  }

  /** What three numerals of any length parse to: the nanoseconds they denote, exactly when those fit an int64; else
      the wrapped sum, or an error when one of the numerals itself does not fit. */
  lemma ParseIsExactIff(m: string, ss: string, fff: string)
    requires m != "" && AllDigits(m) && ss != "" && AllDigits(ss) && fff != "" && AllDigits(fff)
    ensures var time, r := Nanoseconds(m, ss, fff), Parse(m + ":" + ss + "." + fff);
            && (r == Ok(time) <==> InInt64(time))
            && (r.Err? <==> !InInt64(DigitsValue(m)) || !InInt64(DigitsValue(ss)) || !InInt64(DigitsValue(fff)))
            && (r.Ok? ==> r.value == Wrap64(time))
  {
    hide Parse, Combine, Atoi, DigitsValue, Wrap64;
    DigitsAreNoSeparator(m, ':');
    DigitsAreNoSeparator(ss, ':');
    DigitsAreNoSeparator(fff, ':');
    DigitsAreNoSeparator(ss, '.');
    DigitsAreNoSeparator(fff, '.');
    AtoiOfNumeral(m);
    AtoiOfNumeral(ss);
    AtoiOfNumeral(fff);
    ParseOfParts(m, ss, fff);
    CombineIsWrappedSum(DigitsValue(m), DigitsValue(ss), DigitsValue(fff));
  }

  /** Printing what was parsed gives the text back, for every canonical lap time that fits an int64. */
  lemma FormatOfParse(m: string, ss: string, fff: string)
    requires IsCanonical(m, ss, fff) && InInt64(Nanoseconds(m, ss, fff))
    ensures Parse(m + ":" + ss + "." + fff) == Ok(Nanoseconds(m, ss, fff))
    ensures Format(Nanoseconds(m, ss, fff)) == m + ":" + ss + "." + fff
  {
    hide Parse, Format, PrintNat, PadZero, DigitsValue;
    assert Pow10(3) == 1000;
    ParseIsExactIff(m, ss, fff);
    TwoDigits(ss);
    DigitsValueBound(fff);
    FormatOfParts(DigitsValue(m), DigitsValue(ss), DigitsValue(fff));
    PrintNatOfCanonical(m);
    PadOfDigits(ss);
    PadOfDigits(fff);
  }

  /** A sector time as the feed writes it, without minutes. */
  lemma ParseOfSeconds(ss: string, fff: string)
    requires ss != "" && AllDigits(ss) && fff != "" && AllDigits(fff)
    ensures var time := DigitsValue(ss) * SECOND + DigitsValue(fff) * MILLISECOND;
            && Parse(ss + "." + fff) == (if InInt64(DigitsValue(ss)) && InInt64(DigitsValue(fff)) then Ok(Wrap64(time)) else Err)
            && (Parse(ss + "." + fff) == Ok(time) <==> InInt64(time))
  {
    hide Atoi, Combine, Wrap64, DigitsValue, Split;
    var s := ss + "." + fff;
    AtoiOfNumeral(ss);
    AtoiOfNumeral(fff);
    DigitsAreNoSeparator(ss, ':');
    DigitsAreNoSeparator(fff, ':');
    DigitsAreNoSeparator(ss, '.');
    DigitsAreNoSeparator(fff, '.');
    SplitWithoutSeparator(s, ':');
    assert s == ss + ['.'] + fff;
    SplitAtFirst(ss, '.', fff);
    SplitWithoutSeparator(fff, '.');
    assert Split(s, ':') == [s] && Split(s, '.') == [ss, fff];
    CombineIsWrappedSum(0, DigitsValue(ss), DigitsValue(fff));
  }

  /** The texts of other shapes. More than one colon, a second point behind it, and nothing at all are errors; an empty
      part before the colon is no minutes, an empty one before the point no seconds, and no point no milliseconds. */
  lemma ParseOtherShapes(a: string, b: string, c: string)
    ensures Parse("").Err? && Parse(a + ":" + b + ":" + c).Err?
    ensures ':' !in b && ':' !in c ==> Parse(b + "." + c).Ok? ==> '.' !in c
    ensures ':' !in b ==> Parse(":" + b) == Parse(b)
    ensures ':' !in c && '.' !in c ==> Parse("." + c) == Parse("0." + c)
    ensures b != "" && ':' !in b && '.' !in b ==> Parse(b) == Parse(b + ".0")
  {
    hide Combine, Atoi;
    ManyParts(a, b, c);
    if ':' !in b {
      SplitWithoutSeparator(b, ':');
      assert ":" + b == "" + [':'] + b;
      SplitAtFirst("", ':', b);
    }
    if ':' !in b && ':' !in c {
      SplitWithoutSeparator(b + "." + c, ':');
      if '.' in c { ManyPieces(b, c); }
    }
    if ':' !in c && '.' !in c { NoSeconds(c); }
    if b != "" && ':' !in b && '.' !in b { NoPoint(b); }
  }

  lemma ManyParts(a: string, b: string, c: string)
    ensures |Split(a + ":" + b + ":" + c, ':')| > 2
  {
    assert a + ":" + b + ":" + c == a + [':'] + (b + ":" + c);
    assert b + ":" + c == b + [':'] + c;
    SplitMore(a, ':', b + ":" + c);
    SplitMore(b, ':', c);
  }

  lemma {:induction false} SplitMore(a: string, sep: char, b: string)
    ensures |Split(a + [sep] + b, sep)| == |Split(a, sep)| + |Split(b, sep)|
  {
    var s := a + [sep] + b;
    if a == "" {
      assert s[1..] == b;
    } else {
      assert s[1..] == a[1..] + [sep] + b;
      SplitMore(a[1..], sep, b);
    }
  }

  lemma {:induction false} SplitOften(a: string, sep: char)
    requires sep in a
    ensures |Split(a, sep)| > 1
  {
    if a[0] != sep {
      SplitOften(a[1..], sep);
    }
  }

  lemma ManyPieces(b: string, c: string)
    requires '.' in c
    ensures |Split(b + "." + c, '.')| > 2
  {
    assert b + "." + c == b + ['.'] + c;
    SplitMore(b, '.', c);
    SplitOften(c, '.');
  }

  lemma NoSeconds(c: string)
    requires ':' !in c && '.' !in c
    ensures Parse("." + c) == Parse("0." + c)
  {
    hide Combine, Atoi;
    SplitWithoutSeparator("." + c, ':');
    SplitWithoutSeparator("0." + c, ':');
    SplitWithoutSeparator(c, '.');
    assert "." + c == "" + ['.'] + c && "0." + c == "0" + ['.'] + c;
    SplitAtFirst("", '.', c);
    SplitAtFirst("0", '.', c);
    AtoiOfZero();
  }

  lemma NoPoint(b: string)
    requires b != "" && ':' !in b && '.' !in b
    ensures Parse(b) == Parse(b + ".0")
  {
    hide Combine, Atoi;
    SplitWithoutSeparator(b, ':');
    SplitWithoutSeparator(b + ".0", ':');
    SplitWithoutSeparator(b, '.');
    SplitWithoutSeparator("0", '.');
    assert b + ".0" == b + ['.'] + "0";
    SplitAtFirst(b, '.', "0");
    AtoiOfZero();
  }

  lemma AtoiOfZero()
    ensures Atoi("0") == Some(0)
  {
    AtoiOfNumeral("0");
    assert "0"[..0] == "";
  }

  /** The digits behind the point are read as milliseconds however many they are, so the text is read as the decimal
      number it writes exactly when they are three, or all zero. */
  lemma FractionReadsIff(ss: string, fff: string)
    requires ss != "" && AllDigits(ss) && fff != "" && AllDigits(fff)
    requires InInt64(DigitsValue(ss) * SECOND + DigitsValue(fff) * MILLISECOND)
    ensures Parse(ss + "." + fff).Ok? && AllDigits(ss + fff)
    ensures Parse(ss + "." + fff).value * Pow10(|fff|) == DigitsValue(ss + fff) * SECOND
            <==> |fff| == 3 || fff == Zeros(|fff|)
  {
    hide Parse, DigitsValue, Pow10, Wrap64, AllDigits;
    ParseOfSeconds(ss, fff);
    DigitsValueJoined(ss, fff);
    ScaledIff(DigitsValue(ss), DigitsValue(fff), Pow10(|fff|), Parse(ss + "." + fff).value, DigitsValue(ss + fff));
    ThousandIff(|fff|);
    ZeroIff(fff);
  }

  lemma ScaledIff(a: nat, b: nat, p: nat, value: int, digits: int)
    requires value == a * SECOND + b * MILLISECOND && digits == a * p + b
    ensures value * p == digits * SECOND <==> b == 0 || p == 1000
  {
    var left, right := value * p, digits * SECOND;
    assert left == a * p * SECOND + b * p * MILLISECOND;
    assert right == a * p * SECOND + b * 1000 * MILLISECOND;
    assert left - right == b * (p - 1000) * MILLISECOND;
  }

  lemma ThousandIff(n: nat)
    ensures Pow10(n) == 1000 <==> n == 3
  {
    assert Pow10(3) == 1000;
    if n < 3 {
      Pow10Grows(n, 3);
    } else if n > 3 {
      Pow10Grows(3, n);
    }
  }

  lemma ZeroIff(s: string)
    requires AllDigits(s)
    ensures DigitsValue(s) == 0 <==> s == Zeros(|s|)
  {
    ZerosDoNotCount(|s|, []);
    assert Zeros(|s|) + [] == Zeros(|s|);
    if DigitsValue(s) == 0 {
      NumeralsOfOneLengthAreUnique(s, Zeros(|s|));
    }
  }

  lemma FormatOfParts(m: nat, s: nat, f: nat)
    requires s < 60 && f < 1000
    ensures Format(m * MINUTE + s * SECOND + f * MILLISECOND)
            == PrintNat(m) + ":" + PadZero(PrintNat(s), 2) + "." + PadZero(PrintNat(f), 3)
  {
    hide Format, PrintNat, PadZero, TruncDiv, TruncMod;
    var d: nat, total: nat := m * 60_000_000_000 + s * 1_000_000_000 + f * 1_000_000, m * 60_000 + s * 1000 + f;
    Quotient(d, 1_000_000, total, 0);
    Quotient(total, 60_000, m, s * 1000 + f);
    Quotient(s * 1000 + f, 1000, s, f);
    FormatFromQuotients(d, total, m, s * 1000 + f, s, f);
  }

  lemma FormatFromQuotients(d: nat, total: nat, m: nat, remaining: nat, s: nat, f: nat)
    requires TruncDiv(d, 1_000_000) == total
    requires TruncDiv(total, 60_000) == m && TruncMod(total, 60_000) == remaining
    requires TruncDiv(remaining, 1000) == s && TruncMod(remaining, 1000) == f
    ensures Format(d) == PrintNat(m) + ":" + PadZero(PrintNat(s), 2) + "." + PadZero(PrintNat(f), 3)
  {
    hide PrintNat, PadZero, TruncDiv, TruncMod;
  }

  lemma TwoDigits(ss: string)
    requires |ss| == 2 && AllDigits(ss) && ss[0] <= '5'
    ensures DigitsValue(ss) < 60
  {
    var t := ss[..1];
    assert t[..0] == [] && ss[..|ss| - 1] == t && t[|t| - 1] == ss[0];
    assert DigitsValue(t) == DigitsValue(t[..0]) * 10 + DigitValue(ss[0]);
    assert DigitValue(ss[0]) <= 5;
  }

  // ---- sumOfSectors ----

  ghost predicate AllParse(values: seq<string>) {
    forall i :: 0 <= i < |values| ==> Parse(values[i]).Ok?
  }

  /** The lap time of three sector times: the wrapped int64 sum, printed; an error in any other case. */
  ghost function SectorSum(values: seq<string>): Result<string> {
    if |values| == 3 && AllParse(values)
    then Ok(Format(Wrap64(TotalOf(values))))
    else Err
  }

  ghost function TotalOf(values: seq<string>): int
    requires AllParse(values)
  {
    if values == [] then 0 else TotalOf(values[..|values| - 1]) + Parse(values[|values| - 1]).value
  }

  method SumOfSectors(values: seq<string>) returns (r: Result<string>)
    ensures r == SectorSum(values)
  {
    hide Wrap64, Format, Parse;
    if |values| != 3 {
      return Err;
    }
    var total := 0;
    for i := 0 to |values|
      invariant AllParse(values[..i])
      invariant total == Wrap64(TotalOf(values[..i]))
    {
      if values[i] == "" {
        return Err;
      }
      var d := Parse(values[i]);
      if d.Err? {
        return Err;
      }
      assert values[..i + 1][..i] == values[..i];
      WrapTwice(TotalOf(values[..i]), d.value);
      total := Wrap64(total + d.value);
    }
    assert values[..|values|] == values;
    return Ok(Format(total));
  }

  /** The recorded lap time reads back as the sum of the sector times exactly when
      that sum fits an int64 and is a whole number of milliseconds. */
  lemma SectorSumReadsBack(values: seq<string>)
    requires SectorSum(values).Ok?
    ensures |values| == 3 && AllParse(values)
    ensures Parse(SectorSum(values).value).Ok?
    ensures Parse(SectorSum(values).value).value == TotalOf(values)
            <==> InInt64(TotalOf(values)) && TotalOf(values) % MILLISECOND == 0
  {
    hide Wrap64, Format, Parse;
    ParseOfFormat(Wrap64(TotalOf(values)));
  }

  /** The lap time of sector times: the printed int64 sum of three that all parse, and an error for any others. */
  lemma SectorSumOf(values: seq<string>)
    ensures SectorSum(values)
            == if |values| == 3 && Parse(values[0]).Ok? && Parse(values[1]).Ok? && Parse(values[2]).Ok?
               then Ok(Format(Wrap64(Parse(values[0]).value + Parse(values[1]).value + Parse(values[2]).value))) else Err
  {
    hide Parse, Format, Wrap64;
    if |values| == 3 {
      assert values == [values[0], values[1], values[2]];
      if Parse(values[0]).Ok? && Parse(values[1]).Ok? && Parse(values[2]).Ok? {
        TotalOfThree(values[0], values[1], values[2]);
      }
    }
  }

  lemma TotalOfThree(a: string, b: string, c: string)
    requires Parse(a).Ok? && Parse(b).Ok? && Parse(c).Ok?
    ensures AllParse([a, b, c]) && TotalOf([a, b, c]) == Parse(a).value + Parse(b).value + Parse(c).value
  {
    hide Parse;
    var all := [a, b, c];
    assert all[..2] == [a, b] && [a, b][..1] == [a] && [a][..0] == [];
    assert TotalOf([a]) == Parse(a).value;
    assert TotalOf([a, b]) == TotalOf([a]) + Parse(b).value;
  }

  /** Three times that each fit an int64 may add up to a negative lap time. */
  lemma OverflowingSumMisreads()
    ensures var time := Format(100_000_000 * MINUTE);
            var values := [time, time, time];
            && SectorSum(values) == Ok(Format(-446_744_073_709_551_616))
            && AllParse(values) && TotalOf(values) == 300_000_000 * MINUTE
            && Parse(SectorSum(values).value).Ok? && Parse(SectorSum(values).value).value < 0
  {
    hide Parse, Format;
    var d := 100_000_000 * MINUTE;
    ParseOfFormat(d);
    TotalOfThree(Format(d), Format(d), Format(d));
    ParseOfFormat(-446_744_073_709_551_616);
  }

  /** Minutes that wrap are no whole number of milliseconds, and the text of their sum drops the rest. */
  lemma WrappedMinutesMisread()
    ensures var time := Itoa(153_722_868) + ":" + PrintPadded(0, 2) + "." + PrintPadded(0, 3);
            var values := [time, Format(0), Format(0)];
            && AllParse(values) && InInt64(TotalOf(values)) && SectorSum(values).Ok?
            && Parse(SectorSum(values).value).Ok? && Parse(SectorSum(values).value).value != TotalOf(values)
  {
    hide Parse, Format, Itoa, PrintPadded, Combine;
    var time := Itoa(153_722_868) + ":" + PrintPadded(0, 2) + "." + PrintPadded(0, 3);
    ParseOfPrintedParts(153_722_868, 0, 0);
    CombineIsWrappedSum(153_722_868, 0, 0);
    ParseOfFormat(0);
    TotalOfThree(time, Format(0), Format(0));
    SectorSumReadsBack([time, Format(0), Format(0)]);
  }
}
