/** The timestamps of a recording: the date-time of section 5.6 of RFC 3339, to the second. */
module Timestamps {
  import opened Wrappers
  import opened Decimal

  /** Local date and time with the zone's offset from UTC in minutes. */
  datatype Stamp = Stamp(year: nat, month: nat, day: nat, hour: nat, minute: nat, second: nat, offset: int)

  predicate IsLeap(year: nat) {
    year % 4 == 0 && (year % 100 != 0 || year % 400 == 0)
  }

  function DaysIn(year: nat, month: nat): nat {
    if month == 2 then (if IsLeap(year) then 29 else 28)
    else if month == 4 || month == 6 || month == 9 || month == 11 then 30
    else 31
  }

  predicate Valid(t: Stamp) {
    && t.year < 10000 && 1 <= t.month <= 12 && 1 <= t.day <= DaysIn(t.year, t.month)
    && t.hour < 24 && t.minute < 60 && t.second < 60
    && -1440 < t.offset < 1440
  }

  /** The fields of a timestamp, the lengths of the months and the leap years. */
  lemma ValidIff(t: Stamp)
    ensures Valid(t)
            <==> && t.year <= 9999 && 1 <= t.month <= 12 && t.hour <= 23 && t.minute <= 59 && t.second <= 59
                 && -1439 <= t.offset <= 1439 && t.day >= 1
                 && t.day <= (if t.month in {4, 6, 9, 11} then 30 else if t.month != 2 then 31
                              else if t.year % 400 == 0 || (t.year % 4 == 0 && t.year % 100 != 0) then 29 else 28)
  {
    LeapIff(t.year);
  }

  lemma LeapIff(year: nat)
    ensures IsLeap(year) <==> year % 400 == 0 || (year % 4 == 0 && year % 100 != 0)
  {
    if year % 400 == 0 { assert year == 4 * (100 * (year / 400)); }
  }

  // ---- text ----

  /** n in exactly w digits. */
  function Field(n: nat, w: nat): string {
    PadZero(PrintNat(n), w)
  }

  function Zone(offset: int): string {
    if offset == 0 then "Z"
    else
      var a: nat := if offset < 0 then -offset else offset;
      [if offset < 0 then '-' else '+'] + Field(a / 60, 2) + ":" + Field(a % 60, 2)
  }

  function Part(field: string, mark: char, rest: string): string {
    field + [mark] + rest
  }

  function Joined(y: string, mo: string, d: string, h: string, mi: string, s: string, zone: string): string {
    Part(y, '-', Part(mo, '-', Part(d, 'T', Part(h, ':', Part(mi, ':', s + zone)))))
  }

  /** Time.Format with the layout RFC3339. */
  function Format(t: Stamp): string
    requires Valid(t)
  {
    Joined(Field(t.year, 4), Field(t.month, 2), Field(t.day, 2), Field(t.hour, 2), Field(t.minute, 2), Field(t.second, 2),
           Zone(t.offset))
  }

  predicate Shaped(s: string) {
    && |s| >= 20
    && s[4] == '-' && s[7] == '-' && s[10] == 'T' && s[13] == ':' && s[16] == ':'
    && AllDigits(s[..4]) && AllDigits(s[5..7]) && AllDigits(s[8..10])
    && AllDigits(s[11..13]) && AllDigits(s[14..16]) && AllDigits(s[17..19])
  }

  function ParseZone(z: string): Option<int> {
    if z == "Z" then Some(0)
    else if |z| == 6 && (z[0] == '+' || z[0] == '-') && z[3] == ':' && AllDigits(z[1..3]) && AllDigits(z[4..6])
            && DigitsValue(z[1..3]) < 24 && DigitsValue(z[4..6]) < 60 then
      var a := DigitsValue(z[1..3]) * 60 + DigitsValue(z[4..6]);
      Some(if z[0] == '-' then -a else a)
    else None
  }

  /** time.Parse with the layout RFC3339, on texts without fractional seconds. */
  function Parse(s: string): (r: Option<Stamp>)
    ensures r.Some? ==> Valid(r.value)
  {
    if !Shaped(s) || ParseZone(s[19..]).None? then None
    else
      var t := Stamp(DigitsValue(s[..4]), DigitsValue(s[5..7]), DigitsValue(s[8..10]), DigitsValue(s[11..13]),
                     DigitsValue(s[14..16]), DigitsValue(s[17..19]), ParseZone(s[19..]).value);
      if Valid(t) then Some(t) else None
  }

  lemma FieldReads(n: nat, w: nat)
    requires w > 0 && n < Pow10(w)
    ensures |Field(n, w)| == w && AllDigits(Field(n, w)) && DigitsValue(Field(n, w)) == n
  {
    PadKeepsValue(PrintNat(n), w);
    PrintedNoLonger(n, w);
  }

  lemma ZoneReads(offset: int)
    requires -1440 < offset < 1440
    ensures ParseZone(Zone(offset)) == Some(offset)
    ensures |Zone(offset)| >= 1
  {
    hide Field;
    if offset != 0 {
      var a: nat := if offset < 0 then -offset else offset;
      assert Pow10(2) == 100;
      FieldReads(a / 60, 2);
      FieldReads(a % 60, 2);
      var z := Zone(offset);
      assert z[1..3] == Field(a / 60, 2) && z[4..6] == Field(a % 60, 2);
      assert z != "Z";
    }
  }

  lemma Cut(y: string, mo: string, d: string, h: string, mi: string, s: string, zone: string)
    requires |y| == 4 && |mo| == |d| == |h| == |mi| == |s| == 2
    ensures var all := Joined(y, mo, d, h, mi, s, zone);
            && |all| == 19 + |zone|
            && all[4] == '-' && all[7] == '-' && all[10] == 'T' && all[13] == ':' && all[16] == ':'
            && all[..4] == y && all[5..7] == mo && all[8..10] == d && all[11..13] == h && all[14..16] == mi
            && all[17..19] == s && all[19..] == zone
  {
    hide Part;
    var all := Joined(y, mo, d, h, mi, s, zone);
    var p1 := Part(mo, '-', Part(d, 'T', Part(h, ':', Part(mi, ':', s + zone))));
    var p2, p3, p4 := Part(d, 'T', Part(h, ':', Part(mi, ':', s + zone))), Part(h, ':', Part(mi, ':', s + zone)),
                      Part(mi, ':', s + zone);
    CutPart(all, 0, y, '-', p1);
    CutPart(all, 5, mo, '-', p2);
    CutPart(all, 8, d, 'T', p3);
    CutPart(all, 11, h, ':', p4);
    CutPart(all, 14, mi, ':', s + zone);
    assert all[17..] == s + zone;
    assert all[17..19] == all[17..][..2] && all[19..] == all[17..][2..];
  }

  lemma CutPart(all: string, k: nat, field: string, mark: char, rest: string)
    requires k <= |all| && all[k..] == Part(field, mark, rest)
    ensures |all| == k + |field| + 1 + |rest|
    ensures all[k..k + |field|] == field && all[k + |field|] == mark && all[k + |field| + 1..] == rest
  {
    var tail := all[k..];
    assert tail[..|field|] == field && tail[|field|] == mark && tail[|field| + 1..] == rest;
    assert all[k..k + |field|] == tail[..|field|] && all[k + |field| + 1..] == tail[|field| + 1..];
  }

  /** Every timestamp reads back as it was written. */
  lemma ParseOfFormat(t: Stamp)
    requires Valid(t)
    ensures Parse(Format(t)) == Some(t)
  {
    hide Field, Zone, ParseZone, Joined;
    assert Pow10(2) == 100 && Pow10(4) == 10000;
    FieldReads(t.year, 4);
    FieldReads(t.month, 2);
    FieldReads(t.day, 2);
    FieldReads(t.hour, 2);
    FieldReads(t.minute, 2);
    FieldReads(t.second, 2);
    ZoneReads(t.offset);
    Cut(Field(t.year, 4), Field(t.month, 2), Field(t.day, 2), Field(t.hour, 2), Field(t.minute, 2), Field(t.second, 2),
        Zone(t.offset));
  }

  /** What stands where in the text of a timestamp. */
  lemma FormatFields(t: Stamp)
    requires Valid(t)
    ensures var s := Format(t);
            && |s| >= 20 && s[4] == '-' && s[7] == '-' && s[10] == 'T' && s[13] == ':' && s[16] == ':'
            && Reads(s[..4], t.year) && Reads(s[5..7], t.month) && Reads(s[8..10], t.day)
            && Reads(s[11..13], t.hour) && Reads(s[14..16], t.minute) && Reads(s[17..19], t.second)
            && (if t.offset == 0 then s[19..] == "Z"
                else
                  && |s| == 25 && s[19] == (if t.offset < 0 then '-' else '+') && s[22] == ':'
                  && Reads(s[20..22], (if t.offset < 0 then -t.offset else t.offset) / 60)
                  && Reads(s[23..], (if t.offset < 0 then -t.offset else t.offset) % 60))
  {
    hide Field, Joined, DigitsValue, AllDigits;
    assert Pow10(2) == 100 && Pow10(4) == 10000;
    FieldReads(t.year, 4);
    FieldReads(t.month, 2);
    FieldReads(t.day, 2);
    FieldReads(t.hour, 2);
    FieldReads(t.minute, 2);
    FieldReads(t.second, 2);
    ZoneReads(t.offset);
    Cut(Field(t.year, 4), Field(t.month, 2), Field(t.day, 2), Field(t.hour, 2), Field(t.minute, 2), Field(t.second, 2),
        Zone(t.offset));
    ZoneFields(t.offset);
    var s, z := Format(t), Zone(t.offset);
    if t.offset != 0 {
      assert s[19..][0] == s[19] && s[19..][3] == s[22] && s[19..][1..3] == s[20..22] && s[19..][4..] == s[23..];
    }
  }

  /** Digits that denote n. */
  predicate Reads(digits: string, n: int) {
    AllDigits(digits) && DigitsValue(digits) == n
  }

  lemma ZoneFields(offset: int)
    requires -1440 < offset < 1440
    ensures var z, a := Zone(offset), if offset < 0 then -offset else offset;
            if offset == 0 then z == "Z"
            else |z| == 6 && z[0] == (if offset < 0 then '-' else '+') && z[3] == ':' && Reads(z[1..3], a / 60)
                 && Reads(z[4..], a % 60)
  {
    hide Field, DigitsValue, AllDigits;
    if offset != 0 {
      var a: nat := if offset < 0 then -offset else offset;
      assert Pow10(2) == 100;
      FieldReads(a / 60, 2);
      FieldReads(a % 60, 2);
      var z := Zone(offset);
      assert z[1..3] == Field(a / 60, 2) && z[4..] == Field(a % 60, 2);
    }
  }

  lemma FieldOfDigits(s: string)
    requires s != [] && AllDigits(s)
    ensures Field(DigitsValue(s), |s|) == s
  {
    PadOfDigits(s);
  }

  lemma ZoneOfParsed(z: string)
    requires ParseZone(z).Some?
    ensures Zone(ParseZone(z).value) == z <==> z != "+00:00" && z != "-00:00"
  {
    hide Field, DigitsValue, AllDigits;
    if z != "Z" {
      var h, m := z[1..3], z[4..6];
      var a := DigitsValue(h) * 60 + DigitsValue(m);
      assert z == [z[0]] + h + ":" + m;
      FieldOfDigits(h);
      FieldOfDigits(m);
      DoubleZero();
      if a == 0 {
        assert h == "00" && m == "00";
        assert "+" + "00" + ":" + "00" == "+00:00" && "-" + "00" + ":" + "00" == "-00:00";
      } else {
        assert a / 60 == DigitsValue(h) && a % 60 == DigitsValue(m);
        if z == "+00:00" || z == "-00:00" { SignedZero(z); }
      }
    }
  }

  lemma DoubleZero()
    ensures AllDigits("00") && DigitsValue("00") == 0 && Field(0, 2) == "00"
  {
    assert "00"[..1] == "0" && "0"[..0] == "";
    FieldOfDigits("00");
  }

  lemma SignedZero(z: string)
    requires z == "+00:00" || z == "-00:00"
    ensures z[1..3] == "00" && z[4..6] == "00"
  {
  }

  lemma Reassemble(s: string)
    requires Shaped(s)
    ensures s == Joined(s[..4], s[5..7], s[8..10], s[11..13], s[14..16], s[17..19], s[19..])
  {
    assert s[14..] == Part(s[14..16], ':', s[17..19] + s[19..]);
    assert s[11..] == Part(s[11..13], ':', s[14..]);
    assert s[8..] == Part(s[8..10], 'T', s[11..]);
    assert s[5..] == Part(s[5..7], '-', s[8..]);
    assert s == Part(s[..4], '-', s[5..]);
  }

  /** Every text that is accepted is the one that would be written, unless its zone is a signed zero. */
  lemma FormatOfParse(s: string)
    requires Parse(s).Some?
    ensures Format(Parse(s).value) == s <==> s[19..] != "+00:00" && s[19..] != "-00:00"
  {
    hide Field, Zone, ParseZone, Joined, DigitsValue;
    var t := Parse(s).value;
    FieldOfDigits(s[..4]);
    FieldOfDigits(s[5..7]);
    FieldOfDigits(s[8..10]);
    FieldOfDigits(s[11..13]);
    FieldOfDigits(s[14..16]);
    FieldOfDigits(s[17..19]);
    ZoneOfParsed(s[19..]);
    Reassemble(s);
    Cut(s[..4], s[5..7], s[8..10], s[11..13], s[14..16], s[17..19], Zone(t.offset));
  }

  // ---- the instant ----

  /** Days of the years before, from year 0. */
  function YearStart(year: nat): int {
    365 * year + (year + 3) / 4 - (year + 99) / 100 + (year + 399) / 400
  }

  function MonthStart(year: nat, month: nat): nat {
    if month <= 1 then 0 else MonthStart(year, month - 1) + DaysIn(year, month - 1)
  }

  function DayNumber(year: nat, month: nat, day: nat): int {
    YearStart(year) + MonthStart(year, month) + day
  }

  /** Seconds on the UTC time line. */
  function Instant(t: Stamp): int {
    ((DayNumber(t.year, t.month, t.day) * 24 + t.hour) * 60 + t.minute - t.offset) * 60 + t.second
  }

  /** Within a day the instants are seconds apart, and the zone's offset counts against the local time. */
  lemma InstantsOfOneDay(t: Stamp, u: Stamp)
    requires t.year == u.year && t.month == u.month && t.day == u.day
    ensures Instant(t) - Instant(u)
            == (t.hour - u.hour) * 3600 + (t.minute - u.minute) * 60 + (t.second - u.second) - (t.offset - u.offset) * 60
  {
  }

  /** From one day to the next the same time of day is 86400 seconds later. */
  lemma InstantsADayApart(t: Stamp)
    requires 1 <= t.month <= 12 && 1 <= t.day <= DaysIn(t.year, t.month)
    ensures var (y, m, d) := NextDay(t.year, t.month, t.day);
            Instant(t.(year := y, month := m, day := d)) == Instant(t) + 86400
  {
    DaysFollowCalendar(t.year, t.month, t.day);
  }

  function NextDay(year: nat, month: nat, day: nat): (nat, nat, nat) {
    if day < DaysIn(year, month) then (year, month, day + 1)
    else if month < 12 then (year, month + 1, 1)
    else (year + 1, 1, 1)
  }

  /** The day numbers follow the calendar. */
  lemma DaysFollowCalendar(year: nat, month: nat, day: nat)
    requires 1 <= month <= 12 && 1 <= day <= DaysIn(year, month)
    ensures var (y, m, d) := NextDay(year, month, day);
            DayNumber(y, m, d) == DayNumber(year, month, day) + 1
  {
    if day == DaysIn(year, month) && month == 12 {
      YearLength(year);
      assert MonthStart(year, 12) + 31 == 365 + if IsLeap(year) then 1 else 0 by { MonthsAddUp(year); }
    }
  }

  lemma MonthsAddUp(year: nat)
    ensures MonthStart(year, 12) == 334 + if IsLeap(year) then 1 else 0
  {
    assert MonthStart(year, 2) == 31;
    assert MonthStart(year, 3) == 31 + DaysIn(year, 2);
    assert MonthStart(year, 5) == MonthStart(year, 3) + 61;
    assert MonthStart(year, 7) == MonthStart(year, 5) + 61;
    assert MonthStart(year, 9) == MonthStart(year, 7) + 62;
    assert MonthStart(year, 11) == MonthStart(year, 9) + 61;
  }

  lemma YearLength(year: nat)
    ensures YearStart(year + 1) == YearStart(year) + 365 + if IsLeap(year) then 1 else 0
  {
    Multiples(year, 4);
    Multiples(year, 100);
    Multiples(year, 400);
    Centuries(year);
  }

  lemma Centuries(year: nat)
    ensures year % 100 == 0 ==> year % 4 == 0
    ensures year % 400 == 0 ==> year % 100 == 0
  {
    if year % 100 == 0 { assert year == 4 * (25 * (year / 100)); }
    if year % 400 == 0 { assert year == 100 * (4 * (year / 400)); }
  }

  lemma Multiples(year: nat, k: nat)
    requires k > 0
    ensures (year + k) / k == (year + k - 1) / k + if year % k == 0 then 1 else 0
  {
    var q, r := year / k, year % k;
    assert year == q * k + r;
    Quotient(year + k, k, q + 1, r);
    if r == 0 {
      Quotient(year + k - 1, k, q, k - 1);
    } else {
      Quotient(year + k - 1, k, q + 1, r - 1);
    }
  }
}
