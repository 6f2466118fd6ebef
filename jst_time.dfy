/** The quota window's calendar: the day key `YYYY-MM-DD` of the current date at UTC+9
    (Asia/Tokyo) and the instant the window ends, 00:00 of the next day at UTC+9.

    The year, month and day that `Intl.DateTimeFormat` extracts are inputs here. The instant is
    in milliseconds since the epoch, computed as `Date.UTC` does (section 21.4.3.4 of
    ECMA-262, with MakeDay, MakeTime and MakeDate of section 21.4.1). */
module JstTime {

  // ---------------------------------------------------------------------------------------
  // The day key

  /** The decimal digit of `d`. */
  function Digit(d: int): (c: char)
    requires 0 <= d < 10
    ensures '0' <= c <= '9'
  {
    (48 + d) as char
  }

  /** `String(n)` of a non-negative integer: its decimal digits without leading zeros. */
  function Decimal(n: nat): (s: string)
    ensures 1 <= |s|
    ensures forall i :: 0 <= i < |s| ==> '0' <= s[i] <= '9'
  {
    if n < 10 then [Digit(n)] else Decimal(n / 10) + [Digit(n % 10)]
  }

  /** `String(n)` (the template literal) of an integer: a minus sign before negative numbers. */
  function NumberString(n: int): (s: string)
    ensures 1 <= |s|
  {
    if n < 0 then "-" + Decimal(-n) else Decimal(n)
  }

  /** `s.padStart(2, '0')`. */
  function PadStart2(s: string): (r: string)
    ensures |r| == if |s| >= 2 then |s| else 2
    ensures |s| >= 2 ==> r == s
    ensures |s| < 2 ==> r == Zeros(2 - |s|) + s
  {
    if |s| >= 2 then s else Zeros(2 - |s|) + s
  }

  function Zeros(n: nat): (r: string)
    ensures |r| == n && forall i :: 0 <= i < n ==> r[i] == '0'
  {
    if n == 0 then [] else Zeros(n - 1) + ['0']
  }

  /** `getJstDayKey`'s template: year, then month and day padded to two digits. For valid
      parts this is the fixed-width `YYYY-MM-DD`. */
  function DayKey(year: int, month: int, day: int): (key: string)
    ensures ValidParts(year, month, day) ==>
      key == FixedDigits(year, 4) + "-" + FixedDigits(month, 2) + "-" + FixedDigits(day, 2)
  {
    FieldDigits(year, month, day);
    NumberString(year) + "-" + PadStart2(NumberString(month)) + "-" + PadStart2(NumberString(day))
  }

  /** Each field of the key of valid parts is written in its fixed width. */
  lemma FieldDigits(year: int, month: int, day: int)
    ensures ValidParts(year, month, day) ==>
      && NumberString(year) == FixedDigits(year, 4)
      && PadStart2(NumberString(month)) == FixedDigits(month, 2)
      && PadStart2(NumberString(day)) == FixedDigits(day, 2)
  {
    if ValidParts(year, month, day) {
      assert Pow10(3) == 1000 && Pow10(4) == 10000;
      DecimalIsFixed(year, 4);
      PadFixed(month);
      PadFixed(day);
    }
  }

  /** `n` written in exactly `k` decimal digits, with leading zeros. */
  function FixedDigits(n: nat, k: nat): (s: string)
    ensures |s| == k
  {
    if k == 0 then [] else FixedDigits(n / 10, k - 1) + [Digit(n % 10)]
  }

  function Pow10(k: nat): (p: nat)
    ensures p >= 1
  {
    if k == 0 then 1 else 10 * Pow10(k - 1)
  }

  /** The parts the model reasons about: a year of four digits, a month and a day of the month. */
  predicate ValidParts(year: int, month: int, day: int) {
    1000 <= year <= 9999 && 1 <= month <= 12 && 1 <= day <= 31
  }

  /** A number of `k` digits is written as its `k` fixed digits. */
  lemma {:induction false} DecimalIsFixed(n: nat, k: nat)
    requires k >= 1 && Pow10(k - 1) <= n < Pow10(k)
    ensures Decimal(n) == FixedDigits(n, k)
  {
    if k > 1 {
      DecimalIsFixed(n / 10, k - 1);
    }
  }

  /** `String(n).padStart(2, '0')` of `0 <= n < 100` is its two fixed digits. */
  lemma PadFixed(n: int)
    requires 0 <= n < 100
    ensures PadStart2(NumberString(n)) == FixedDigits(n, 2)
  {
    if n < 10 {
      assert FixedDigits(n, 2) == FixedDigits(0, 1) + [Digit(n)];
    } else {
      assert Pow10(1) == 10 && Pow10(2) == 100;
      DecimalIsFixed(n, 2);
    }
  }

  /** The key of valid parts has exactly ten characters. */
  lemma DayKeyLength(year: int, month: int, day: int)
    requires ValidParts(year, month, day)
    ensures |DayKey(year, month, day)| == 10
  {
  }

  // ---------------------------------------------------------------------------------------
  // Order of keys

  /** JavaScript's `<` on strings: code unit by code unit, a proper prefix first. */
  predicate LexLess(a: string, b: string) {
    if a == [] then b != []
    else if b == [] then false
    else a[0] < b[0] || (a[0] == b[0] && LexLess(a[1..], b[1..]))
  }

  /** Calendar order of (year, month, day). */
  predicate Before(y1: int, m1: int, d1: int, y2: int, m2: int, d2: int) {
    y1 < y2 || (y1 == y2 && (m1 < m2 || (m1 == m2 && d1 < d2)))
  }

  /** Comparing two concatenations whose first parts have the same length compares the first
      parts, then the second. */
  lemma {:induction false} LexLessConcat(a1: string, a2: string, b1: string, b2: string)
    requires |a1| == |b1|
    ensures LexLess(a1 + a2, b1 + b2) <==> LexLess(a1, b1) || (a1 == b1 && LexLess(a2, b2))
  {
    if a1 != [] {
      assert (a1 + a2)[1..] == a1[1..] + a2 && (b1 + b2)[1..] == b1[1..] + b2;
      LexLessConcat(a1[1..], a2, b1[1..], b2);
      if a1[0] == b1[0] && a1[1..] == b1[1..] {
        assert a1 == b1 by { assert a1 == [a1[0]] + a1[1..] && b1 == [b1[0]] + b1[1..]; }
      }
    } else {
      assert a1 + a2 == a2 && b1 + b2 == b2;
    }
  }

  /** Fixed-width digits compare as the numbers do. */
  lemma {:induction false} FixedDigitsOrder(a: nat, b: nat, k: nat)
    requires a < Pow10(k) && b < Pow10(k)
    ensures LexLess(FixedDigits(a, k), FixedDigits(b, k)) <==> a < b
    ensures FixedDigits(a, k) == FixedDigits(b, k) <==> a == b
  {
    if k > 0 {
      FixedDigitsOrder(a / 10, b / 10, k - 1);
      LexLessConcat(FixedDigits(a / 10, k - 1), [Digit(a % 10)], FixedDigits(b / 10, k - 1), [Digit(b % 10)]);
      LastDigitSplit(a, b);
      var sa, sb := FixedDigits(a, k), FixedDigits(b, k);
      if sa == sb {
        assert sa[..k - 1] == sb[..k - 1] && sa[k - 1] == sb[k - 1];
      }
    }
  }

  lemma LastDigitSplit(a: nat, b: nat)
    ensures a < b <==> a / 10 < b / 10 || (a / 10 == b / 10 && a % 10 < b % 10)
    ensures a == b <==> a / 10 == b / 10 && a % 10 == b % 10
    ensures LexLess([Digit(a % 10)], [Digit(b % 10)]) <==> a % 10 < b % 10
  {
    assert [Digit(a % 10)][1..] == [] && [Digit(b % 10)][1..] == [];
  }

  /** A key assembled from its three fields. */
  function Assemble(y: string, m: string, d: string): string {
    y + ("-" + (m + ("-" + d)))
  }

  lemma AssembleKey(year: int, month: int, day: int)
    requires ValidParts(year, month, day)
    ensures DayKey(year, month, day) == Assemble(FixedDigits(year, 4), FixedDigits(month, 2), FixedDigits(day, 2))
  {
  }

  /** Splitting two concatenations whose first parts have the same length. */
  lemma ConcatSplit(a1: string, a2: string, b1: string, b2: string)
    requires |a1| == |b1|
    ensures a1 + a2 == b1 + b2 <==> a1 == b1 && a2 == b2
  {
    if a1 + a2 == b1 + b2 {
      assert a1 == (a1 + a2)[..|a1|] && b1 == (b1 + b2)[..|b1|];
      assert a2 == (a1 + a2)[|a1|..] && b2 == (b1 + b2)[|b1|..];
    }
  }

  /** Keys with fields of the same widths are equal exactly when their fields are. */
  lemma AssembleEqual(y1: string, m1: string, d1: string, y2: string, m2: string, d2: string)
    requires |y1| == |y2| && |m1| == |m2|
    ensures Assemble(y1, m1, d1) == Assemble(y2, m2, d2) <==> y1 == y2 && m1 == m2 && d1 == d2
  {
    ConcatSplit(y1, "-" + (m1 + ("-" + d1)), y2, "-" + (m2 + ("-" + d2)));
    ConcatSplit("-", m1 + ("-" + d1), "-", m2 + ("-" + d2));
    ConcatSplit(m1, "-" + d1, m2, "-" + d2);
    ConcatSplit("-", d1, "-", d2);
  }

  /** Keys with fields of the same widths compare field by field. */
  lemma AssembleLess(y1: string, m1: string, d1: string, y2: string, m2: string, d2: string)
    requires |y1| == |y2| && |m1| == |m2|
    ensures LexLess(Assemble(y1, m1, d1), Assemble(y2, m2, d2)) <==>
      LexLess(y1, y2) || (y1 == y2 && (LexLess(m1, m2) || (m1 == m2 && LexLess(d1, d2))))
  {
    assert !LexLess("-", "-");
    LexLessConcat(y1, "-" + (m1 + ("-" + d1)), y2, "-" + (m2 + ("-" + d2)));
    LexLessConcat("-", m1 + ("-" + d1), "-", m2 + ("-" + d2));
    LexLessConcat(m1, "-" + d1, m2, "-" + d2);
    LexLessConcat("-", d1, "-", d2);
    AssembleEqual(y1, m1, d1, y2, m2, d2);
    ConcatSplit("-", m1 + ("-" + d1), "-", m2 + ("-" + d2));
    ConcatSplit("-", d1, "-", d2);
  }

  /** Distinct valid dates have distinct keys. */
  lemma DayKeyInjective(y1: int, m1: int, d1: int, y2: int, m2: int, d2: int)
    requires ValidParts(y1, m1, d1) && ValidParts(y2, m2, d2)
    requires DayKey(y1, m1, d1) == DayKey(y2, m2, d2)
    ensures y1 == y2 && m1 == m2 && d1 == d2
  {
    AssembleKey(y1, m1, d1);
    AssembleKey(y2, m2, d2);
    AssembleEqual(FixedDigits(y1, 4), FixedDigits(m1, 2), FixedDigits(d1, 2),
                  FixedDigits(y2, 4), FixedDigits(m2, 2), FixedDigits(d2, 2));
    assert Pow10(2) == 100 && Pow10(4) == 10000;
    FixedDigitsOrder(y1, y2, 4);
    FixedDigitsOrder(m1, m2, 2);
    FixedDigitsOrder(d1, d2, 2);
  }

  /** For four-digit years, the order of keys is the calendar order of the dates. */
  lemma DayKeyOrder(y1: int, m1: int, d1: int, y2: int, m2: int, d2: int)
    requires ValidParts(y1, m1, d1) && ValidParts(y2, m2, d2)
    ensures LexLess(DayKey(y1, m1, d1), DayKey(y2, m2, d2)) <==> Before(y1, m1, d1, y2, m2, d2)
  {
    AssembleKey(y1, m1, d1);
    AssembleKey(y2, m2, d2);
    AssembleLess(FixedDigits(y1, 4), FixedDigits(m1, 2), FixedDigits(d1, 2),
                 FixedDigits(y2, 4), FixedDigits(m2, 2), FixedDigits(d2, 2));
    assert Pow10(2) == 100 && Pow10(4) == 10000;
    FixedDigitsOrder(y1, y2, 4);
    FixedDigitsOrder(m1, m2, 2);
    FixedDigitsOrder(d1, d2, 2);
  }

  // ---------------------------------------------------------------------------------------
  // The resume instant

  const MS_PER_DAY := 86400000
  const MS_PER_HOUR := 3600000
  /** The offset of Asia/Tokyo, which has no daylight saving time. */
  const JST_OFFSET_HOURS := 9

  /** Days from 1970-01-01 to January 1 of `y` (DayFromYear). Dafny's division by a positive
      constant rounds down, as the standard's `floor` does. */
  function DayFromYear(y: int): int {
    365 * (y - 1970) + (y - 1969) / 4 - (y - 1901) / 100 + (y - 1601) / 400
  }

  predicate InLeapYear(y: int) {
    y % 4 == 0 && (y % 100 != 0 || y % 400 == 0)
  }

  /** Days in the months of the year before month `mn` (0 = January). */
  function DaysBeforeMonth(y: int, mn: int): int
    requires 0 <= mn < 12
  {
    [0, 31, 59, 90, 120, 151, 181, 212, 243, 273, 304, 334][mn] + (if InLeapYear(y) && mn >= 2 then 1 else 0)
  }

  function DaysInMonth(y: int, mn: int): int
    requires 0 <= mn < 12
  {
    if mn == 1 then (if InLeapYear(y) then 29 else 28)
    else if mn == 3 || mn == 5 || mn == 8 || mn == 10 then 30
    else 31
  }

  /** MakeDay: the day number of `date` in month `month` (0-based, may overflow into later
      years) of `year`; a `date` past the end of the month runs into the next. */
  function MakeDay(year: int, month: int, date: int): (d: int)
    ensures 0 <= month < 12 ==> d == DayFromYear(year) + DaysBeforeMonth(year, month) + date - 1
    ensures 12 <= month < 24 ==> d == DayFromYear(year + 1) + DaysBeforeMonth(year + 1, month - 12) + date - 1
  {
    var ym := year + month / 12;
    var mn := month % 12;
    assert 0 <= month < 12 ==> month / 12 == 0 && month % 12 == month;
    assert 12 <= month < 24 ==> month / 12 == 1 && month % 12 == month - 12;
    DayFromYear(ym) + DaysBeforeMonth(ym, mn) + date - 1
  }

  /** `Date.UTC(year, month, date, hours)` with zero minutes, seconds and milliseconds: the
      start of day `MakeDay` plus `hours`, where a year from 0 to 99 means 1900 to 1999. */
  function DateUtc(year: int, month: int, date: int, hours: int): (t: int)
    ensures (t - hours * MS_PER_HOUR) % MS_PER_DAY == 0
    ensures 0 <= year <= 99 ==> (t - hours * MS_PER_HOUR) / MS_PER_DAY == MakeDay(1900 + year, month, date)
    ensures !(0 <= year <= 99) ==> (t - hours * MS_PER_HOUR) / MS_PER_DAY == MakeDay(year, month, date)
  {
    var yr := if 0 <= year <= 99 then 1900 + year else year;
    MakeDay(yr, month, date) * MS_PER_DAY + hours * MS_PER_HOUR
  }

  /** `getNextJstMidnightIso` before formatting: `Date.UTC(year, month - 1, day + 1, -9)`, the
      00:00 at UTC+9 that starts the day after the parts' date. */
  function NextJstMidnight(year: int, month: int, day: int): (t: int)
    ensures 100 <= year ==> (t + JST_OFFSET_HOURS * MS_PER_HOUR) % MS_PER_DAY == 0
    ensures 100 <= year ==> (t + JST_OFFSET_HOURS * MS_PER_HOUR) / MS_PER_DAY == MakeDay(year, month - 1, day) + 1
  {
    DateUtc(year, month - 1, day + 1, -JST_OFFSET_HOURS)
  }

  /** The extracted parts are the UTC+9 calendar date of instant `t`: their day number is the
      number of whole days from the epoch to `t + 9h`. */
  predicate IsJstDateOf(t: int, year: int, month: int, day: int) {
    && 100 <= year && 1 <= month <= 12 && 1 <= day <= DaysInMonth(year, month - 1)
    && MakeDay(year, month - 1, day) == (t + JST_OFFSET_HOURS * MS_PER_HOUR) / MS_PER_DAY
  }

  /** The window of the parts of instant `t` ends after `t`, and at most a day after it. */
  lemma ResumeWithinADay(t: int, year: int, month: int, day: int)
    requires IsJstDateOf(t, year, month, day)
    ensures t < NextJstMidnight(year, month, day) <= t + MS_PER_DAY
  {
    var today := MakeDay(year, month - 1, day);
    assert MakeDay(year, month - 1, day + 1) == today + 1;
    var local := t + JST_OFFSET_HOURS * MS_PER_HOUR;
    assert today * MS_PER_DAY <= local < today * MS_PER_DAY + MS_PER_DAY;
  }

  /** The window ends at a UTC+9 midnight, which is 15:00 UTC of the day before. */
  lemma ResumeIsJstMidnight(year: int, month: int, day: int)
    requires 100 <= year
    ensures NextJstMidnight(year, month, day) % MS_PER_DAY == 15 * MS_PER_HOUR
  {
    var k := MakeDay(year, month - 1, day + 1);
    assert NextJstMidnight(year, month, day) == k * MS_PER_DAY - JST_OFFSET_HOURS * MS_PER_HOUR;
    DayStartResidues(k);
  }

  /** 09:00 before the start of UTC day `k` is 15:00 of day `k - 1`. */
  lemma DayStartResidues(k: int)
    ensures (k * MS_PER_DAY - JST_OFFSET_HOURS * MS_PER_HOUR + JST_OFFSET_HOURS * MS_PER_HOUR) % MS_PER_DAY == 0
    ensures (k * MS_PER_DAY - JST_OFFSET_HOURS * MS_PER_HOUR) % MS_PER_DAY == 15 * MS_PER_HOUR
  {
    assert k * MS_PER_DAY - JST_OFFSET_HOURS * MS_PER_HOUR == (k - 1) * MS_PER_DAY + 15 * MS_PER_HOUR;
  }

  /** Both values come from the same parts: equal keys give equal resume instants. */
  lemma SameKeySameResume(y1: int, m1: int, d1: int, y2: int, m2: int, d2: int)
    requires ValidParts(y1, m1, d1) && ValidParts(y2, m2, d2)
    requires DayKey(y1, m1, d1) == DayKey(y2, m2, d2)
    ensures NextJstMidnight(y1, m1, d1) == NextJstMidnight(y2, m2, d2)
  {
    DayKeyInjective(y1, m1, d1, y2, m2, d2);
  }

  /** The last day of a month resumes at 00:00 UTC+9 of the first day of the next month: the
      day overflow of `Date.UTC` runs into the next month. */
  lemma MonthRollsOver(year: int, month: int)
    requires 100 <= year && 1 <= month < 12
    ensures NextJstMidnight(year, month, DaysInMonth(year, month - 1)) == DateUtc(year, month, 1, -JST_OFFSET_HOURS)
  {
    var last := DaysInMonth(year, month - 1);
    MonthStep(year, month - 1);
    assert MakeDay(year, month - 1, last + 1) == MakeDay(year, month, 1);
  }

  /** The days before the next month are those before this month and in it. */
  lemma MonthStep(y: int, mn: int)
    requires 0 <= mn < 11
    ensures DaysBeforeMonth(y, mn) + DaysInMonth(y, mn) == DaysBeforeMonth(y, mn + 1)
  {
    var table := [0, 31, 59, 90, 120, 151, 181, 212, 243, 273, 304, 334];
    assert table[mn + 1] - table[mn] == if mn == 1 then 28 else DaysInMonth(y, mn);
  }

  /** The last day of December resumes at 00:00 UTC+9 of January 1 of the next year. */
  lemma YearRollsOver(year: int)
    requires 100 <= year
    ensures NextJstMidnight(year, 12, 31) == DateUtc(year + 1, 0, 1, -JST_OFFSET_HOURS)
  {
    YearLength(year);
  }

  /** A year has 366 days when it is a leap year and 365 otherwise. */
  lemma YearLength(y: int)
    ensures DayFromYear(y + 1) - DayFromYear(y) == if InLeapYear(y) then 366 else 365
  {
    FloorStep4(y - 1969);
    FloorStep100(y - 1901);
    FloorStep400(y - 1601);
    Residues(y);
    var a := (y - 1968) / 4 - (y - 1969) / 4;
    var b := (y - 1900) / 100 - (y - 1901) / 100;
    var c := (y - 1600) / 400 - (y - 1601) / 400;
    assert DayFromYear(y + 1) - DayFromYear(y) == 365 + a - b + c;
  }

  /** The residues the leap rule looks at. */
  lemma Residues(y: int)
    ensures (y - 1968) % 4 == y % 4 && (y - 1900) % 100 == y % 100 && (y - 1600) % 400 == y % 400
    ensures y % 400 == 0 ==> y % 100 == 0
    ensures y % 100 == 0 ==> y % 4 == 0
  {
    Residue4(y);
    Residue100(y);
    Residue400(y);
  }

  lemma Residue4(y: int)
    ensures (y - 1968) % 4 == y % 4
  {
    var q, r := y / 4, y % 4;
    assert y - 1968 == 4 * (q - 492) + r;
  }

  lemma Residue100(y: int)
    ensures (y - 1900) % 100 == y % 100
    ensures y % 100 == 0 ==> y % 4 == 0
  {
    var q, r := y / 100, y % 100;
    assert y - 1900 == 100 * (q - 19) + r;
    assert y == 4 * (25 * q) + r;
  }

  lemma Residue400(y: int)
    ensures (y - 1600) % 400 == y % 400
    ensures y % 400 == 0 ==> y % 100 == 0
  {
    var q, r := y / 400, y % 400;
    assert y - 1600 == 400 * (q - 4) + r;
    assert y == 100 * (4 * q) + r;
  }

  /** Rounded-down quotients grow by one exactly at multiples of the divisor. */
  lemma FloorStep4(x: int)
    ensures (x + 1) / 4 - x / 4 == if (x + 1) % 4 == 0 then 1 else 0
  {
  }

  lemma FloorStep100(x: int)
    ensures (x + 1) / 100 - x / 100 == if (x + 1) % 100 == 0 then 1 else 0
  {
  }

  lemma FloorStep400(x: int)
    ensures (x + 1) / 400 - x / 400 == if (x + 1) % 400 == 0 then 1 else 0
  {
  }

  /** Day zero is 1970-01-01. */
  lemma EpochIsDayZero()
    ensures MakeDay(1970, 0, 1) == 0
  {
  }

  /** February 2024 has 29 days: March 1 is two days after February 28. */
  lemma LeapFebruary()
    ensures MakeDay(2024, 2, 1) - MakeDay(2024, 1, 28) == 2
  {
    assert InLeapYear(2024);
    assert DaysBeforeMonth(2024, 2) == 60 && DaysBeforeMonth(2024, 1) == 31;
  }

  /** February 2023 has 28 days: March 1 is the day after February 28. */
  lemma CommonFebruary()
    ensures MakeDay(2023, 2, 1) - MakeDay(2023, 1, 28) == 1
  {
    assert !InLeapYear(2023);
    assert DaysBeforeMonth(2023, 2) == 59 && DaysBeforeMonth(2023, 1) == 31;
  }
}
