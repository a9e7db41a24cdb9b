/** Canonical logical times (kernel/canonical.py; sections 5.1 and 5.6 of RFC 3339): fixed-width
    UTC text, whose string order is chronological order. */
module LogicalTime {
  import opened Orders

  type Text = seq<int>

  predicate Digit(c: int) { 48 <= c < 58 }

  /** The expression `YYYY-MM-DDTHH:MM:SSZ`. */
  predicate Shape(t: Text) {
    && |t| == 20
    && (forall i :: 0 <= i < 20 && i !in {4, 7, 10, 13, 16, 19} ==> Digit(t[i]))
    && t[4] == 45 && t[7] == 45 && t[10] == 84 && t[13] == 58 && t[16] == 58 && t[19] == 90
  }

  function Two(t: Text, i: nat): int
    requires i + 2 <= |t|
  {
    (t[i] - 48) * 10 + (t[i + 1] - 48)
  }

  datatype Stamp = Stamp(year: int, month: int, day: int, hour: int, minute: int, second: int)

  function Fields(t: Text): Stamp
    requires Shape(t)
  {
    Stamp(Two(t, 0) * 100 + Two(t, 2), Two(t, 5), Two(t, 8), Two(t, 11), Two(t, 14), Two(t, 17))
  }

  predicate Leap(y: int) {
    y % 4 == 0 && (y % 100 != 0 || y % 400 == 0)
  }

  function MonthLength(y: int, m: int): int {
    if m == 2 then (if Leap(y) then 29 else 28)
    else if m == 4 || m == 6 || m == 9 || m == 11 then 30
    else 31
  }

  /** What the `datetime` constructor accepts. */
  predicate Valid(s: Stamp) {
    && 1 <= s.year <= 9999 && 1 <= s.month <= 12 && 1 <= s.day <= MonthLength(s.year, s.month)
    && 0 <= s.hour < 24 && 0 <= s.minute < 60 && 0 <= s.second < 60
  }

  datatype TimeError = BadShape | BadDate

  /** `validate_logical_time`. */
  function Validate(t: Text): Result<Text, TimeError> {
    if !Shape(t) then Err(BadShape)
    else if !Valid(Fields(t)) then Err(BadDate)
    else Ok(t)
  }

  // ----- the Gregorian second count -----

  function DaysBeforeYear(y: int): int
    decreases y
  {
    if y <= 1 then 0 else DaysBeforeYear(y - 1) + (if Leap(y - 1) then 366 else 365)
  }

  function DaysBeforeMonth(y: int, m: int): int
    decreases m
  {
    if m <= 1 then 0 else DaysBeforeMonth(y, m - 1) + MonthLength(y, m - 1)
  }

  function Days(s: Stamp): int {
    DaysBeforeYear(s.year) + DaysBeforeMonth(s.year, s.month) + s.day
  }

  /** Seconds on the Gregorian calendar, counted from a fixed origin. */
  function Seconds(s: Stamp): int {
    ((Days(s) * 24 + s.hour) * 60 + s.minute) * 60 + s.second
  }

  lemma {:induction false} MonthsGrow(y: int, m: int, n: int)
    requires 1 <= m < n <= 13
    ensures DaysBeforeMonth(y, m) + MonthLength(y, m) <= DaysBeforeMonth(y, n)
    decreases n - m
  {
    if m + 1 < n {
      MonthsGrow(y, m, n - 1);
    }
  }

  lemma {:induction false} YearLength(y: int)
    ensures DaysBeforeMonth(y, 13) == if Leap(y) then 366 else 365
  {
    var q := DaysBeforeMonth(y, 4);
    assert DaysBeforeMonth(y, 2) == 31;
    assert DaysBeforeMonth(y, 3) == 31 + MonthLength(y, 2);
    assert q == 62 + MonthLength(y, 2);
    assert DaysBeforeMonth(y, 5) == q + 30;
    assert DaysBeforeMonth(y, 6) == q + 61;
    assert DaysBeforeMonth(y, 7) == q + 91;
    assert DaysBeforeMonth(y, 8) == q + 122;
    assert DaysBeforeMonth(y, 9) == q + 153;
    assert DaysBeforeMonth(y, 10) == q + 183;
    assert DaysBeforeMonth(y, 11) == q + 214;
    assert DaysBeforeMonth(y, 12) == q + 244;
  }

  lemma {:induction false} YearsGrow(y: int, z: int)
    requires 1 <= y < z
    ensures DaysBeforeYear(y) + DaysBeforeMonth(y, 13) <= DaysBeforeYear(z)
    decreases z - y
  {
    YearLength(y);
    if y + 1 < z {
      YearsGrow(y, z - 1);
    }
  }

  predicate DateBefore(a: Stamp, b: Stamp) {
    a.year < b.year || (a.year == b.year && (a.month < b.month || (a.month == b.month && a.day < b.day)))
  }

  predicate TimeBefore(a: Stamp, b: Stamp) {
    a.hour < b.hour || (a.hour == b.hour && (a.minute < b.minute || (a.minute == b.minute && a.second < b.second)))
  }

  predicate Before(a: Stamp, b: Stamp) {
    DateBefore(a, b) || (a.year == b.year && a.month == b.month && a.day == b.day && TimeBefore(a, b))
  }

  lemma {:induction false} DaysMonotone(a: Stamp, b: Stamp)
    requires Valid(a) && Valid(b) && DateBefore(a, b)
    ensures Days(a) < Days(b)
  {
    if a.year < b.year {
      MonthsGrow(a.year, a.month, 13);
      YearsGrow(a.year, b.year);
      if b.month > 1 { MonthsGrow(b.year, 1, b.month); }
    } else if a.month < b.month {
      MonthsGrow(a.year, a.month, b.month);
    }
  }

  lemma {:induction false} SecondsMonotone(a: Stamp, b: Stamp)
    requires Valid(a) && Valid(b) && Before(a, b)
    ensures Seconds(a) < Seconds(b)
  {
    hide Days, MonthLength;
    if DateBefore(a, b) { DaysMonotone(a, b); } else { assert Days(a) == Days(b) by { SameDays(a, b); } }
  }

  lemma {:induction false} SameDays(a: Stamp, b: Stamp)
    requires a.year == b.year && a.month == b.month && a.day == b.day
    ensures Days(a) == Days(b)
  {
  }

  // ----- string order -----

  /** The first position where two texts of the same length differ. */
  lemma {:induction false} FirstDifference(a: Text, b: Text) returns (k: nat)
    requires |a| == |b| && a != b
    ensures k < |a| && a[..k] == b[..k] && a[k] != b[k]
  {
    k := 0;
    while a[k] == b[k]
      invariant k < |a| && a[..k] == b[..k]
      invariant exists i :: k <= i < |a| && a[i] != b[i]
      decreases |a| - k
    {
      assert a[..k + 1] == a[..k] + [a[k]] && b[..k + 1] == b[..k] + [b[k]];
      k := k + 1;
    }
  }

  lemma {:induction false} DifferenceOrders(a: Text, b: Text, k: nat)
    requires Shape(a) && Shape(b) && k < 20 && a[..k] == b[..k] && a[k] < b[k]
    ensures Before(Fields(a), Fields(b))
  {
    assert forall i :: 0 <= i < k ==> a[i] == a[..k][i] == b[..k][i] == b[i];
  }

  /** For accepted times, string order is chronological order. */
  lemma {:induction false} StringOrderIsTimeOrder(a: Text, b: Text)
    requires Validate(a).Ok? && Validate(b).Ok?
    ensures LexLt(a, b) <==> Seconds(Fields(a)) < Seconds(Fields(b))
    ensures LexLe(a, b) <==> Seconds(Fields(a)) <= Seconds(Fields(b))
  {
    hide Seconds, LexLe;
    if a == b {
      LexRefl(a);
    } else {
      var k := FirstDifference(a, b);
      if a[k] < b[k] {
        LexAt(a, b, k);
        DifferenceOrders(a, b, k);
        SecondsMonotone(Fields(a), Fields(b));
      } else {
        LexAt(b, a, k);
        DifferenceOrders(b, a, k);
        SecondsMonotone(Fields(b), Fields(a));
        if LexLe(a, b) { LexAntisymmetric(a, b); }
      }
    }
  }

  // ----- the calendar -----

  lemma {:induction false} QuotientStep(y: int, n: int)
    requires y >= 1 && n >= 2
    ensures y / n - (y - 1) / n == if y % n == 0 then 1 else 0
  {
    var q, r := y / n, y % n;
    assert y == q * n + r;
    if r == 0 {
      assert y - 1 == (q - 1) * n + (n - 1);
      Quotient(y - 1, n, q - 1, n - 1);
    } else {
      Quotient(y - 1, n, q, r - 1);
    }
  }

  lemma {:induction false} Quotient(x: int, n: int, q: int, r: int)
    requires 0 <= r < n && x == q * n + r
    ensures x / n == q && x % n == r
  {
    var d := x / n - q;
    Multiples(d, n);
    assert x == x / n * n + x % n;
    assert d * n == x / n * n - q * n;
  }

  lemma {:induction false} Multiples(d: int, n: int)
    requires n > 0
    ensures (d >= 1 ==> d * n >= n) && (d <= -1 ==> d * n <= -n)
  {
  }

  lemma {:induction false} Centuries(y: int)
    requires y >= 1
    ensures (y % 100 == 0 ==> y % 4 == 0) && (y % 400 == 0 ==> y % 100 == 0)
  {
    if y % 100 == 0 { Quotient(y, 4, 25 * (y / 100), 0); }
    if y % 400 == 0 { Quotient(y, 100, 4 * (y / 400), 0); }
  }

  lemma {:induction false} LeapStep(y: int)
    requires y >= 1
    ensures LeapDays(y) - LeapDays(y - 1) == if Leap(y) then 1 else 0
  {
    Centuries(y);
    QuotientStep(y, 4);
    QuotientStep(y, 100);
    QuotientStep(y, 400);
    Steps(y % 4 == 0, y % 100 == 0, y % 400 == 0, y / 4 - (y - 1) / 4, y / 100 - (y - 1) / 100, y / 400 - (y - 1) / 400);
  }

  lemma {:induction false} Steps(a: bool, b: bool, c: bool, x: int, y: int, z: int)
    requires (b ==> a) && (c ==> b)
    requires x == (if a then 1 else 0) && y == (if b then 1 else 0) && z == (if c then 1 else 0)
    ensures x - y + z == if a && (!b || c) then 1 else 0
  {
  }

  /** Leap days up to the end of a year. */
  function LeapDays(y: int): int {
    y / 4 - y / 100 + y / 400
  }

  lemma {:induction false} YearsCounted(y: int)
    requires y >= 1
    ensures DaysBeforeYear(y) == 365 * (y - 1) + LeapDays(y - 1)
  {
    hide LeapDays, Leap;
    if y > 1 {
      YearsCounted(y - 1);
      LeapStep(y - 1);
    } else {
      assert LeapDays(0) == 0 by { NoLeapDays(); }
    }
  }

  lemma {:induction false} NoLeapDays()
    ensures LeapDays(0) == 0
  {
  }

  lemma {:induction false} MonthsCounted(y: int, m: int)
    requires 1 <= m <= 12
    ensures DaysBeforeMonth(y, m) ==
      if m == 1 then 0 else if m == 2 then 31 else (153 * (m - 3) + 2) / 5 + (if Leap(y) then 60 else 59)
  {
    if m > 1 {
      MonthsCounted(y, m - 1);
    }
  }

  /** The day count by the months of a year that begins in March, with a leap day every fourth year
      but in three of four centuries: the first of January of year 1 is day 1. */
  function CivilDays(s: Stamp): int {
    var y := if s.month <= 2 then s.year - 1 else s.year;
    var m := if s.month <= 2 then s.month + 9 else s.month - 3;
    365 * y + LeapDays(y) + (153 * m + 2) / 5 + s.day - 306
  }

  lemma {:induction false} DaysAreCivil(s: Stamp)
    requires 1 <= s.year && 1 <= s.month <= 12
    ensures Days(s) == CivilDays(s)
  {
    hide LeapDays, Leap, DaysBeforeYear, DaysBeforeMonth;
    YearsCounted(s.year);
    MonthsCounted(s.year, s.month);
    YearLength(s.year);
    if s.month > 2 {
      LeapStep(s.year);
    }
  }

  /** A day and the next one: the last day of a month is followed by the first of the next. */
  lemma {:induction false} MonthsAreCivil(s: Stamp)
    requires 1 <= s.year && 1 <= s.month <= 12
    ensures var next := if s.month == 12 then Stamp(s.year + 1, 1, 1, 0, 0, 0) else Stamp(s.year, s.month + 1, 1, 0, 0, 0);
      CivilDays(next) == CivilDays(s.(day := MonthLength(s.year, s.month))) + 1
  {
    hide CivilDays;
    var next := if s.month == 12 then Stamp(s.year + 1, 1, 1, 0, 0, 0) else Stamp(s.year, s.month + 1, 1, 0, 0, 0);
    DaysAreCivil(next);
    DaysAreCivil(s.(day := MonthLength(s.year, s.month)));
    if s.month == 12 {
      YearLength(s.year);
      assert DaysBeforeMonth(s.year, 13) == DaysBeforeMonth(s.year, 12) + MonthLength(s.year, 12);
    }
  }

  // ----- the text of a time -----

  function Pad2(n: int): Text {
    [48 + n / 10 % 10, 48 + n % 10]
  }

  function TimeText(s: Stamp): Text {
    Pad2(s.year / 100) + Pad2(s.year) + [45] + Pad2(s.month) + [45] + Pad2(s.day) + [84]
    + Pad2(s.hour) + [58] + Pad2(s.minute) + [58] + Pad2(s.second) + [90]
  }

  /** The accepted texts are those of the valid times, each time having one text. */
  lemma {:induction false} AcceptsTimeTexts(t: Text)
    ensures Validate(t).Ok? <==> exists s :: Valid(s) && t == TimeText(s)
    ensures Validate(t).Ok? ==> t == TimeText(Fields(t))
    ensures forall s :: Valid(s) && t == TimeText(s) ==> Validate(t) == Ok(t) && Fields(t) == s
  {
    hide MonthLength;
    forall s | Valid(s) && t == TimeText(s) ensures Validate(t) == Ok(t) && Fields(t) == s {
      ReadTime(s);
    }
    if Validate(t).Ok? {
      WrittenTime(t);
    }
  }

  lemma {:induction false} ReadPad(n: int)
    requires 0 <= n <= 99
    ensures Digit(Pad2(n)[0]) && Digit(Pad2(n)[1]) && (Pad2(n)[0] - 48) * 10 + (Pad2(n)[1] - 48) == n
  {
  }

  lemma {:induction false} PadRead(a: int, b: int)
    requires Digit(a) && Digit(b)
    ensures Pad2((a - 48) * 10 + (b - 48)) == [a, b]
  {
  }

  lemma {:induction false} PadYear(y: int)
    requires 0 <= y <= 9999
    ensures Pad2(y) == Pad2(y % 100) && y / 100 * 100 + y % 100 == y && 0 <= y / 100 <= 99 && 0 <= y % 100 <= 99
  {
    var q, r := y / 100, y % 100;
    assert r == r / 10 * 10 + r % 10;
    Quotient(y, 10, q * 10 + r / 10, r % 10);
    TensDigit(y, q, r);
  }

  lemma {:induction false} TensDigit(y: int, q: int, r: int)
    requires 0 <= r < 100 && y == q * 100 + r && y / 10 == q * 10 + r / 10
    ensures y / 10 % 10 == r / 10 % 10 && y % 10 == r % 10
  {
  }

  lemma {:induction false} ReadTime(s: Stamp)
    requires Valid(s)
    ensures Shape(TimeText(s)) && Fields(TimeText(s)) == s
  {
    hide MonthLength, Pad2;
    var t := TimeText(s);
    MonthBound(s.year, s.month);
    PadYear(s.year);
    ReadPad(s.year / 100);
    ReadPad(s.year % 100);
    ReadPad(s.month);
    ReadPad(s.day);
    ReadPad(s.hour);
    ReadPad(s.minute);
    ReadPad(s.second);
    TimeParts(s);
  }

  lemma {:induction false} TimeParts(s: Stamp)
    ensures var t := TimeText(s);
      && |t| == 20 && t[4] == 45 && t[7] == 45 && t[10] == 84 && t[13] == 58 && t[16] == 58 && t[19] == 90
      && t[0] == Pad2(s.year / 100)[0] && t[1] == Pad2(s.year / 100)[1] && t[2] == Pad2(s.year)[0] && t[3] == Pad2(s.year)[1]
      && t[5] == Pad2(s.month)[0] && t[6] == Pad2(s.month)[1] && t[8] == Pad2(s.day)[0] && t[9] == Pad2(s.day)[1]
      && t[11] == Pad2(s.hour)[0] && t[12] == Pad2(s.hour)[1] && t[14] == Pad2(s.minute)[0] && t[15] == Pad2(s.minute)[1]
      && t[17] == Pad2(s.second)[0] && t[18] == Pad2(s.second)[1]
  {
  }

  lemma {:induction false} MonthBound(y: int, m: int)
    ensures MonthLength(y, m) <= 31
  {
  }

  lemma {:induction false} WrittenTime(t: Text)
    requires Shape(t) && Valid(Fields(t))
    ensures t == TimeText(Fields(t))
  {
    hide MonthLength, Pad2;
    var s := Fields(t);
    PadYear(s.year);
    YearDigits(Two(t, 0), Two(t, 2));
    PadRead(t[0], t[1]);
    PadRead(t[2], t[3]);
    PadRead(t[5], t[6]);
    PadRead(t[8], t[9]);
    PadRead(t[11], t[12]);
    PadRead(t[14], t[15]);
    PadRead(t[17], t[18]);
    TimeParts(s);
  }

  lemma {:induction false} YearDigits(a: int, b: int)
    requires 0 <= a <= 99 && 0 <= b <= 99
    ensures (a * 100 + b) / 100 == a && (a * 100 + b) % 100 == b
  {
  }

  // the time 2024-01-01T00:00:00Z
  const NEW_YEAR: Text := [50, 48, 50, 52, 45, 48, 49, 45, 48, 49, 84, 48, 48, 58, 48, 48, 58, 48, 48, 90]

  lemma {:induction false} NewYearValid()
    ensures Validate(NEW_YEAR).Ok?
  {
    assert NEW_YEAR[4] == 45 && NEW_YEAR[10] == 84;
    assert Fields(NEW_YEAR) == Stamp(2024, 1, 1, 0, 0, 0);
  }
}
