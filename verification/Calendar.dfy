/** Instants and their UTC text. An instant counts microseconds from the start of year 1
    of the proleptic Gregorian calendar; a datetime is an instant seen at some offset. */
module Calendar {
  import opened Common
  import opened Digits

  predicate Leap(y: nat) {
    y % 4 == 0 && (y % 100 != 0 || y % 400 == 0)
  }

  function YearLength(y: nat): nat {
    if Leap(y) then 366 else 365
  }

  function MonthLength(leap: bool, m: nat): (n: nat)
    ensures 28 <= n <= 31
  {
    if m == 2 then (if leap then 29 else 28) else if m in {4, 6, 9, 11} then 30 else 31
  }

  function DaysBetween(y: nat, z: nat): nat
    decreases z - y
  {
    if z <= y then 0 else YearLength(y) + DaysBetween(y + 1, z)
  }

  /** The year and day of year of the n-th day after the start of year y. */
  function SplitYear(n: nat, y: nat): (r: (nat, nat))
    ensures y <= r.0 && r.1 < YearLength(r.0) && DaysBetween(y, r.0) + r.1 == n
  {
    if n < YearLength(y) then (y, n) else SplitYear(n - YearLength(y), y + 1)
  }

  function DaysBeforeMonth(leap: bool, m: nat, l: nat): nat
    decreases l - m
  {
    if l <= m then 0 else MonthLength(leap, m) + DaysBeforeMonth(leap, m + 1, l)
  }

  /** The month and day of the n-th day after the start of month m. */
  function SplitMonth(leap: bool, n: nat, m: nat): (r: (nat, nat))
    ensures m <= r.0 && r.1 < MonthLength(leap, r.0) && DaysBeforeMonth(leap, m, r.0) + r.1 == n
  {
    if n < MonthLength(leap, m) then (m, n) else SplitMonth(leap, n - MonthLength(leap, m), m + 1)
  }

  lemma YearHasTwelveMonths(leap: bool, n: nat)
    requires n < if leap then 366 else 365
    ensures SplitMonth(leap, n, 1).0 <= 12
  {
    if 13 <= SplitMonth(leap, n, 1).0 {
      MonthsAccumulate(leap, SplitMonth(leap, n, 1).0);
    }
  }

  lemma MonthsAccumulate(leap: bool, l: nat)
    requires 13 <= l
    ensures DaysBeforeMonth(leap, 1, l) >= if leap then 366 else 365
  {
    assert DaysBeforeMonth(leap, 10, l) >= 92 by {
      assert DaysBeforeMonth(leap, 12, l) >= 31;
      assert DaysBeforeMonth(leap, 11, l) >= 61;
    }
    assert DaysBeforeMonth(leap, 7, l) >= 184 by {
      assert DaysBeforeMonth(leap, 9, l) >= 122;
      assert DaysBeforeMonth(leap, 8, l) >= 153;
    }
    assert DaysBeforeMonth(leap, 4, l) >= 275 by {
      assert DaysBeforeMonth(leap, 6, l) >= 214;
      assert DaysBeforeMonth(leap, 5, l) >= 245;
    }
    assert DaysBeforeMonth(leap, 3, l) >= 306;
    assert DaysBeforeMonth(leap, 2, l) >= if leap then 335 else 334;
  }

  const DAY := 86400000000

  datatype Fields = Fields(year: nat, month: nat, day: nat, hour: nat, minute: nat, second: nat, micro: nat)

  function FieldsOf(t: nat): Fields {
    var (year, dayOfYear) := SplitYear(t / DAY, 1);
    var (month, day) := SplitMonth(Leap(year), dayOfYear, 1);
    var rest := t % DAY;
    Fields(year, month, day + 1, rest / 3600000000, rest / 60000000 % 60, rest / 1000000 % 60, rest % 1000000)
  }

  function InstantOf(f: Fields): int {
    (DaysBetween(1, f.year) + DaysBeforeMonth(Leap(f.year), 1, f.month) + f.day - 1) * DAY
    + f.hour * 3600000000 + f.minute * 60000000 + f.second * 1000000 + f.micro
  }

  /** Dates run to the end of year 9999. */
  predicate InRange(t: int) {
    0 <= t && SplitYear(t / DAY, 1).0 <= 9999
  }

  lemma FieldsRoundTrip(t: nat)
    ensures InstantOf(FieldsOf(t)) == t
  {
    var rest := t % DAY;
    assert t == t / DAY * DAY + rest;
    ClockRoundTrip(rest);
  }

  lemma ClockRoundTrip(rest: nat)
    requires rest < DAY
    ensures rest / 3600000000 * 3600000000 + rest / 60000000 % 60 * 60000000 + rest / 1000000 % 60 * 1000000
            + rest % 1000000 == rest
  {
    var seconds := rest / 1000000;
    assert rest / 60000000 == seconds / 60;
    assert rest / 3600000000 == seconds / 60 / 60;
  }

  lemma FieldsFit(t: int)
    requires InRange(t)
    ensures var f := FieldsOf(t);
            && f.year < 10000 && f.month < 100 && f.day < 100 && f.hour < 100 && f.minute < 100
            && f.second < 100 && f.micro < 1000000
  {
    var (year, dayOfYear) := SplitYear(t / DAY, 1);
    YearHasTwelveMonths(Leap(year), dayOfYear);
  }

  /** `isoformat` at microseconds in UTC, with the offset written as Z. */
  function Iso(f: Fields): (s: string)
    ensures |s| == 27
  {
    Pad(f.year, 4) + "-" + Pad(f.month, 2) + "-" + Pad(f.day, 2) + "T"
    + Pad(f.hour, 2) + ":" + Pad(f.minute, 2) + ":" + Pad(f.second, 2) + "." + Pad(f.micro, 6) + "Z"
  }

  function FromIso(s: string): Option<Fields> {
    if |s| == 27 && AllDigits(s[0..4]) && AllDigits(s[5..7]) && AllDigits(s[8..10]) && AllDigits(s[11..13])
       && AllDigits(s[14..16]) && AllDigits(s[17..19]) && AllDigits(s[20..26])
    then Some(Fields(Value(s[0..4]), Value(s[5..7]), Value(s[8..10]), Value(s[11..13]),
                     Value(s[14..16]), Value(s[17..19]), Value(s[20..26])))
    else None
  }

  lemma IsoSlices(f: Fields)
    ensures var s := Iso(f);
            && s[0..4] == Pad(f.year, 4) && s[5..7] == Pad(f.month, 2) && s[8..10] == Pad(f.day, 2)
            && s[11..13] == Pad(f.hour, 2) && s[14..16] == Pad(f.minute, 2) && s[17..19] == Pad(f.second, 2)
            && s[20..26] == Pad(f.micro, 6)
  {
  }

  lemma Pow10Values()
    ensures Pow10(2) == 100 && Pow10(4) == 10000 && Pow10(6) == 1000000
  {
  }

  lemma IsoRoundTrip(f: Fields)
    requires f.year < 10000 && f.month < 100 && f.day < 100 && f.hour < 100 && f.minute < 100
    requires f.second < 100 && f.micro < 1000000
    ensures FromIso(Iso(f)) == Some(f)
  {
    IsoSlices(f);
    Pow10Values();
    PadValue(f.year, 4);
    PadValue(f.month, 2);
    PadValue(f.day, 2);
    PadValue(f.hour, 2);
    PadValue(f.minute, 2);
    PadValue(f.second, 2);
    PadValue(f.micro, 6);
    hide Iso, Pow10, Pad;
  }

  // ---- against the Gregorian calendar's closed form

  /** Days from the start of year 1 to the start of year y. */
  function DaysBeforeYear(y: nat): int
    requires y > 0
  {
    (y - 1) * 365 + (y - 1) / 4 - (y - 1) / 100 + (y - 1) / 400
  }

  /** Days in a common year before each month. */
  const MONTH_STARTS := [0, 31, 59, 90, 120, 151, 181, 212, 243, 273, 304, 334]

  lemma {:induction false} YearsAreGregorian(y: nat)
    requires y > 0
    ensures DaysBetween(1, y) == DaysBeforeYear(y)
  {
    if y > 1 {
      YearsAreGregorian(y - 1);
      DaysExtend(1, y - 1);
      CenturyStep(y - 1);
    }
  }

  lemma {:induction false} DaysExtend(y: nat, z: nat)
    requires y <= z
    ensures DaysBetween(y, z + 1) == DaysBetween(y, z) + YearLength(z)
    decreases z - y
  {
    if y < z {
      DaysExtend(y + 1, z);
    } else {
      assert DaysBetween(z + 1, z + 1) == 0;
    }
  }

  /** A year that 4 divides is leap unless it ends a century that 400 does not divide. */
  lemma CenturyStep(y: nat)
    requires y > 0
    ensures DaysBeforeYear(y + 1) == DaysBeforeYear(y) + YearLength(y)
  {
    QuotientSteps(y);
    CenturiesAreFours(y);
    LeapAsSum(y);
    hide YearLength;
  }

  lemma LeapAsSum(y: nat)
    requires y % 400 == 0 ==> y % 100 == 0
    requires y % 100 == 0 ==> y % 4 == 0
    ensures YearLength(y) == 365 + (if y % 4 == 0 then 1 else 0) - (if y % 100 == 0 then 1 else 0)
                                 + (if y % 400 == 0 then 1 else 0)
  {
  }

  lemma QuotientSteps(y: nat)
    requires y > 0
    ensures y / 4 == (y - 1) / 4 + if y % 4 == 0 then 1 else 0
    ensures y / 100 == (y - 1) / 100 + if y % 100 == 0 then 1 else 0
    ensures y / 400 == (y - 1) / 400 + if y % 400 == 0 then 1 else 0
  {
  }

  lemma CenturiesAreFours(y: nat)
    ensures y % 100 == 0 ==> y % 4 == 0
    ensures y % 400 == 0 ==> y % 100 == 0
  {
    var centuries, cycles := y / 100, y / 400;
    MultiplesDivide(25 * centuries);
    MultiplesDivide(4 * cycles);
    assert y % 100 == 0 ==> y == 4 * (25 * centuries);
    assert y % 400 == 0 ==> y == 100 * (4 * cycles);
  }

  lemma MultiplesDivide(k: nat)
    ensures 4 * k % 4 == 0 && 100 * k % 100 == 0
  {
  }

  lemma {:induction false} MonthsExtend(leap: bool, m: nat, l: nat)
    requires m <= l
    ensures DaysBeforeMonth(leap, m, l + 1) == DaysBeforeMonth(leap, m, l) + MonthLength(leap, l)
    decreases l - m
  {
    if m < l {
      MonthsExtend(leap, m + 1, l);
    } else {
      assert DaysBeforeMonth(leap, l + 1, l + 1) == 0;
    }
  }

  lemma {:induction false} MonthsAreGregorian(leap: bool, m: nat)
    requires 1 <= m <= 12
    ensures DaysBeforeMonth(leap, 1, m) == MONTH_STARTS[m - 1] + if leap && m > 2 then 1 else 0
  {
    if m > 1 {
      MonthsAreGregorian(leap, m - 1);
      MonthsExtend(leap, 1, m - 1);
    }
  }

  /** The written fields are a date and a time of day. */
  lemma FieldsAreDate(t: int)
    requires InRange(t)
    ensures var f := FieldsOf(t);
            && 1 <= f.year <= 9999 && 1 <= f.month <= 12 && 1 <= f.day <= MonthLength(Leap(f.year), f.month)
            && f.hour < 24 && f.minute < 60 && f.second < 60 && f.micro < 1000000
  {
    var (year, dayOfYear) := SplitYear(t / DAY, 1);
    YearHasTwelveMonths(Leap(year), dayOfYear);
  }

  /** The instant of a date and time is its microseconds from the start of year 1. */
  lemma InstantIsGregorian(f: Fields)
    requires f.year > 0 && 1 <= f.month <= 12
    ensures InstantOf(f) ==
            ((((DaysBeforeYear(f.year) + MONTH_STARTS[f.month - 1] + (if Leap(f.year) && f.month > 2 then 1 else 0)
                + f.day - 1) * 24 + f.hour) * 60 + f.minute) * 60 + f.second) * 1000000 + f.micro
  {
    YearsAreGregorian(f.year);
    MonthsAreGregorian(Leap(f.year), f.month);
    hide DaysBetween, DaysBeforeMonth, DaysBeforeYear, Leap;
  }

  // ---- datetimes

  type Instant = t: int | InRange(t) witness 0

  /** An aware datetime: its instant, and the offset it is written at. */
  datatype Datetime = Datetime(instant: Instant, offsetMinutes: int)

  /** `astimezone(UTC)` keeps the instant and forgets the offset. */
  function Text(d: Datetime): string {
    Iso(FieldsOf(d.instant))
  }

  function InstantFromText(s: string): Option<int> {
    match FromIso(s)
    case None => None
    case Some(f) => Some(InstantOf(f))
  }

  /** The text determines the instant. */
  lemma TextRoundTrip(d: Datetime)
    ensures InstantFromText(Text(d)) == Some(d.instant)
  {
    FieldsFit(d.instant);
    IsoRoundTrip(FieldsOf(d.instant));
    FieldsRoundTrip(d.instant);
    hide FieldsOf, FromIso, Iso, InstantOf;
  }
}
