/** The proleptic Gregorian calendar of the traffic accounting: the two closed-form
    conversions between day numbers (0 is 1970-01-01) and civil dates, proved against a
    day count that only knows the lengths of years and months. */
module Calendar {

  datatype Date = Date(y: int, m: int, d: int)

  // ---------- reference definitions ----------

  predicate Leap(y: int) {
    y % 4 == 0 && (y % 100 != 0 || y % 400 == 0)
  }

  function YearLength(y: int): int {
    if Leap(y) then 366 else 365
  }

  function MonthLength(y: int, m: int): int
    requires 1 <= m <= 12
  {
    if m == 2 then (if Leap(y) then 29 else 28)
    else if m == 4 || m == 6 || m == 9 || m == 11 then 30
    else 31
  }

  predicate ValidDate(t: Date) {
    1 <= t.m <= 12 && 1 <= t.d <= MonthLength(t.y, t.m)
  }

  /** Days from 1970-01-01 to the first of January of `y`, one year at a time. */
  function YearStart(y: int): int
    decreases if y < 1970 then 1970 - y else y - 1970
  {
    if y == 1970 then 0
    else if y > 1970 then YearStart(y - 1) + YearLength(y - 1)
    else YearStart(y + 1) - YearLength(y)
  }

  /** Days from the first of January to the first of month `m`, one month at a time. */
  function MonthStart(y: int, m: int): int
    requires 1 <= m <= 12
    decreases m
  {
    if m == 1 then 0 else MonthStart(y, m - 1) + MonthLength(y, m - 1)
  }

  function DayCount(t: Date): int
    requires 1 <= t.m <= 12
  {
    YearStart(t.y) + MonthStart(t.y, t.m) + t.d - 1
  }

  predicate Before(s: Date, t: Date) {
    s.y < t.y || (s.y == t.y && (s.m < t.m || (s.m == t.m && s.d < t.d)))
  }

  // ---------- the closed forms ----------

  /** Day of the era on which its year `n` (counted from March) begins. */
  function EraYear(n: int): int {
    365 * n + n / 4 - n / 100
  }

  function YearOfEra(doe: int): int {
    (doe - doe / 1460 + doe / 36_524 - doe / 146_096) / 365
  }

  function CivilFromDays(days: int): Date {
    var z := days + 719_468;
    var era := z / 146_097;
    var doe := z % 146_097;
    var yoe := YearOfEra(doe);
    var doy := doe - EraYear(yoe);
    var mp := (5 * doy + 2) / 153;
    var d := doy - (153 * mp + 2) / 5 + 1;
    var m := if mp < 10 then mp + 3 else mp - 9;
    Date(yoe + era * 400 + (if m <= 2 then 1 else 0), m, d)
  }

  function DaysFromCivil(year: int, m: int, d: int): int {
    var y := if m <= 2 then year - 1 else year;
    var era := y / 400;
    var yoe := y % 400;
    var mp := if m > 2 then m - 3 else m + 9;
    var doy := (153 * mp + 2) / 5 + d - 1;
    var doe := EraYear(yoe) + doy;
    era * 146_097 + doe - 719_468
  }

  // ---------- days_from_civil is the day count ----------

  /** Days before the first of March of year `y` (years counted from March). */
  function MarchStart(y: int): int {
    365 * y + y / 4 - y / 100 + y / 400 - 719_468
  }

  lemma MarchForm(y: int, m: int, d: int)
    ensures DaysFromCivil(y, m, d)
         == MarchStart(if m <= 2 then y - 1 else y)
            + (153 * (if m > 2 then m - 3 else m + 9) + 2) / 5 + d - 1
  {
    var s := if m <= 2 then y - 1 else y;
    var era, yoe := s / 400, s % 400;
    assert s == 400 * era + yoe;
    assert s / 4 == 100 * era + yoe / 4;
    assert s / 100 == 4 * era + yoe / 100;
  }

  lemma QuotientStep(y: int, k: int)
    requires k == 4 || k == 100 || k == 400
    ensures y / k == (y - 1) / k + (if y % k == 0 then 1 else 0)
  {
    var q, r := y / k, y % k;
    assert y == k * q + r;
    if r == 0 {
      assert y - 1 == k * (q - 1) + (k - 1);
    } else {
      assert y - 1 == k * q + (r - 1);
    }
  }

  lemma MarchStep(y: int)
    ensures MarchStart(y) == MarchStart(y - 1) + YearLength(y)
  {
    QuotientStep(y, 4);
    QuotientStep(y, 100);
    QuotientStep(y, 400);
    DivisorsNest(y);
  }

  lemma MultipleOf(k: int, q: int)
    requires k == 4 || k == 100
    ensures (k * q) % k == 0
  {
  }

  lemma DivisorsNest(y: int)
    ensures y % 400 == 0 ==> y % 100 == 0
    ensures y % 100 == 0 ==> y % 4 == 0
  {
    if y % 400 == 0 {
      MultipleOf(100, 4 * (y / 400));
    }
    if y % 100 == 0 {
      MultipleOf(4, 25 * (y / 100));
    }
  }

  lemma {:induction false} YearStartIsClosed(y: int)
    ensures YearStart(y) == DaysFromCivil(y, 1, 1)
    decreases if y < 1970 then 1970 - y else y - 1970
  {
    MarchForm(y, 1, 1);
    if y > 1970 {
      YearStartIsClosed(y - 1);
      MarchForm(y - 1, 1, 1);
      MarchStep(y - 1);
    } else if y < 1970 {
      YearStartIsClosed(y + 1);
      MarchForm(y + 1, 1, 1);
      MarchStep(y);
    }
  }

  lemma MonthStartTable(y: int, m: int)
    requires 1 <= m <= 12
    ensures MonthStart(y, m)
         == (153 * (if m > 2 then m - 3 else m + 9) + 2) / 5 - (if m <= 2 then 306 else 0)
            + (if m <= 2 then 0 else 59 + (if Leap(y) then 1 else 0))
  {
    if m > 1 {
      MonthStartTable(y, m - 1);
    }
  }

  /** `days_from_civil` counts days, for every year and month and every day number. */
  lemma DaysFromCivilCounts(t: Date)
    requires 1 <= t.m <= 12
    ensures DaysFromCivil(t.y, t.m, t.d) == DayCount(t)
  {
    hide DaysFromCivil, MarchStart, MonthStart;
    YearStartIsClosed(t.y);
    MonthStartTable(t.y, t.m);
    MarchForm(t.y, t.m, t.d);
    MarchForm(t.y, 1, 1);
    MarchStep(t.y);
  }

  // ---------- civil_from_days inverts it ----------

  /** A day of the era as century, four-year cycle, year and day of year. */
  lemma EraDigits(doe: int) returns (c: int, f: int, k: int, e: int)
    requires 0 <= doe < 146_097
    ensures 0 <= c < 4 && 0 <= f < 25 && 0 <= k < 4 && 0 <= e <= 365
    ensures doe == 36_524 * c + 1461 * f + 365 * k + e
    ensures e == 365 ==> k == 3 && (f < 24 || c == 3)
  {
    c := if doe == 146_096 then 3 else doe / 36_524;
    var r := doe - 36_524 * c;
    f := if r == 36_524 then 24 else r / 1461;
    var t := r - 1461 * f;
    k := if t == 1460 then 3 else t / 365;
    e := t - 365 * k;
  }

  lemma YearOfEraDigits(doe: int, c: int, f: int, k: int, e: int)
    requires 0 <= doe < 146_097
    requires 0 <= c < 4 && 0 <= f < 25 && 0 <= k < 4 && 0 <= e <= 365
    requires doe == 36_524 * c + 1461 * f + 365 * k + e
    requires e == 365 ==> k == 3 && (f < 24 || c == 3)
    ensures YearOfEra(doe) == 100 * c + 4 * f + k
    ensures EraYear(100 * c + 4 * f + k) == doe - e
  {
    var w := 24 * c + f + 365 * k + e;
    assert doe == 1460 * (25 * c + f) + w;
    assert doe / 1460 == 25 * c + f + (if w >= 1460 then 1 else 0);
    assert doe / 36_524 == if doe == 146_096 then 4 else c;
    var n := 100 * c + 4 * f + k;
    assert n / 4 == 25 * c + f && n / 100 == c;
  }

  /** Month and day of month of a day of the year counted from March; only the last day
      of a 366-day year is the 29th of February. */
  lemma MonthOfDay(doy: int)
    requires 0 <= doy <= 365
    ensures var mp := (5 * doy + 2) / 153;
            var d := doy - (153 * mp + 2) / 5 + 1;
            var m := if mp < 10 then mp + 3 else mp - 9;
            && 0 <= mp <= 11 && 1 <= m <= 12 && mp == (if m > 2 then m - 3 else m + 9)
            && 1 <= d <= (if m == 2 then 29 else MonthLength(0, m))
            && (m == 2 && d == 29 <==> doy == 365)
  {
  }

  lemma CivilParts(z: int) returns (era: int, n: int, e: int)
    ensures 0 <= n < 400 && 0 <= e <= 365
    ensures z == 146_097 * era + EraYear(n) + e - 719_468
    ensures e == 365 ==> Leap(400 * era + n + 1)
    ensures var mp := (5 * e + 2) / 153;
            var m := if mp < 10 then mp + 3 else mp - 9;
            CivilFromDays(z) == Date(n + era * 400 + (if m <= 2 then 1 else 0), m,
                                     e - (153 * mp + 2) / 5 + 1)
  {
    hide YearOfEra, EraYear, Leap;
    var s := z + 719_468;
    era := s / 146_097;
    var doe := s % 146_097;
    var c, f, k;
    c, f, k, e := EraDigits(doe);
    YearOfEraDigits(doe, c, f, k, e);
    n := 100 * c + 4 * f + k;
    assert s == 146_097 * era + doe;
    LeapAfter(era, c, f, k);
  }

  /** Every day number has a valid date and is recovered from it. */
  lemma DaysRoundTrip(z: int)
    ensures var t := CivilFromDays(z);
            ValidDate(t) && DaysFromCivil(t.y, t.m, t.d) == z
  {
    hide CivilFromDays, EraYear;
    var era, n, e := CivilParts(z);
    MonthOfDay(e);
    EraSplit(era, n);
  }

  lemma DayShift(y: int, m: int, d: int)
    ensures DaysFromCivil(y, m, d) == DaysFromCivil(y, m, 1) + d - 1
  {
  }

  lemma EraSplit(era: int, n: int)
    requires 0 <= n < 400
    ensures (400 * era + n) / 400 == era && (400 * era + n) % 400 == n
  {
  }

  /** The year that ends with the era's year `100c + 4f + k` is leap exactly when that
      year has 366 days. */
  lemma LeapAfter(era: int, c: int, f: int, k: int)
    requires 0 <= c < 4 && 0 <= f < 25 && 0 <= k < 4
    ensures Leap(400 * era + 100 * c + 4 * f + k + 1) <==> k == 3 && (f < 24 || c == 3)
  {
    var y := 400 * era + 100 * c + 4 * f + k + 1;
    assert y % 4 == (k + 1) % 4;
    if k == 3 {
      assert y == 100 * (4 * era + c) + 4 * (f + 1);
      assert y % 100 == 4 * (f + 1) % 100;
      if f == 24 {
        assert y == 400 * era + 100 * (c + 1);
      }
    }
  }

  lemma DaysMonotone(s: Date, t: Date)
    requires ValidDate(s) && ValidDate(t)
    ensures Before(s, t) ==> DaysFromCivil(s.y, s.m, s.d) < DaysFromCivil(t.y, t.m, t.d)
  {
    hide DaysFromCivil;
    DaysFromCivilCounts(s);
    DaysFromCivilCounts(t);
    if s.y < t.y {
      YearStartGrows(s.y, t.y);
      MonthStartGrows(s.y, s.m, 12);
      MonthStartGrows(t.y, 1, t.m);
      MonthStartTable(s.y, 12);
    } else if s.y == t.y && s.m < t.m {
      MonthStartGrows(s.y, s.m, t.m);
    }
  }

  lemma {:induction false} YearStartGrows(a: int, b: int)
    requires a < b
    ensures YearStart(a) + YearLength(a) <= YearStart(b)
    decreases b - a
  {
    if a + 1 < b {
      YearStartGrows(a, b - 1);
    }
  }

  lemma {:induction false} MonthStartGrows(y: int, a: int, b: int)
    requires 1 <= a <= b <= 12
    ensures MonthStart(y, a) + (if a < b then MonthLength(y, a) else 0) <= MonthStart(y, b)
    decreases b - a
  {
    if a + 1 < b {
      MonthStartGrows(y, a, b - 1);
    }
  }

  /** Every valid date is recovered from its day number. */
  lemma DateRoundTrip(t: Date)
    requires ValidDate(t)
    ensures CivilFromDays(DaysFromCivil(t.y, t.m, t.d)) == t
  {
    hide DaysFromCivil, CivilFromDays;
    var s := CivilFromDays(DaysFromCivil(t.y, t.m, t.d));
    DaysRoundTrip(DaysFromCivil(t.y, t.m, t.d));
    DaysMonotone(s, t);
    DaysMonotone(t, s);
    assert s == t || Before(s, t) || Before(t, s);
  }

  /** The conversions preserve order, both ways. */
  lemma OrderPreserved(a: int, b: int)
    ensures a < b <==> Before(CivilFromDays(a), CivilFromDays(b))
  {
    hide DaysFromCivil, CivilFromDays;
    DaysRoundTrip(a);
    DaysRoundTrip(b);
    var s, t := CivilFromDays(a), CivilFromDays(b);
    DaysMonotone(s, t);
    DaysMonotone(t, s);
    assert s == t || Before(s, t) || Before(t, s);
  }
}
