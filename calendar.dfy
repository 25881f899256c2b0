/** The Gregorian calendar that JavaScript's `Date` implements, as far as counting the
    weekdays of a month needs it: leap years, the length of each month and the weekday
    (0 = Sunday .. 6 = Saturday, as `Date.prototype.getDay` numbers them) of every day. */
module Calendar {

  const FRIDAY := 5

  predicate IsLeap(y: int) {
    (y % 4 == 0 && y % 100 != 0) || y % 400 == 0
  }

  function DaysInMonth(y: int, m: int): (n: int)
    requires 1 <= m <= 12
    ensures 28 <= n <= 31
    ensures m == 2 ==> (n == 29 <==> IsLeap(y))
  {
    if m == 2 then (if IsLeap(y) then 29 else 28)
    else if m == 4 || m == 6 || m == 9 || m == 11 then 30
    else 31
  }

  /** Days in the years 1 .. y-1 of the proleptic Gregorian calendar. */
  function DaysBeforeYear(y: int): int {
    365 * (y - 1) + (y - 1) / 4 - (y - 1) / 100 + (y - 1) / 400
  }

  /** Days in the months 1 .. m-1 of year y. */
  function DaysBeforeMonth(y: int, m: int): int
    requires 1 <= m <= 12
  {
    [0, 31, 59, 90, 120, 151, 181, 212, 243, 273, 304, 334][m - 1]
      + (if m > 2 && IsLeap(y) then 1 else 0)
  }

  /** Day d of month m of year y, counted from 1 January of year 1 (a Monday) as day 0. */
  function DayNumber(y: int, m: int, d: int): int
    requires 1 <= m <= 12
  {
    DaysBeforeYear(y) + DaysBeforeMonth(y, m) + d - 1
  }

  function Weekday(y: int, m: int, d: int): (w: int)
    requires 1 <= m <= 12
    ensures 0 <= w < 7
  {
    (DayNumber(y, m, d) + 1) % 7
  }

  /** The number of Fridays among days 1 .. n of month m of year y. */
  function FridaysUpTo(y: int, m: int, n: nat): nat
    requires 1 <= m <= 12
  {
    if n == 0 then 0 else FridaysUpTo(y, m, n - 1) + (if Weekday(y, m, n) == FRIDAY then 1 else 0)
  }

  /** The number of Fridays in month m of year y: the days 1 .. DaysInMonth(y, m) whose
      weekday is 5. */
  function FridaysInMonth(y: int, m: int): nat
    requires 1 <= m <= 12
  {
    FridaysUpTo(y, m, DaysInMonth(y, m))
  }

  // ---------------------------------------------------------------------------------
  // Counting by weekday offset: the facts about Fridays hold for any month that starts
  // on weekday w, so they are proved once over w.

  /** 1 when day d of a month starting on weekday w is a Friday. */
  function Hit(w: int, d: int): nat {
    if (w + d - 1) % 7 == FRIDAY then 1 else 0
  }

  /** The number of Fridays among days 1 .. n of a month whose first day has weekday w. */
  function CountFrom(w: int, n: nat): nat {
    if n == 0 then 0 else CountFrom(w, n - 1) + Hit(w, n)
  }

  lemma ModSevenAdd(a: int, b: int)
    ensures (a + b) % 7 == (a % 7 + b) % 7
  {
    var q := a / 7;
    assert a == 7 * q + a % 7;
    assert a + b == 7 * q + (a % 7 + b);
  }

  /** Each day's weekday follows from the weekday of the first of the month. */
  lemma WeekdayShift(y: int, m: int, d: int)
    requires 1 <= m <= 12
    ensures Weekday(y, m, d) == (Weekday(y, m, 1) + d - 1) % 7
  {
    ModSevenAdd(DaysBeforeYear(y) + DaysBeforeMonth(y, m) + 1, d - 1);
  }

  lemma {:induction false} FridaysUpToIsCount(y: int, m: int, n: nat)
    requires 1 <= m <= 12
    ensures FridaysUpTo(y, m, n) == CountFrom(Weekday(y, m, 1), n)
  {
    if n > 0 {
      FridaysUpToIsCount(y, m, n - 1);
      WeekdayShift(y, m, n);
    }
  }

  /** Any seven consecutive days hold exactly one Friday. */
  lemma {:induction false} OneFridayPerWeek(w: int, n: nat)
    ensures CountFrom(w, n + 7) == CountFrom(w, n) + 1
  {
    SevenDays(w, n);
    var x := (w + n) % 7;
    HitFromResidue(w, n, 0);
    HitFromResidue(w, n, 1);
    HitFromResidue(w, n, 2);
    HitFromResidue(w, n, 3);
    HitFromResidue(w, n, 4);
    HitFromResidue(w, n, 5);
    HitFromResidue(w, n, 6);
    ResidueWeek(x);
  }

  /** The count over seven more days, day by day. */
  lemma SevenDays(w: int, n: nat)
    ensures CountFrom(w, n + 7) ==
      CountFrom(w, n) + Hit(w, n + 1) + Hit(w, n + 2) + Hit(w, n + 3) + Hit(w, n + 4) +
      Hit(w, n + 5) + Hit(w, n + 6) + Hit(w, n + 7)
  {
    assert CountFrom(w, n + 7) == CountFrom(w, n + 6) + Hit(w, n + 7);
    assert CountFrom(w, n + 6) == CountFrom(w, n + 5) + Hit(w, n + 6);
    assert CountFrom(w, n + 5) == CountFrom(w, n + 4) + Hit(w, n + 5);
    assert CountFrom(w, n + 4) == CountFrom(w, n + 3) + Hit(w, n + 4);
    assert CountFrom(w, n + 3) == CountFrom(w, n + 2) + Hit(w, n + 3);
    assert CountFrom(w, n + 2) == CountFrom(w, n + 1) + Hit(w, n + 2);
  }

  /** Whether day n + 1 + j is a Friday depends only on the weekday residue of w + n. */
  lemma HitFromResidue(w: int, n: nat, j: nat)
    ensures Hit(w, n + 1 + j) == if ((w + n) % 7 + j) % 7 == FRIDAY then 1 else 0
  {
    ModSevenAdd(w + n, j);
  }

  /** Seven consecutive residues hit Friday once. */
  lemma ResidueWeek(x: int)
    requires 0 <= x < 7
    ensures (if (x + 0) % 7 == FRIDAY then 1 else 0) + (if (x + 1) % 7 == FRIDAY then 1 else 0) +
            (if (x + 2) % 7 == FRIDAY then 1 else 0) + (if (x + 3) % 7 == FRIDAY then 1 else 0) +
            (if (x + 4) % 7 == FRIDAY then 1 else 0) + (if (x + 5) % 7 == FRIDAY then 1 else 0) +
            (if (x + 6) % 7 == FRIDAY then 1 else 0) == 1
  {
  }

  lemma {:induction false} CountFromMonotone(w: int, n: nat, k: nat)
    requires n <= k
    ensures CountFrom(w, n) <= CountFrom(w, k)
    decreases k - n
  {
    if n < k {
      CountFromMonotone(w, n, k - 1);
    }
  }

  /** Four whole weeks and up to three more days hold four or five Fridays. */
  lemma CountFromMonthLength(w: int, n: nat)
    requires 28 <= n <= 31
    ensures 4 <= CountFrom(w, n) <= 5
  {
    OneFridayPerWeek(w, 0);
    OneFridayPerWeek(w, 7);
    OneFridayPerWeek(w, 14);
    OneFridayPerWeek(w, 21);
    OneFridayPerWeek(w, 28);
    CountFromMonotone(w, 28, n);
    CountFromMonotone(w, n, 35);
  }

  /** Every month has four or five Fridays. */
  lemma FridaysInMonthBounds(y: int, m: int)
    requires 1 <= m <= 12
    ensures 4 <= FridaysInMonth(y, m) <= 5
  {
    FridaysUpToIsCount(y, m, DaysInMonth(y, m));
    CountFromMonthLength(Weekday(y, m, 1), DaysInMonth(y, m));
  }

  /** The number of Fridays of a month whose first day is weekday w and that has n days,
      from the count over its first n - 28 days. */
  lemma CountFromByWeeks(w: int, n: nat)
    requires 28 <= n
    ensures CountFrom(w, n) == CountFrom(w, n - 28) + 4
  {
    OneFridayPerWeek(w, n - 28);
    OneFridayPerWeek(w, n - 21);
    OneFridayPerWeek(w, n - 14);
    OneFridayPerWeek(w, n - 7);
  }

  /** A month's Fridays from the weekday of its first day. */
  lemma {:induction false} FridaysFromFirstWeekday(y: int, m: int)
    requires 1 <= m <= 12
    ensures FridaysInMonth(y, m) == CountFrom(Weekday(y, m, 1), DaysInMonth(y, m) - 28) + 4
  {
    FridaysUpToIsCount(y, m, DaysInMonth(y, m));
    CountFromByWeeks(Weekday(y, m, 1), DaysInMonth(y, m));
  }


  /** The first three days of a month that starts on weekday w. */
  lemma CountFromFirstDays(w: int)
    requires 0 <= w < 7
    ensures CountFrom(w, 1) == (if w == 5 then 1 else 0)
    ensures CountFrom(w, 2) == (if w == 5 || w == 4 then 1 else 0)
    ensures CountFrom(w, 3) == (if 3 <= w <= 5 then 1 else 0)
  {
    assert CountFrom(w, 1) == Hit(w, 1);
    assert CountFrom(w, 2) == Hit(w, 1) + Hit(w, 2);
  }

  lemma MonthFridays(y: int, m: int, w: int)
    requires 1 <= m <= 12 && Weekday(y, m, 1) == w
    ensures FridaysInMonth(y, m) == CountFrom(w, DaysInMonth(y, m) - 28) + 4
  {
    FridaysFromFirstWeekday(y, m);
  }

  lemma FridaysOct2025()
    ensures FridaysInMonth(2025, 10) == 5
  {
    CountFromFirstDays(3);
    MonthFridays(2025, 10, 3);
  }

  lemma FridaysNov2025()
    ensures FridaysInMonth(2025, 11) == 4
  {
    CountFromFirstDays(6);
    MonthFridays(2025, 11, 6);
  }

  lemma FridaysDec2025()
    ensures FridaysInMonth(2025, 12) == 4
  {
    CountFromFirstDays(1);
    MonthFridays(2025, 12, 1);
  }

  lemma FridaysJan2026()
    ensures FridaysInMonth(2026, 1) == 5
  {
    CountFromFirstDays(4);
    MonthFridays(2026, 1, 4);
  }

  lemma FridaysFeb2026()
    ensures FridaysInMonth(2026, 2) == 4
  {
    CountFromFirstDays(0);
    MonthFridays(2026, 2, 0);
  }

  lemma FridaysMar2026()
    ensures FridaysInMonth(2026, 3) == 4
  {
    CountFromFirstDays(0);
    MonthFridays(2026, 3, 0);
  }

  lemma FridaysApr2026()
    ensures FridaysInMonth(2026, 4) == 4
  {
    CountFromFirstDays(3);
    MonthFridays(2026, 4, 3);
  }

  lemma FridaysMay2026()
    ensures FridaysInMonth(2026, 5) == 5
  {
    CountFromFirstDays(5);
    MonthFridays(2026, 5, 5);
  }

  lemma FridaysJun2026()
    ensures FridaysInMonth(2026, 6) == 4
  {
    CountFromFirstDays(1);
    MonthFridays(2026, 6, 1);
  }

  lemma FridaysJul2026()
    ensures FridaysInMonth(2026, 7) == 5
  {
    CountFromFirstDays(3);
    MonthFridays(2026, 7, 3);
  }

  lemma FridaysAug2026()
    ensures FridaysInMonth(2026, 8) == 4
  {
    CountFromFirstDays(6);
    MonthFridays(2026, 8, 6);
  }

  lemma FridaysSep2026()
    ensures FridaysInMonth(2026, 9) == 4
  {
    CountFromFirstDays(2);
    MonthFridays(2026, 9, 2);
  }

  lemma ServiceYearFridays()
    ensures FridaysInMonth(2025, 10) == 5 && FridaysInMonth(2025, 11) == 4
    ensures FridaysInMonth(2025, 12) == 4 && FridaysInMonth(2026, 1) == 5
    ensures FridaysInMonth(2026, 2) == 4 && FridaysInMonth(2026, 3) == 4
    ensures FridaysInMonth(2026, 4) == 4 && FridaysInMonth(2026, 5) == 5
    ensures FridaysInMonth(2026, 6) == 4 && FridaysInMonth(2026, 7) == 5
    ensures FridaysInMonth(2026, 8) == 4 && FridaysInMonth(2026, 9) == 4
  {
    FridaysOct2025();
    FridaysNov2025();
    FridaysDec2025();
    FridaysJan2026();
    FridaysFeb2026();
    FridaysMar2026();
    FridaysApr2026();
    FridaysMay2026();
    FridaysJun2026();
    FridaysJul2026();
    FridaysAug2026();
    FridaysSep2026();
  }
}
