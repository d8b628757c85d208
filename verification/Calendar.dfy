/** The proleptic Gregorian calendar: dates as day numbers, and back. */
module Calendar {
  datatype Date = Date(year: int, month: int, day: int)

  predicate IsLeap(y: int) {
    y % 4 == 0 && (y % 100 != 0 || y % 400 == 0)
  }

  function YearLength(y: int): nat {
    if IsLeap(y) then 366 else 365
  }

  function MonthLength(y: int, m: int): nat {
    if m == 2 then (if IsLeap(y) then 29 else 28)
    else if m == 4 || m == 6 || m == 9 || m == 11 then 30
    else 31
  }

  /** The date is in the calendar. */
  predicate IsDate(d: Date) {
    1 <= d.month <= 12 && 1 <= d.day <= MonthLength(d.year, d.month)
  }

  /** The date of the following day, by the rules of the calendar. */
  function Next(d: Date): Date {
    if d.day < MonthLength(d.year, d.month) then d.(day := d.day + 1)
    else if d.month < 12 then Date(d.year, d.month + 1, 1)
    else Date(d.year + 1, 1, 1)
  }

  // ---------- Days to the first of January ----------

  // Days from the first of January of the year 1.
  function DaysBeforeYear(y: int): int {
    365 * (y - 1) + (y - 1) / 4 - (y - 1) / 100 + (y - 1) / 400
  }

  lemma YearStep(y: int)
    ensures DaysBeforeYear(y + 1) == DaysBeforeYear(y) + YearLength(y)
  {
    hide IsLeap;
    Quotient4(y - 1);
    Quotient100(y - 1);
    Quotient400(y - 1);
    LeapParts(y);
  }

  function One(b: bool): nat { if b then 1 else 0 }

  lemma LeapParts(y: int)
    ensures One(IsLeap(y)) == One(y % 4 == 0) - One(y % 100 == 0) + One(y % 400 == 0)
  {
    Multiple400(y);
    Multiple100(y);
  }

  lemma Multiple400(y: int)
    ensures y % 400 == 0 ==> y % 100 == 0
  {
    if y % 400 == 0 { assert y == 100 * (4 * (y / 400)); }
  }

  lemma Multiple100(y: int)
    ensures y % 100 == 0 ==> y % 4 == 0
  {
    if y % 100 == 0 { assert y == 4 * (25 * (y / 100)); }
  }

  lemma Quotient4(n: int)
    ensures (n + 1) / 4 == n / 4 + One((n + 1) % 4 == 0)
  {
  }

  lemma Quotient100(n: int)
    ensures (n + 1) / 100 == n / 100 + One((n + 1) % 100 == 0)
  {
  }

  lemma Quotient400(n: int)
    ensures (n + 1) / 400 == n / 400 + One((n + 1) % 400 == 0)
  {
  }

  lemma {:induction false} YearsIncrease(y: int, z: int)
    requires y < z
    ensures DaysBeforeYear(y + 1) <= DaysBeforeYear(z)
    decreases z - y
  {
    if y + 1 < z {
      YearsIncrease(y + 1, z);
      YearStep(y + 1);
    }
  }

  /** The year that day n of the era falls in, by whole cycles of 400, 100, 4 and 1 years. */
  function YearOf(n: int): int {
    var r400 := n % 146097;
    var c100 := if r400 / 36524 < 3 then r400 / 36524 else 3;
    var r100 := r400 - 36524 * c100;
    var r4 := r100 % 1461;
    var c1 := if r4 / 365 < 3 then r4 / 365 else 3;
    400 * (n / 146097) + 100 * c100 + 4 * (r100 / 1461) + c1 + 1
  }

  lemma CycleYears(c400: int, c100: int, c4: int, c1: int)
    requires 0 <= c100 <= 3 && 0 <= c4 <= 24 && 0 <= c1 <= 3
    ensures var y := 400 * c400 + 100 * c100 + 4 * c4 + c1 + 1;
            && DaysBeforeYear(y) == 146097 * c400 + 36524 * c100 + 1461 * c4 + 365 * c1
            && (IsLeap(y) <==> c1 == 3 && (c4 < 24 || c100 == 3))
  {
    var n := 400 * c400 + 100 * c100 + 4 * c4 + c1;
    assert n / 400 == c400;
    assert n / 100 == 4 * c400 + c100;
    assert n / 4 == 100 * c400 + 25 * c100 + c4;
    LeapInCycle(c400, c100, c4, c1);
  }

  lemma LeapInCycle(c400: int, c100: int, c4: int, c1: int)
    requires 0 <= c100 <= 3 && 0 <= c4 <= 24 && 0 <= c1 <= 3
    ensures IsLeap(400 * c400 + 100 * c100 + 4 * c4 + c1 + 1) <==> c1 == 3 && (c4 < 24 || c100 == 3)
  {
    var y := 400 * c400 + 100 * c100 + 4 * c4 + c1 + 1;
    var in4, in100, in400 := c1 + 1, 4 * c4 + c1 + 1, 100 * c100 + 4 * c4 + c1 + 1;
    LastOf4(100 * c400 + 25 * c100 + c4, in4);
    LastOf100(4 * c400 + c100, in100);
    LastOf400(c400, in400);
    assert in100 == 100 <==> c4 == 24 && c1 == 3;
    assert in400 == 400 <==> c100 == 3 && c4 == 24 && c1 == 3;
  }

  lemma LastOf4(k: int, i: int)
    requires 1 <= i <= 4
    ensures (4 * k + i) % 4 == 0 <==> i == 4
  {
  }

  lemma LastOf100(k: int, i: int)
    requires 1 <= i <= 100
    ensures (100 * k + i) % 100 == 0 <==> i == 100
  {
  }

  lemma LastOf400(k: int, i: int)
    requires 1 <= i <= 400
    ensures (400 * k + i) % 400 == 0 <==> i == 400
  {
  }

  lemma YearOfFacts(n: int)
    ensures DaysBeforeYear(YearOf(n)) <= n < DaysBeforeYear(YearOf(n) + 1)
  {
    hide DaysBeforeYear, IsLeap;
    var c400, r400 := n / 146097, n % 146097;
    var c100 := if r400 / 36524 < 3 then r400 / 36524 else 3;
    var r100 := r400 - 36524 * c100;
    assert 0 <= r100 <= 36524 && (c100 < 3 ==> r100 < 36524);
    var c4, r4 := r100 / 1461, r100 % 1461;
    var c1 := if r4 / 365 < 3 then r4 / 365 else 3;
    var r1 := r4 - 365 * c1;
    assert 0 <= r1 <= 365 && (c1 < 3 ==> r1 < 365);
    CycleYears(c400, c100, c4, c1);
    YearStep(YearOf(n));
  }

  lemma YearOfUnique(n: int, y: int)
    requires DaysBeforeYear(y) <= n < DaysBeforeYear(y + 1)
    ensures YearOf(n) == y
  {
    YearOfFacts(n);
    var z := YearOf(n);
    if y < z { YearsIncrease(y, z); } else if z < y { YearsIncrease(z, y); }
  }

  // ---------- Days within the year ----------

  function DaysBeforeMonth(y: int, m: int): nat {
    if m <= 1 then 0 else DaysBeforeMonth(y, m - 1) + MonthLength(y, m - 1)
  }

  lemma YearSum(y: int)
    ensures DaysBeforeMonth(y, 12) + MonthLength(y, 12) == YearLength(y)
  {
    assert DaysBeforeMonth(y, 1) == 0 && DaysBeforeMonth(y, 2) == 31;
    assert DaysBeforeMonth(y, 3) == 59 + (if IsLeap(y) then 1 else 0);
    assert DaysBeforeMonth(y, 5) == 120 + (if IsLeap(y) then 1 else 0);
    assert DaysBeforeMonth(y, 7) == 181 + (if IsLeap(y) then 1 else 0);
    assert DaysBeforeMonth(y, 9) == 243 + (if IsLeap(y) then 1 else 0);
    assert DaysBeforeMonth(y, 11) == 304 + (if IsLeap(y) then 1 else 0);
  }

  lemma {:induction false} MonthsIncrease(y: int, m: int, k: int)
    requires 1 <= m < k
    ensures DaysBeforeMonth(y, m) + MonthLength(y, m) <= DaysBeforeMonth(y, k)
    decreases k
  {
    if m < k - 1 { MonthsIncrease(y, m, k - 1); }
  }

  // The date of day r after the first of month m, going on to later months as needed.
  function MonthDay(y: int, m: int, r: int): Date
    decreases 12 - m
  {
    if m >= 12 || r < MonthLength(y, m) then Date(y, m, r + 1) else MonthDay(y, m + 1, r - MonthLength(y, m))
  }

  lemma {:induction false} MonthDayFacts(y: int, m: int, r: int)
    requires 1 <= m <= 12 && 0 <= r && DaysBeforeMonth(y, m) + r < YearLength(y)
    ensures var d := MonthDay(y, m, r);
            IsDate(d) && d.year == y && DaysBeforeMonth(y, d.month) + d.day - 1 == DaysBeforeMonth(y, m) + r
    decreases 12 - m
  {
    YearSum(y);
    if m < 12 && r >= MonthLength(y, m) { MonthDayFacts(y, m + 1, r - MonthLength(y, m)); }
  }

  lemma OkWithinYear(d: Date)
    requires IsDate(d)
    ensures 0 <= DaysBeforeMonth(d.year, d.month) + d.day - 1 < YearLength(d.year)
  {
    YearSum(d.year);
    if d.month < 12 { MonthsIncrease(d.year, d.month, 12); }
  }

  // ---------- Day numbers ----------

  // Days from the first of January of the year 1 to the first of January 1970.
  const UNIX_EPOCH: int := 719162

  /** std::chrono::sys_days of a date: days since the first of January 1970. */
  function ToDays(d: Date): int {
    DaysBeforeYear(d.year) + DaysBeforeMonth(d.year, d.month) + d.day - 1 - UNIX_EPOCH
  }

  /** std::chrono::year_month_day of a day number. */
  function FromDays(n: int): Date {
    var y := YearOf(n + UNIX_EPOCH);
    MonthDay(y, 1, n + UNIX_EPOCH - DaysBeforeYear(y))
  }

  lemma EpochIsZero()
    ensures ToDays(Date(1970, 1, 1)) == 0
  {
  }

  /** Day numbers count the days of the calendar one by one. */
  lemma NextIsPlusOne(d: Date)
    requires IsDate(d)
    ensures IsDate(Next(d)) && ToDays(Next(d)) == ToDays(d) + 1
  {
    YearStep(d.year);
    YearSum(d.year);
  }

  /** Every day number is that of a date of the calendar. */
  lemma ToFrom(n: int)
    ensures IsDate(FromDays(n)) && ToDays(FromDays(n)) == n
  {
    var y := YearOf(n + UNIX_EPOCH);
    YearOfFacts(n + UNIX_EPOCH);
    YearStep(y);
    MonthDayFacts(y, 1, n + UNIX_EPOCH - DaysBeforeYear(y));
  }

  /** A date of the calendar is found again from its day number. */
  lemma FromTo(d: Date)
    requires IsDate(d)
    ensures FromDays(ToDays(d)) == d
  {
    OkWithinYear(d);
    YearStep(d.year);
    YearOfUnique(ToDays(d) + UNIX_EPOCH, d.year);
    ToFrom(ToDays(d));
    var e := FromDays(ToDays(d));
    SameDay(d, e);
  }

  lemma SameDay(d: Date, e: Date)
    requires IsDate(d) && IsDate(e) && ToDays(d) == ToDays(e)
    ensures d == e
  {
    hide DaysBeforeYear, DaysBeforeMonth, YearOf, MonthLength, YearLength;
    OkWithinYear(d);
    OkWithinYear(e);
    YearStep(d.year);
    YearStep(e.year);
    YearOfUnique(ToDays(d) + UNIX_EPOCH, d.year);
    YearOfUnique(ToDays(e) + UNIX_EPOCH, e.year);
    if d.month < e.month {
      MonthsIncrease(d.year, d.month, e.month);
    } else if e.month < d.month {
      MonthsIncrease(d.year, e.month, d.month);
    }
  }

  // ---------- The calendar by its day numbers alone ----------

  lemma MonthStart(y: int, m: int)
    requires 1 <= m <= 12
    ensures DaysBeforeMonth(y, m)
            == if m == 1 then 0 else if m == 2 then 31 else 59 + (if IsLeap(y) then 1 else 0) + (153 * (m - 3) + 2) / 5
  {
    if m > 1 { MonthStart(y, m - 1); }
  }

  /**
   * How far the first days of the months are apart: from March on as the well-known formula says, with the lengths of
   * January, February and December beside it.
   */
  lemma MonthGaps(y: int, m: int)
    ensures 3 <= m <= 12 ==> ToDays(Date(y, m, 1)) - ToDays(Date(y, 3, 1)) == (153 * (m - 3) + 2) / 5
    ensures ToDays(Date(y, 2, 1)) - ToDays(Date(y, 1, 1)) == 31
    ensures ToDays(Date(y, 3, 1)) - ToDays(Date(y, 2, 1)) == if (y % 4 == 0 && y % 100 != 0) || y % 400 == 0 then 29 else 28
    ensures ToDays(Date(y + 1, 1, 1)) - ToDays(Date(y, 12, 1)) == 31
  {
    if 3 <= m <= 12 { MonthStart(y, m); }
    MonthStart(y, 1);
    MonthStart(y, 2);
    MonthStart(y, 3);
    MonthStart(y, 12);
    MonthStart(y + 1, 1);
    YearStep(y);
    Multiple400(y);
    Multiple100(y);
  }

  /** A date is in the calendar exactly if its day comes before the first day of the following month. */
  lemma DateIff(d: Date)
    ensures IsDate(d) <==>
            && 1 <= d.month <= 12 && 1 <= d.day
            && ToDays(Date(d.year, d.month, 1)) + d.day - 1
               < ToDays(if d.month < 12 then Date(d.year, d.month + 1, 1) else Date(d.year + 1, 1, 1))
  {
    if 1 <= d.month <= 12 {
      YearStep(d.year);
      YearSum(d.year);
    }
  }

  /** The lengths of the months, by the parity of their numbers. */
  lemma DaysOfMonths(d: Date)
    ensures IsDate(d) <==>
            && 1 <= d.month <= 12 && 1 <= d.day
            && d.day <= if d.month == 2 then (if (d.year % 4 == 0 && d.year % 100 != 0) || d.year % 400 == 0 then 29 else 28)
                        else 30 + (d.month + d.month / 8) % 2
  {
    Multiple400(d.year);
    Multiple100(d.year);
  }

  // Years that begin in March, so that the leap day is the last day.
  function MarchYear(d: Date): int {
    if d.month <= 2 then d.year - 1 else d.year
  }

  /** The day number of any date, in closed form. */
  lemma CivilDays(d: Date)
    requires 1 <= d.month <= 12
    ensures var y := MarchYear(d);
            ToDays(d) == 365 * y + y / 4 - y / 100 + y / 400 + (153 * ((d.month + 9) % 12) + 2) / 5 + d.day - 719469
  {
    hide YearLength, IsLeap;
    var y := d.year;
    MonthStart(y, d.month);
    if d.month <= 2 {
      assert (d.month + 9) % 12 == d.month + 9;
    } else {
      assert (d.month + 9) % 12 == d.month - 3;
      Quotient4(y - 1);
      Quotient100(y - 1);
      Quotient400(y - 1);
      LeapParts(y);
    }
  }
}
