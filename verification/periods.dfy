/** Calendar dates as the dashboard uses them: ISO `yyyy-mm-dd` strings that
    are parsed as UTC dates. The empty string (no period chosen) is `Blank`. */
module Periods {
  import opened Wrappers


  datatype Date = Date(year: int, month: int, day: int)

  /** A period string: `""` or a parsed ISO date. */
  datatype Period = Blank | On(date: Date)

  predicate IsLeap(y: int) {
    (y % 4 == 0 && y % 100 != 0) || y % 400 == 0
  }

  function DaysInMonth(y: int, m: int): (n: int)
    requires 1 <= m <= 12
    ensures 28 <= n <= 31
  {
    if m == 2 then (if IsLeap(y) then 29 else 28)
    else if m == 4 || m == 6 || m == 9 || m == 11 then 30
    else 31
  }

  predicate Valid(d: Date) {
    1 <= d.month <= 12 && 1 <= d.day <= DaysInMonth(d.year, d.month)
  }

  predicate ValidPeriod(p: Period) {
    p.On? ==> Valid(p.date)
  }

  /** Months counted from year 0, so that month arithmetic is linear. */
  function MonthIndex(d: Date): int {
    d.year * 12 + (d.month - 1)
  }

  /** The first day of the month with the given linear index. */
  function MonthStartOf(k: int): (d: Date)
    ensures Valid(d) && d.day == 1 && MonthIndex(d) == k
  {
    Date(k / 12, k % 12 + 1, 1)
  }

  /** JavaScript's day overflow: a day-of-month past the end of its month
      rolls into the next month (31 April becomes 1 May). Days up to 31 need
      at most one roll. */
  function Roll(d: Date): (r: Date)
    requires 1 <= d.month <= 12 && 1 <= d.day <= 31
    ensures Valid(r)
    ensures d.day <= DaysInMonth(d.year, d.month) ==> r == d
    ensures d.day > DaysInMonth(d.year, d.month) ==>
              MonthIndex(r) == MonthIndex(d) + 1 && r.day == d.day - DaysInMonth(d.year, d.month)
  {
    var n := DaysInMonth(d.year, d.month);
    if d.day <= n then d
    else if d.month == 12 then Date(d.year + 1, 1, d.day - n)
    else Date(d.year, d.month + 1, d.day - n)
  }

  /** `toMonthStart`: the first day of the period's month; `""` stays `""`. */
  function ToMonthStart(p: Period): (r: Period)
    ensures p.Blank? <==> r.Blank?
    ensures p.On? ==> r.date.year == p.date.year && r.date.month == p.date.month && r.date.day == 1
  {
    match p
    case Blank => Blank
    case On(d) => On(Date(d.year, d.month, 1))
  }

  lemma ToMonthStartIdempotent(p: Period)
    ensures ToMonthStart(ToMonthStart(p)) == ToMonthStart(p)
    ensures ValidPeriod(p) ==> ValidPeriod(ToMonthStart(p))
  {
  }

  /** `getPreviousQuarterEndDate`: `setMonth(getMonth() - 3)`, borrowing a
      year across January and letting a day that does not exist in the
      target month roll forward. `""` stays `""`. */
  function PreviousQuarterEnd(p: Period): (r: Period)
    requires ValidPeriod(p)
    ensures ValidPeriod(r)
    ensures p.Blank? <==> r.Blank?
  {
    match p
    case Blank => Blank
    case On(d) =>
      if d.month > 3 then On(Roll(Date(d.year, d.month - 3, d.day)))
      else On(Roll(Date(d.year - 1, d.month + 9, d.day)))
  }

  /** `getSamePeriodLastYear`: `setFullYear(getFullYear() - 1)`; 29 February
      rolls to 1 March in a non-leap year. `""` stays `""`. */
  function SamePeriodLastYear(p: Period): (r: Period)
    requires ValidPeriod(p)
    ensures ValidPeriod(r)
    ensures p.Blank? <==> r.Blank?
  {
    match p
    case Blank => Blank
    case On(d) => On(Roll(Date(d.year - 1, d.month, d.day)))
  }

  /** Whenever the day exists three months earlier, the shift is exactly
      three months back with the day kept. */
  lemma PreviousQuarterEndShift(d: Date)
    requires Valid(d)
    requires d.day <= 28
    ensures PreviousQuarterEnd(On(d)).date.day == d.day
    ensures MonthIndex(PreviousQuarterEnd(On(d)).date) == MonthIndex(d) - 3
  {
  }

  /** Whenever the day exists a year earlier (anything but 29 February), the
      shift keeps month and day and takes one off the year. */
  lemma SamePeriodLastYearShift(d: Date)
    requires Valid(d)
    requires !(d.month == 2 && d.day == 29)
    ensures SamePeriodLastYear(On(d)) == On(Date(d.year - 1, d.month, d.day))
  {
  }

  /** Example of the roll: 31 May goes back to "31 February", which is
      2 March in a leap year. */
  lemma PreviousQuarterEndRollExample()
    ensures PreviousQuarterEnd(On(Date(2024, 5, 31))) == On(Date(2024, 3, 2))
    ensures PreviousQuarterEnd(On(Date(2025, 3, 1))) == On(Date(2024, 12, 1))
  {
  }

  /** On month starts, stepping back a quarter four times is the same as
      stepping back a year. */
  lemma FourQuartersMakeAYear(d: Date)
    requires Valid(d) && d.day == 1
    ensures PreviousQuarterEnd(PreviousQuarterEnd(PreviousQuarterEnd(PreviousQuarterEnd(On(d)))))
         == SamePeriodLastYear(On(d))
  {
    var p1 := PreviousQuarterEnd(On(d));
    PreviousQuarterEndShift(d);
    PreviousQuarterEndShift(p1.date);
    var p2 := PreviousQuarterEnd(p1);
    PreviousQuarterEndShift(p2.date);
    var p3 := PreviousQuarterEnd(p2);
    PreviousQuarterEndShift(p3.date);
    var p4 := PreviousQuarterEnd(p3);
    SamePeriodLastYearShift(d);
    MonthIndexInjective(p4.date, Date(d.year - 1, d.month, 1));
  }

  lemma MonthIndexInjective(a: Date, b: Date)
    requires Valid(a) && Valid(b) && a.day == b.day
    requires MonthIndex(a) == MonthIndex(b)
    ensures a == b
  {
  }

  // ---------------------------------------------------------------------
  // Quarters.

  /** The four entries of `availableQuarters`. */
  datatype Quarter = Q1 | Q2 | Q3 | Q4 {
    /** The month-day suffix the selector stores (`"03-01"` …). */
    function Value(): string {
      match this
      case Q1 => "03-01"
      case Q2 => "06-01"
      case Q3 => "09-01"
      case Q4 => "12-01"
    }

    function Month(): (m: int)
      ensures 1 <= m <= 12 && m % 3 == 0
    {
      match this
      case Q1 => 3
      case Q2 => 6
      case Q3 => 9
      case Q4 => 12
    }

    /** Position in `availableQuarters`. */
    function Index(): (i: int)
      ensures 0 <= i < 4
    {
      match this
      case Q1 => 0
      case Q2 => 1
      case Q3 => 2
      case Q4 => 3
    }
  }

  /** `availableQuarters[i]`. */
  function QuarterAt(i: int): (q: Quarter)
    requires 0 <= i < 4
    ensures q.Index() == i
  {
    if i == 0 then Q1 else if i == 1 then Q2 else if i == 2 then Q3 else Q4
  }

  /** The selector value a string names, if any. */
  function QuarterOfValue(v: string): (r: Option<Quarter>)
    ensures r.Some? ==> r.value.Value() == v
    ensures forall q: Quarter :: q.Value() == v ==> r == Some(q)
  {
    if v == "03-01" then Some(Q1)
    else if v == "06-01" then Some(Q2)
    else if v == "09-01" then Some(Q3)
    else if v == "12-01" then Some(Q4)
    else None
  }

  /** The quarter a date falls in: `availableQuarters[Math.floor(getUTCMonth() / 3)]`. */
  function QuarterOf(d: Date): (q: Quarter)
    requires Valid(d)
    ensures 3 * q.Index() + 1 <= d.month <= 3 * q.Index() + 3
  {
    QuarterAt((d.month - 1) / 3)
  }

  /** Stepping back three months from a month start lands in the previous
      quarter (the fourth quarter of the year before, from the first). */
  lemma PreviousQuarterOfMonthStart(d: Date)
    requires Valid(d) && d.day == 1
    ensures var e := PreviousQuarterEnd(On(d)).date;
      if QuarterOf(d) == Q1 then e.year == d.year - 1 && QuarterOf(e) == Q4
      else e.year == d.year && QuarterOf(e).Index() == QuarterOf(d).Index() - 1
  {
  }

  /** `` `${year}-${quarter}` ``: the reporting period built from the
      selectors, the first day of the quarter's last month. */
  function ReportingPeriod(year: int, q: Quarter): (p: Period)
    ensures p.On? && Valid(p.date) && p.date.day == 1 && QuarterOf(p.date) == q
  {
    On(Date(year, q.Month(), 1))
  }

  /** `getPeriodLabel`'s content, "Quý {quarter}/{year}"; `None` renders as
      the empty label. */
  datatype PeriodLabel = PeriodLabel(quarter: int, year: int)

  function LabelOf(p: Period): (r: Option<PeriodLabel>)
    requires ValidPeriod(p)
    ensures p.Blank? <==> r.None?
    ensures r.Some? ==> 1 <= r.value.quarter <= 4 && r.value.year == p.date.year
    ensures r.Some? ==> r.value.quarter == QuarterOf(p.date).Index() + 1
  {
    match p
    case Blank => None
    case On(d) => Some(PeriodLabel((d.month - 1) / 3 + 1, d.year))
  }

  /** The label of a selector-built period names the selected quarter and
      year back. */
  lemma LabelOfReportingPeriod(year: int, q: Quarter)
    ensures LabelOf(ReportingPeriod(year, q)) == Some(PeriodLabel(q.Index() + 1, year))
  {
  }
}
