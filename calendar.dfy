/** The downloader's calendar: the twelve month strings and, for a month,
    the zero-padded list of its days (`_days_for_month`, which takes the month
    length from Python's `calendar.monthrange`). */
module Calendar {
  import opened Wrappers
  import opened Text

  /** `calendar.isleap`: the Gregorian leap-year rule. */
  predicate IsLeap(year: int) {
    year % 4 == 0 && (year % 100 != 0 || year % 400 == 0)
  }

  /** `calendar.mdays`: the days of each month of a common year (index 0 unused). */
  const MonthDays: seq<nat> := [0, 31, 28, 31, 30, 31, 30, 31, 31, 30, 31, 30, 31]

  /** The second result of `calendar.monthrange(year, month)`:
      `mdays[month] + (month == February and isleap(year))`. */
  function DaysInMonth(year: int, month: nat): (d: nat)
    requires 1 <= month <= 12
    ensures d == 31 <==> month in {1, 3, 5, 7, 8, 10, 12}
    ensures d == 30 <==> month in {4, 6, 9, 11}
    ensures month == 2 ==> (d == 29 <==> IsLeap(year)) && (d == 28 <==> !IsLeap(year))
  {
    MonthDays[month] + if month == 2 && IsLeap(year) then 1 else 0
  }

  function DaysBefore(year: int, month: nat): nat
    requires 1 <= month <= 13
    decreases month
  {
    if month == 1 then 0 else DaysBefore(year, month - 1) + DaysInMonth(year, month - 1)
  }

  /** The twelve months add up to the length of the Gregorian year. */
  lemma YearLength(year: int)
    ensures DaysBefore(year, 13) == if IsLeap(year) then 366 else 365
  {
  }

  /** `_days_for_month(year, month_str)`: `None` where `int(month_str)` or
      `calendar.monthrange` raises (not a digit string, or not a month). */
  function DaysForMonth(year: int, monthStr: string): (days: Option<seq<string>>)
    ensures days.Some? <==> ParseNat(monthStr).Some? && 1 <= ParseNat(monthStr).value <= 12
  {
    match ParseNat(monthStr)
    case None => None
    case Some(m) =>
      if 1 <= m <= 12 then Some(seq(DaysInMonth(year, m), d requires 0 <= d < DaysInMonth(year, m) => Pad2(d + 1)))
      else None
  }

  /** The day list of a month has one entry per day of that month; entry `i`
      is the two-digit form of `i + 1`, so it starts at "01" and goes up by
      one each step. */
  lemma DaysForMonthSpec(year: int, monthStr: string)
    requires DaysForMonth(year, monthStr).Some?
    ensures var days, m := DaysForMonth(year, monthStr).value, ParseNat(monthStr).value;
            && |days| == DaysInMonth(year, m)
            && days[0] == "01"
            && (forall i :: 0 <= i < |days| ==> |days[i]| == 2 && ParseNat(days[i]) == Some(i + 1))
            && (forall i :: 0 <= i < |days| - 1 ==> ParseNat(days[i + 1]).value == ParseNat(days[i]).value + 1)
  {
    var days := DaysForMonth(year, monthStr).value;
    forall i | 0 <= i < |days|
      ensures |days[i]| == 2 && ParseNat(days[i]) == Some(i + 1)
    {
      ParsePad2(i + 1);
    }
  }

  /** `months = [f"{m:02d}" for m in range(1, 13)]`. */
  const Months: seq<string> := seq(12, i requires 0 <= i < 12 => Pad2(i + 1))

  /** The months are "01" to "12" in order. */
  lemma MonthsValue()
    ensures Months == ["01", "02", "03", "04", "05", "06", "07", "08", "09", "10", "11", "12"]
  {
    assert Pad2(10) == "10" && Pad2(11) == "11" && Pad2(12) == "12";
  }

  /** Every month string is accepted by `_days_for_month` and names month `i + 1`. */
  lemma MonthsAreMonths(year: int)
    ensures forall i :: 0 <= i < |Months| ==>
              ParseNat(Months[i]) == Some(i + 1) && DaysForMonth(year, Months[i]).Some?
  {
    forall i | 0 <= i < |Months|
      ensures ParseNat(Months[i]) == Some(i + 1)
    {
      ParsePad2(i + 1);
    }
  }
}
