/** Proleptic Gregorian calendar dates, as the loader produces them (midnight of a calendar day). */
module Calendar {

  datatype Date = Date(year: nat, month: nat, day: nat)

  const MIN_YEAR := 1
  const MAX_YEAR := 9999

  predicate IsLeapYear(y: nat) {
    y % 4 == 0 && (y % 100 != 0 || y % 400 == 0)
  }

  /** Length of month `m` of year `y`; February has a 29th day exactly in leap years. */
  function DaysInMonth(y: nat, m: nat): (n: nat)
    requires 1 <= m <= 12
    ensures 28 <= n <= 31
    ensures n == 29 <==> m == 2 && IsLeapYear(y)
    ensures n == 28 <==> m == 2 && !IsLeapYear(y)
    ensures n == 31 <==> m in {1, 3, 5, 7, 8, 10, 12}
  {
    if m == 2 then (if IsLeapYear(y) then 29 else 28)
    else if m == 4 || m == 6 || m == 9 || m == 11 then 30
    else 31
  }

  /** A real calendar date in the range of the standard date type (years 1 to 9999). */
  predicate ValidDate(d: Date) {
    && MIN_YEAR <= d.year <= MAX_YEAR
    && 1 <= d.month <= 12
    && 1 <= d.day <= DaysInMonth(d.year, d.month)
  }

  /** Chronological order of two days (comparison of their midnight timestamps). */
  predicate OnOrBefore(a: Date, b: Date) {
    || a.year < b.year
    || (a.year == b.year && a.month < b.month)
    || (a.year == b.year && a.month == b.month && a.day <= b.day)
  }

  /** OnOrBefore is a total order on dates. */
  lemma OrderIsTotal(a: Date, b: Date, c: Date)
    ensures OnOrBefore(a, a)
    ensures OnOrBefore(a, b) || OnOrBefore(b, a)
    ensures OnOrBefore(a, b) && OnOrBefore(b, a) ==> a == b
    ensures OnOrBefore(a, b) && OnOrBefore(b, c) ==> OnOrBefore(a, c)
  {
  }

  /** The earliest of a non-empty sequence of dates. */
  function Earliest(ds: seq<Date>): (r: Date)
    requires |ds| > 0
    ensures r in ds
    ensures forall d :: d in ds ==> OnOrBefore(r, d)
  {
    if |ds| == 1 then ds[0]
    else
      var rest := Earliest(ds[1..]);
      assert forall d :: d in ds ==> d == ds[0] || d in ds[1..];
      if OnOrBefore(ds[0], rest) then ds[0] else rest
  }

  /** The latest of a non-empty sequence of dates. */
  function Latest(ds: seq<Date>): (r: Date)
    requires |ds| > 0
    ensures r in ds
    ensures forall d :: d in ds ==> OnOrBefore(d, r)
  {
    if |ds| == 1 then ds[0]
    else
      var rest := Latest(ds[1..]);
      assert forall d :: d in ds ==> d == ds[0] || d in ds[1..];
      if OnOrBefore(rest, ds[0]) then ds[0] else rest
  }

  /** Leap-year edge cases: 29 February exists in 2024 and 2000 but not in 2023 or 1900; 31 February never. */
  lemma LeapYearExamples()
    ensures ValidDate(Date(2024, 2, 29)) && ValidDate(Date(2000, 2, 29))
    ensures !ValidDate(Date(2023, 2, 29)) && !ValidDate(Date(1900, 2, 29))
    ensures !ValidDate(Date(2024, 2, 31)) && !ValidDate(Date(2024, 4, 31))
    ensures !ValidDate(Date(0, 1, 1))
  {
  }
}
