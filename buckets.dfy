/** The two calendar buckets derived from each flight's date: its month period and its quarter period. */
module Buckets {
  import opened Digits
  import opened Calendar

  /** A quarter period: quarter q (1 to 4) of a year. */
  datatype Quarter = Quarter(year: nat, q: nat)

  /** The `YearMonth` column: the month period of d, written YYYY-MM. */
  function MonthBucket(d: Date): (s: string)
    requires ValidDate(d)
    ensures |s| == 7 && s[4] == '-'
    ensures AllDigits(s[..4]) && Value(s[..4]) == d.year
    ensures AllDigits(s[5..]) && Value(s[5..]) == d.month
  {
    var s := Pad(d.year, 4) + "-" + Pad(d.month, 2);
    assert s[..4] == Pad(d.year, 4) && s[5..] == Pad(d.month, 2);
    s
  }

  /** The `Quarter` column: the quarter period containing d. */
  function QuarterOf(d: Date): (r: Quarter)
    requires ValidDate(d)
    ensures r.year == d.year
    ensures 1 <= r.q <= 4
    ensures 3 * (r.q - 1) < d.month <= 3 * r.q
  {
    Quarter(d.year, (d.month - 1) / 3 + 1)
  }

  /** Two dates share a month bucket exactly when they fall in the same month of the same year. */
  lemma MonthBucketSameMonth(a: Date, b: Date)
    requires ValidDate(a) && ValidDate(b)
    ensures MonthBucket(a) == MonthBucket(b) <==> a.year == b.year && a.month == b.month
  {
    if MonthBucket(a) == MonthBucket(b) {
      assert MonthBucket(a)[..4] == MonthBucket(b)[..4];
      assert MonthBucket(a)[5..] == MonthBucket(b)[5..];
    }
  }

  /** The month bucket determines the quarter bucket: dates in one month share a quarter. */
  lemma QuarterFollowsMonth(a: Date, b: Date)
    requires ValidDate(a) && ValidDate(b)
    requires MonthBucket(a) == MonthBucket(b)
    ensures QuarterOf(a) == QuarterOf(b)
  {
    MonthBucketSameMonth(a, b);
  }

  /** Sample value: 17 May 2024 is in month 2024-05 and in the second quarter of 2024. */
  lemma BucketsOf17May2024()
    ensures MonthBucket(Date(2024, 5, 17)) == "2024-05"
    ensures QuarterOf(Date(2024, 5, 17)) == Quarter(2024, 2)
  {
  }
}
