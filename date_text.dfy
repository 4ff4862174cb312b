/**
 * Reading the `Fecha UTC` column with the fixed pattern `%d/%m/%Y`.
 *
 * The pattern is matched against the whole text. Its directives accept:
 *   day    "3[01]", "[12]\d", "0[1-9]", "[1-9]" or " [1-9]"  (1 to 31, optional leading zero or space)
 *   month  "1[0-2]", "0[1-9]" or "[1-9]"                     (1 to 12, optional leading zero)
 *   year   exactly four digits
 * A text that matches but names no real day (31/02, 29/02 of a common year, year 0000)
 * is rejected as well. Neither directive can contain '/', so the two slashes split the text.
 */
module DateText {
  import opened Results
  import opened Digits
  import opened Calendar

  datatype DateError =
    | BadFormat         // the text does not match %d/%m/%Y
    | NotACalendarDate  // it matches, but the day does not exist

  predicate NoSlash(t: string) {
    forall k :: 0 <= k < |t| ==> t[k] != '/'
  }

  /** Index of the first '/' in s, or |s| when there is none. */
  function FindSlash(s: string): (i: nat)
    ensures i <= |s|
    ensures NoSlash(s[..i])
    ensures i < |s| ==> s[i] == '/'
  {
    if s == [] || s[0] == '/' then 0
    else
      var i := 1 + FindSlash(s[1..]);
      assert forall k :: 1 <= k < i ==> s[..i][k] == s[1..][..i - 1][k - 1];
      i
  }

  function ParseDay(t: string): Option<nat> {
    if |t| == 1 && '1' <= t[0] <= '9' then Some(DigitValue(t[0]))
    else if |t| == 2 && t[0] == ' ' && '1' <= t[1] <= '9' then Some(DigitValue(t[1]))
    else if |t| == 2 && AllDigits(t) && 1 <= Value(t) <= 31 then Some(Value(t))
    else None
  }

  function ParseMonth(t: string): Option<nat> {
    if |t| == 1 && '1' <= t[0] <= '9' then Some(DigitValue(t[0]))
    else if |t| == 2 && AllDigits(t) && 1 <= Value(t) <= 12 then Some(Value(t))
    else None
  }

  function ParseYear(t: string): Option<nat> {
    if |t| == 4 && AllDigits(t) then Some(Value(t)) else None
  }

  /** The texts the day directive reads as day n. */
  function DaySpellings(n: nat): set<string>
    requires 1 <= n <= 31
  {
    {Pad(n, 2)} + (if n < 10 then {[DigitChar(n)], [' ', DigitChar(n)]} else {})
  }

  /** The texts the month directive reads as month m. */
  function MonthSpellings(m: nat): set<string>
    requires 1 <= m <= 12
  {
    {Pad(m, 2)} + (if m < 10 then {[DigitChar(m)]} else {})
  }

  lemma {:induction false} ParseDayMeaning(t: string, n: nat)
    ensures ParseDay(t) == Some(n) <==> 1 <= n <= 31 && t in DaySpellings(n)
  {
    if ParseDay(t) == Some(n) {
      if |t| == 2 && '0' <= t[0] <= '9' {
        PadUnique(t);
      } else if |t| == 1 {
        assert t == [DigitChar(n)];
      } else {
        assert t == [' ', DigitChar(n)];
      }
    }
    if 1 <= n <= 31 && t in DaySpellings(n) {
      if t == Pad(n, 2) {
        assert ParseDay(t) == Some(n);
      }
    }
  }

  lemma {:induction false} ParseMonthMeaning(t: string, m: nat)
    ensures ParseMonth(t) == Some(m) <==> 1 <= m <= 12 && t in MonthSpellings(m)
  {
    if ParseMonth(t) == Some(m) {
      if |t| == 2 {
        PadUnique(t);
      } else {
        assert t == [DigitChar(m)];
      }
    }
  }

  lemma {:induction false} ParseYearMeaning(t: string, y: nat)
    ensures ParseYear(t) == Some(y) <==> y < 10000 && t == Pad(y, 4)
  {
    if ParseYear(t) == Some(y) {
      PadUnique(t);
    }
  }

  /** The date named by the three directive readings, once all three have matched. */
  function Assemble(day: Option<nat>, month: Option<nat>, year: Option<nat>): Result<Date, DateError> {
    if day.None? || month.None? || year.None? then Err(BadFormat)
    else
      var d := Date(year.value, month.value, day.value);
      if ValidDate(d) then Ok(d) else Err(NotACalendarDate)
  }

  /** A text is its parts around two slash positions, put back together. */
  lemma JoinAtSlashes(s: string, i: nat, j: nat)
    requires i < |s| && s[i] == '/'
    requires j < |s[i + 1..]| && s[i + 1..][j] == '/'
    ensures s == s[..i] + "/" + s[i + 1..][..j] + "/" + s[i + 1..][j + 1..]
  {
    var rest := s[i + 1..];
    assert rest == rest[..j] + [rest[j]] + rest[j + 1..];
    assert s == s[..i] + [s[i]] + rest;
  }

  /** The text before the first slash, between the first and second, and after the second. */
  function SplitDate(s: string): (r: Option<(string, string, string)>)
    ensures r.Some? ==> NoSlash(r.value.0) && NoSlash(r.value.1)
    ensures r.Some? ==> s == r.value.0 + "/" + r.value.1 + "/" + r.value.2
  {
    var i := FindSlash(s);
    if i == |s| then None
    else
      var rest := s[i + 1..];
      var j := FindSlash(rest);
      if j == |rest| then None
      else
        JoinAtSlashes(s, i, j);
        Some((s[..i], rest[..j], rest[j + 1..]))
  }

  /** Reads one `Fecha UTC` value. */
  function ParseDate(s: string): (r: Result<Date, DateError>)
    ensures r.Ok? ==> ValidDate(r.value)
  {
    match SplitDate(s)
    case None => Err(BadFormat)
    case Some((dt, mt, yt)) => Assemble(ParseDay(dt), ParseMonth(mt), ParseYear(yt))
  }

  /** s is day, month and year of d, written as the pattern allows, separated by '/'. */
  ghost predicate Spells(s: string, d: Date) {
    && 1 <= d.day <= 31 && 1 <= d.month <= 12 && d.year < 10000
    && exists dt, mt :: dt in DaySpellings(d.day) && mt in MonthSpellings(d.month)
                        && s == dt + "/" + mt + "/" + Pad(d.year, 4)
  }

  /** The zero-padded spelling dd/mm/yyyy of a day, month and year (not necessarily a real date). */
  function Format(d: Date): string
    requires d.day < 100 && d.month < 100 && d.year < 10000
  {
    Pad(d.day, 2) + "/" + Pad(d.month, 2) + "/" + Pad(d.year, 4)
  }

  lemma FirstSlashAfter(a: string, b: string)
    requires NoSlash(a)
    ensures FindSlash(a + "/" + b) == |a|
    ensures (a + "/" + b)[..|a|] == a
    ensures (a + "/" + b)[|a| + 1..] == b
  {
    var s := a + "/" + b;
    assert s[..|a|] == a;
    assert s[|a|] == '/';

  }

  /** Splitting three parts joined by slashes gives the parts back when the first two have no slash. */
  lemma SplitDateOfParts(dt: string, mt: string, yt: string)
    requires NoSlash(dt) && NoSlash(mt)
    ensures SplitDate(dt + "/" + mt + "/" + yt) == Some((dt, mt, yt))
  {
    var s := dt + "/" + mt + "/" + yt;
    assert s == dt + "/" + (mt + "/" + yt);
    FirstSlashAfter(dt, mt + "/" + yt);
    FirstSlashAfter(mt, yt);
  }

  lemma SpellsIntro(s: string, d: Date, dt: string, mt: string)
    requires 1 <= d.day <= 31 && 1 <= d.month <= 12 && d.year < 10000
    requires dt in DaySpellings(d.day) && mt in MonthSpellings(d.month)
    requires s == dt + "/" + mt + "/" + Pad(d.year, 4)
    ensures Spells(s, d)
  {
  }

  /** Whatever a text parses to is a real date that the text spells in the pattern. */
  lemma {:induction false} ParseDateSound(s: string, d: Date)
    requires ParseDate(s) == Ok(d)
    ensures ValidDate(d) && Spells(s, d)
  {
    var (dt, mt, yt) := SplitDate(s).value;
    assert ParseDay(dt) == Some(d.day) && ParseMonth(mt) == Some(d.month) && ParseYear(yt) == Some(d.year);
    ParseDayMeaning(dt, d.day);
    ParseMonthMeaning(mt, d.month);
    ParseYearMeaning(yt, d.year);
    SpellsIntro(s, d, dt, mt);
  }

  lemma DaySpellingHasNoSlash(t: string, n: nat)
    requires 1 <= n <= 31 && t in DaySpellings(n)
    ensures NoSlash(t)
  {
    if t != Pad(n, 2) {
      assert forall k :: 0 <= k < |t| ==> t[k] == ' ' || IsDigit(t[k]);
    }
  }

  lemma MonthSpellingHasNoSlash(t: string, m: nat)
    requires 1 <= m <= 12 && t in MonthSpellings(m)
    ensures NoSlash(t)
  {
  }

  /** Every spelling of a real date in the pattern parses to that date. */
  lemma {:induction false} ParseDateComplete(s: string, d: Date)
    requires ValidDate(d) && Spells(s, d)
    ensures ParseDate(s) == Ok(d)
  {
    var dt, mt :| dt in DaySpellings(d.day) && mt in MonthSpellings(d.month)
                  && s == dt + "/" + mt + "/" + Pad(d.year, 4);
    var yt := Pad(d.year, 4);
    DaySpellingHasNoSlash(dt, d.day);
    MonthSpellingHasNoSlash(mt, d.month);
    SplitDateOfParts(dt, mt, yt);
    ParseDayMeaning(dt, d.day);
    ParseMonthMeaning(mt, d.month);
    ParseYearMeaning(yt, d.year);
  }

  /**
   * A text parses to d exactly when d is a real calendar date and the text spells it
   * in the pattern: no other text parses, and no text parses to anything else.
   */
  lemma ParseDateMeaning(s: string, d: Date)
    ensures ParseDate(s) == Ok(d) <==> ValidDate(d) && Spells(s, d)
  {
    if ParseDate(s) == Ok(d) {
      ParseDateSound(s, d);
    }
    if ValidDate(d) && Spells(s, d) {
      ParseDateComplete(s, d);
    }
  }

  /** Every real calendar date read back from its zero-padded spelling is itself. */
  lemma FormatRoundTrip(d: Date)
    requires ValidDate(d)
    ensures ParseDate(Format(d)) == Ok(d)
  {
    assert Pad(d.day, 2) in DaySpellings(d.day);
    assert Pad(d.month, 2) in MonthSpellings(d.month);
    ParseDateMeaning(Format(d), d);
  }

  /** A well-shaped day, month and year that name no real day make the text fail as not a calendar date. */
  lemma FormatOfImpossibleDay(d: Date)
    requires 1 <= d.day <= 31 && 1 <= d.month <= 12 && d.year < 10000 && !ValidDate(d)
    ensures ParseDate(Format(d)) == Err(NotACalendarDate)
  {
    assert Pad(d.day, 2) in DaySpellings(d.day);
    assert Pad(d.month, 2) in MonthSpellings(d.month);
    DaySpellingHasNoSlash(Pad(d.day, 2), d.day);
    MonthSpellingHasNoSlash(Pad(d.month, 2), d.month);
    SplitDateOfParts(Pad(d.day, 2), Pad(d.month, 2), Pad(d.year, 4));
    ParseDayMeaning(Pad(d.day, 2), d.day);
    ParseMonthMeaning(Pad(d.month, 2), d.month);
    ParseYearMeaning(Pad(d.year, 4), d.year);
  }

  /** A text without any slash does not match the pattern. */
  lemma NoSlashIsBadFormat(s: string)
    requires NoSlash(s)
    ensures ParseDate(s) == Err(BadFormat)
  {
    assert s[..|s|] == s;
  }

  lemma Spelling17May2024()
    ensures Format(Date(2024, 5, 17)) == "17/05/2024"
  {
  }

  /** Sample value: 17 May 2024 written with zero padding. */
  lemma ParseDateAccepts()
    ensures ParseDate("17/05/2024") == Ok(Date(2024, 5, 17))
  {
    Spelling17May2024();
    FormatRoundTrip(Date(2024, 5, 17));
  }

  lemma Spelling31Feb2024()
    ensures Format(Date(2024, 2, 31)) == "31/02/2024"
  {
  }

  /** Sample value: 31 February does not exist, so the text fails as not a calendar date. */
  lemma ParseDateRejectsImpossibleDay()
    ensures ParseDate("31/02/2024") == Err(NotACalendarDate)
  {
    Spelling31Feb2024();
    FormatOfImpossibleDay(Date(2024, 2, 31));
  }

  /** 29 February of a year parses exactly when the year is a leap year; otherwise the load fails on it. */
  lemma LeapDayParsing(y: nat)
    requires MIN_YEAR <= y <= MAX_YEAR
    ensures ParseDate(Format(Date(y, 2, 29))) == if IsLeapYear(y) then Ok(Date(y, 2, 29)) else Err(NotACalendarDate)
  {
    if IsLeapYear(y) {
      FormatRoundTrip(Date(y, 2, 29));
    } else {
      FormatOfImpossibleDay(Date(y, 2, 29));
    }
  }

  /** Sample value: an ISO-shaped text does not match the pattern. */
  lemma ParseDateRejectsIsoText()
    ensures ParseDate("2024-05-17") == Err(BadFormat)
  {
    NoSlashIsBadFormat("2024-05-17");
  }
}
