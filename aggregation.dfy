/**
 * The KPIs and grouped counts computed over the filtered rows: the number of flights, the
 * passenger total, the number of distinct airports, and flights per quarter, month, airport,
 * airline and movement type. Every column is taken to be present (no null keys).
 */
module Aggregation {
  import opened Calendar
  import opened Buckets
  import opened Flights
  import opened Filtering

  /** The passenger total `PAX`, summed over the rows. */
  function TotalPassengers(rows: seq<Row>): nat {
    if rows == [] then 0 else rows[0].pax + TotalPassengers(rows[1..])
  }

  /** The airports that occur in the rows. */
  function Airports(rows: seq<Row>): set<string> {
    set r | r in rows :: r.airport
  }

  /** Number of rows whose key is k. */
  function Tally<K(==)>(rows: seq<Row>, key: Row -> K, k: K): nat {
    if rows == [] then 0 else (if key(rows[0]) == k then 1 else 0) + Tally(rows[1..], key, k)
  }

  /** Counting over a non-empty sequence: the first row, then the rest. */
  lemma TallyFirst<K>(rows: seq<Row>, key: Row -> K)
    requires rows != []
    ensures forall j :: Tally(rows, key, j) == (if key(rows[0]) == j then 1 else 0) + Tally(rows[1..], key, j)
  {
  }

  /**
   * Rows per key value, as a group-by followed by a count: one entry for every key value that
   * occurs, holding the number of rows that carry it, and no entry for a value that does not occur.
   */
  function GroupCount<K(==,!new)>(rows: seq<Row>, key: Row -> K): (m: map<K, nat>)
    ensures m.Keys == set r | r in rows :: key(r)
    ensures forall k :: k in m ==> m[k] == Tally(rows, key, k) && m[k] >= 1
    ensures forall k :: k !in m ==> Tally(rows, key, k) == 0
  {
    if rows == [] then map[]
    else
      var rest := GroupCount(rows[1..], key);
      var k := key(rows[0]);
      assert forall r :: r in rows <==> r == rows[0] || r in rows[1..];
      TallyFirst(rows, key);
      rest[k := if k in rest then rest[k] + 1 else 1]
  }

  function QuarterKey(r: Row): Quarter { r.quarter }
  function MonthKey(r: Row): string { r.yearMonth }
  function AirportKey(r: Row): string { r.airport }
  function AirlineKey(r: Row): string { r.airline }
  function MovementKey(r: Row): string { r.movement }

  /** Everything the dashboard shows about the filtered rows. */
  datatype Summary = Summary(
    totalFlights: nat,
    totalPassengers: nat,
    uniqueAirports: nat,
    quarterly: map<Quarter, nat>,
    monthly: map<string, nat>,
    perAirport: map<string, nat>,
    perAirline: map<string, nat>,
    perMovement: map<string, nat>)

  function Summarize(rows: seq<Row>): (s: Summary)
    ensures s.uniqueAirports == |s.perAirport.Keys|
    ensures rows == [] ==> s == Summary(0, 0, 0, map[], map[], map[], map[], map[])
  {
    var perAirport := GroupCount(rows, AirportKey);
    assert perAirport.Keys == Airports(rows);
    Summary(
      |rows|,
      TotalPassengers(rows),
      |Airports(rows)|,
      GroupCount(rows, QuarterKey),
      GroupCount(rows, MonthKey),
      perAirport,
      GroupCount(rows, AirlineKey),
      GroupCount(rows, MovementKey))
  }

  /** The sum of the counts in a grouping. */
  ghost function MapSum<K>(m: map<K, nat>): nat
    decreases |m|
  {
    if m == map[] then 0
    else
      var k :| k in m;
      m[k] + MapSum(m - {k})
  }

  /** The sum of the counts can start from any key. */
  lemma {:induction false} MapSumPick<K>(m: map<K, nat>, k: K)
    requires k in m
    ensures MapSum(m) == m[k] + MapSum(m - {k})
    decreases |m|
  {
    var j :| j in m && MapSum(m) == m[j] + MapSum(m - {j});
    if j != k {
      MapSumPick(m - {j}, k);
      MapSumPick(m - {k}, j);
      assert m - {j} - {k} == m - {k} - {j};
    }
  }

  /** Counting one more row under key k adds one to the sum of the counts. */
  lemma MapSumIncrement<K>(m: map<K, nat>, k: K)
    ensures MapSum(m[k := if k in m then m[k] + 1 else 1]) == MapSum(m) + 1
  {
    var m' := m[k := if k in m then m[k] + 1 else 1];
    MapSumPick(m', k);
    if k in m {
      MapSumPick(m, k);
      assert m' - {k} == m - {k};
    } else {
      assert m' - {k} == m;
    }
  }

  /** The counts of any grouping add up to the number of rows. */
  lemma {:induction false} GroupCountTotal<K(!new)>(rows: seq<Row>, key: Row -> K)
    ensures MapSum(GroupCount(rows, key)) == |rows|
  {
    if rows != [] {
      GroupCountTotal(rows[1..], key);
      MapSumIncrement(GroupCount(rows[1..], key), key(rows[0]));
    }
  }

  /** Every grouping of the summary accounts for each flight exactly once. */
  lemma GroupingsSumToTotal(rows: seq<Row>)
    ensures var s := Summarize(rows);
            && MapSum(s.quarterly) == s.totalFlights
            && MapSum(s.monthly) == s.totalFlights
            && MapSum(s.perAirport) == s.totalFlights
            && MapSum(s.perAirline) == s.totalFlights
            && MapSum(s.perMovement) == s.totalFlights
  {
    GroupCountTotal(rows, QuarterKey);
    GroupCountTotal(rows, MonthKey);
    GroupCountTotal(rows, AirportKey);
    GroupCountTotal(rows, AirlineKey);
    GroupCountTotal(rows, MovementKey);
  }

  /** The quarterly tile: the sum of the per-quarter counts, which is the number of flights. */
  method QuarterlyTile(rows: seq<Row>) returns (tile: nat)
    ensures tile == |rows|
  {
    var counts := GroupCount(rows, QuarterKey);
    var rest := counts;
    tile := 0;
    while rest != map[]
      invariant tile + MapSum(rest) == MapSum(counts)
      decreases |rest|
    {
      var k :| k in rest;
      MapSumPick(rest, k);
      tile := tile + rest[k];
      rest := rest - {k};
    }
    GroupCountTotal(rows, QuarterKey);
  }

  lemma {:induction false} TotalPassengersAppend(a: seq<Row>, b: seq<Row>)
    ensures TotalPassengers(a + b) == TotalPassengers(a) + TotalPassengers(b)
  {
    if a != [] {
      TotalPassengersAppend(a[1..], b);
      assert (a + b)[0] == a[0];
      assert (a + b)[1..] == a[1..] + b;
    } else {
      assert a + b == b;
    }
  }

  lemma {:induction false} TallyAppend<K>(a: seq<Row>, b: seq<Row>, key: Row -> K, k: K)
    ensures Tally(a + b, key, k) == Tally(a, key, k) + Tally(b, key, k)
  {
    if a != [] {
      TallyAppend(a[1..], b, key, k);
      assert (a + b)[0] == a[0];
      assert (a + b)[1..] == a[1..] + b;
    } else {
      assert a + b == b;
    }
  }

  /** Taking out the element at position i: what is left, and the multiset of what is left. */
  lemma RemoveAt(b: seq<Row>, i: nat)
    requires i < |b|
    ensures b == b[..i] + ([b[i]] + b[i + 1..])
    ensures multiset(b[..i] + b[i + 1..]) == multiset(b) - multiset{b[i]}
  {
    assert b == b[..i] + ([b[i]] + b[i + 1..]);
  }

  /** A row of b equal to the first row of a, and b without it. */
  lemma MatchFirst(a: seq<Row>, b: seq<Row>) returns (i: nat)
    requires a != [] && multiset(a) == multiset(b)
    ensures i < |b| && b[i] == a[0]
    ensures multiset(a[1..]) == multiset(b[..i] + b[i + 1..])
    ensures b == b[..i] + ([b[i]] + b[i + 1..])
  {
    assert a[0] in multiset(b);
    i :| 0 <= i < |b| && b[i] == a[0];
    RemoveAt(b, i);
    RemoveAt(a, 0);
    assert a[..0] + a[1..] == a[1..];
  }

  /** The passenger total does not depend on the order of the rows. */
  lemma {:induction false} TotalPassengersPermutation(a: seq<Row>, b: seq<Row>)
    requires multiset(a) == multiset(b)
    ensures TotalPassengers(a) == TotalPassengers(b)
    decreases |a|
  {
    if a == [] {
      assert b == [] by { assert |b| == |multiset(b)| == 0; }
    } else {
      var i := MatchFirst(a, b);
      var left, right := b[..i], b[i + 1..];
      TotalPassengersPermutation(a[1..], left + right);
      TotalPassengersAppend(left, right);
      TotalPassengersAppend(left, [b[i]] + right);
      assert ([b[i]] + right)[1..] == right;
    }
  }

  /** A group count does not depend on the order of the rows. */
  lemma {:induction false} TallyPermutation<K>(a: seq<Row>, b: seq<Row>, key: Row -> K, k: K)
    requires multiset(a) == multiset(b)
    ensures Tally(a, key, k) == Tally(b, key, k)
    decreases |a|
  {
    if a == [] {
      assert b == [] by { assert |b| == |multiset(b)| == 0; }
    } else {
      var i := MatchFirst(a, b);
      var left, right := b[..i], b[i + 1..];
      TallyPermutation(a[1..], left + right, key, k);
      TallyAppend(left, right, key, k);
      TallyAppend(left, [b[i]] + right, key, k);
      assert ([b[i]] + right)[1..] == right;
    }
  }

  lemma GroupCountPermutation<K(!new)>(a: seq<Row>, b: seq<Row>, key: Row -> K)
    requires multiset(a) == multiset(b)
    ensures GroupCount(a, key) == GroupCount(b, key)
  {
    var ma, mb := GroupCount(a, key), GroupCount(b, key);
    assert forall r :: r in a <==> r in b by {
      forall r ensures r in a <==> r in b {
        assert r in a <==> r in multiset(a);
        assert r in b <==> r in multiset(b);
      }
    }
    assert ma.Keys == mb.Keys;
    forall k | k in ma ensures ma[k] == mb[k] {
      TallyPermutation(a, b, key, k);
    }
  }

  /** Every value the dashboard shows is independent of the order of the filtered rows. */
  lemma SummarizePermutation(a: seq<Row>, b: seq<Row>)
    requires multiset(a) == multiset(b)
    ensures Summarize(a) == Summarize(b)
  {
    TotalPassengersPermutation(a, b);
    GroupCountPermutation(a, b, QuarterKey);
    GroupCountPermutation(a, b, MonthKey);
    GroupCountPermutation(a, b, AirportKey);
    GroupCountPermutation(a, b, AirlineKey);
    GroupCountPermutation(a, b, MovementKey);
    assert |a| == |multiset(a)| == |multiset(b)| == |b|;
  }

  /** Filtering with a start date after the end date gives an all-zero, all-empty summary. */
  lemma InvertedRangeSummary(rows: seq<Row>, c: Criteria)
    requires !OnOrBefore(c.start, c.end)
    ensures Summarize(Filter(rows, c)) == Summary(0, 0, 0, map[], map[], map[], map[], map[])
  {
    InvertedRangeKeepsNothing(rows, c);
  }

  /** Three flights, two of them at one airport: the per-airport counts. */
  lemma AirportCountsOfThree(a: Row, b: Row, c: Row)
    requires a.airport == b.airport && b.airport != c.airport
    ensures GroupCount([a, b, c], AirportKey) == map[a.airport := 2, c.airport := 1]
    ensures |GroupCount([a, b, c], AirportKey).Keys| == 2
  {
    assert [a, b, c][1..] == [b, c] && [b, c][1..] == [c] && [c][1..] == [];
    assert GroupCount([c], AirportKey) == map[c.airport := 1];
    assert GroupCount([b, c], AirportKey) == map[c.airport := 1, b.airport := 1];
    assert map[a.airport := 2, c.airport := 1].Keys == {a.airport, c.airport};
  }

  /** A date window that no row falls in gives an all-zero, all-empty summary. */
  lemma EmptyWindowSummary(rows: seq<Row>, c: Criteria)
    requires forall r :: r in rows ==> !InWindow(c.start, c.end, r.date)
    ensures Summarize(Filter(rows, c)) == Summary(0, 0, 0, map[], map[], map[], map[], map[])
  {
    WindowMissesEveryRow(rows, c);
  }

  /** Three flights, two of them at one airport, under the initial selection: the tiles and the per-airport counts. */
  lemma ThreeFlightsTwoAirports(a: Row, b: Row, c: Row)
    requires a.airport == b.airport && b.airport != c.airport
    ensures var s := Summarize(Filter([a, b, c], DefaultCriteria([a, b, c]).value));
            && s.totalFlights == 3
            && s.totalPassengers == a.pax + b.pax + c.pax
            && s.uniqueAirports == 2
            && s.perAirport == map[a.airport := 2, c.airport := 1]
  {
    DefaultFilterKeepsAll([a, b, c]);
    AirportCountsOfThree(a, b, c);
    assert [a, b, c][1..] == [b, c] && [b, c][1..] == [c] && [c][1..] == [];
    assert TotalPassengers([c]) == c.pax;
    assert TotalPassengers([b, c]) == b.pax + c.pax;
  }
}
