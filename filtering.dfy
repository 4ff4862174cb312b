/**
 * The filter chain of the dashboard: an inclusive date range that is always applied, then
 * optional exact-match filters on airport, airline and movement type, each skipped when
 * its selection is the sentinel 'Todos'. Each step narrows the rows kept by the previous one.
 */
module Filtering {
  import opened Results
  import opened Calendar
  import opened Flights

  /** The selection that switches an exact-match filter off. */
  const ALL := "Todos"

  datatype Column = Airport | Airline | Movement

  /** One narrowing step of the chain. */
  datatype Stage =
    | Window(start: Date, end: Date)          // start <= date <= end
    | Equals(column: Column, value: string)   // the column equals the selection

  /** The user's selection: the two date bounds and the three selectors. */
  datatype Criteria = Criteria(start: Date, end: Date, airport: string, airline: string, movement: string)

  function Field(r: Row, c: Column): string {
    match c
    case Airport => r.airport
    case Airline => r.airline
    case Movement => r.movement
  }

  /** The date lies in the inclusive range from start to end. */
  predicate InWindow(start: Date, end: Date, d: Date) {
    OnOrBefore(start, d) && OnOrBefore(d, end)
  }

  predicate Passes(r: Row, s: Stage) {
    match s
    case Window(start, end) => InWindow(start, end, r.date)
    case Equals(c, v) => Field(r, c) == v
  }

  predicate PassesAll(r: Row, ss: seq<Stage>) {
    forall i :: 0 <= i < |ss| ==> Passes(r, ss[i])
  }

  /** xs is ys with some elements left out and the rest in their original order. */
  predicate Subsequence<T(==)>(xs: seq<T>, ys: seq<T>)
    decreases |ys|
  {
    if xs == [] then true
    else if ys == [] then false
    else (xs[0] == ys[0] && Subsequence(xs[1..], ys[1..])) || Subsequence(xs, ys[1..])
  }

  /**
   * The rows that pass every stage, in one pass. Each row is kept or dropped whole:
   * the result keeps the rows' order and as many copies of each passing row as there were.
   */
  function Sift(rows: seq<Row>, ss: seq<Stage>): (kept: seq<Row>)
    ensures Subsequence(kept, rows)
    ensures forall r :: multiset(kept)[r] == if PassesAll(r, ss) then multiset(rows)[r] else 0
  {
    if rows == [] then []
    else
      var rest := Sift(rows[1..], ss);
      assert rows == [rows[0]] + rows[1..];
      if PassesAll(rows[0], ss) then
        var kept := [rows[0]] + rest;
        assert kept[1..] == rest;
        kept
      else rest
  }

  /** The stages the dashboard applies for criteria c, in the order it applies them. */
  function Stages(c: Criteria): seq<Stage> {
    [Window(c.start, c.end)]
    + (if c.airport != ALL then [Equals(Airport, c.airport)] else [])
    + (if c.airline != ALL then [Equals(Airline, c.airline)] else [])
    + (if c.movement != ALL then [Equals(Movement, c.movement)] else [])
  }

  /** Applies the stages one after the other, each narrowing what the previous one kept. */
  function Narrow(rows: seq<Row>, ss: seq<Stage>): seq<Row>
    decreases |ss|
  {
    if ss == [] then rows else Narrow(Sift(rows, [ss[0]]), ss[1..])
  }

  /** `filtered_data` for criteria c. */
  function Filter(rows: seq<Row>, c: Criteria): seq<Row> {
    Narrow(rows, Stages(c))
  }

  /** All criteria as one condition on a row: the date is in range and every selector is 'Todos' or equal. */
  predicate Matches(c: Criteria, r: Row) {
    && InWindow(c.start, c.end, r.date)
    && (c.airport == ALL || r.airport == c.airport)
    && (c.airline == ALL || r.airline == c.airline)
    && (c.movement == ALL || r.movement == c.movement)
  }

  lemma StagesMeanMatches(c: Criteria, r: Row)
    ensures PassesAll(r, Stages(c)) <==> Matches(c, r)
  {
    var ss := Stages(c);
    if Matches(c, r) {
      forall i | 0 <= i < |ss| ensures Passes(r, ss[i]) {
      }
    }
    if PassesAll(r, ss) {
      assert Passes(r, ss[0]);
      var k := 1;
      if c.airport != ALL { assert Passes(r, ss[k]); k := k + 1; }
      if c.airline != ALL { assert Passes(r, ss[k]); k := k + 1; }
      if c.movement != ALL { assert Passes(r, ss[k]); }
    }
  }

  /** Sift depends on the stages only through the condition they impose together. */
  lemma {:induction false} SiftSameCondition(rows: seq<Row>, ss: seq<Stage>, ts: seq<Stage>)
    requires forall r :: r in rows ==> (PassesAll(r, ss) <==> PassesAll(r, ts))
    ensures Sift(rows, ss) == Sift(rows, ts)
  {
    if rows != [] {
      SiftSameCondition(rows[1..], ss, ts);
    }
  }

  lemma PassesAllCons(r: Row, s: Stage, ss: seq<Stage>)
    ensures PassesAll(r, [s] + ss) <==> Passes(r, s) && PassesAll(r, ss)
    ensures PassesAll(r, [s]) <==> Passes(r, s)
  {
    var ts := [s] + ss;
    assert ts[0] == s && [s][0] == s;
    assert forall i :: 0 <= i < |ss| ==> ts[i + 1] == ss[i];
    if Passes(r, s) && PassesAll(r, ss) {
      forall i | 0 <= i < |ts| ensures Passes(r, ts[i]) {
        if i > 0 { assert ts[i] == ss[i - 1]; }
      }
    }
  }

  /** Sifting by one stage and then by more is sifting once by all of them. */
  lemma {:induction false} SiftThenSift(rows: seq<Row>, s: Stage, ss: seq<Stage>)
    ensures Sift(Sift(rows, [s]), ss) == Sift(rows, [s] + ss)
  {
    if rows != [] {
      SiftThenSift(rows[1..], s, ss);
      PassesAllCons(rows[0], s, ss);
      var first := Sift(rows, [s]);
      if Passes(rows[0], s) {
        assert first == [rows[0]] + Sift(rows[1..], [s]);
        assert first[0] == rows[0] && first[1..] == Sift(rows[1..], [s]);
      } else {
        assert first == Sift(rows[1..], [s]);
      }
    }
  }

  /** Narrowing step by step keeps exactly what one pass over all the stages keeps. */
  lemma {:induction false} NarrowIsSift(rows: seq<Row>, ss: seq<Stage>)
    ensures Narrow(rows, ss) == Sift(rows, ss)
    decreases |ss|
  {
    if ss == [] {
      SiftSameCondition(rows, [], []);
      SiftKeepsAll(rows, []);
    } else {
      NarrowIsSift(Sift(rows, [ss[0]]), ss[1..]);
      SiftThenSift(rows, ss[0], ss[1..]);
      assert [ss[0]] + ss[1..] == ss;
    }
  }

  /** When every row passes, sifting keeps the sequence unchanged. */
  lemma {:induction false} SiftKeepsAll(rows: seq<Row>, ss: seq<Stage>)
    requires forall r :: r in rows ==> PassesAll(r, ss)
    ensures Sift(rows, ss) == rows
  {
    if rows != [] {
      SiftKeepsAll(rows[1..], ss);
    }
  }

  /** Sifting what was already sifted by the same stages changes nothing. */
  lemma {:induction false} SiftIdempotent(rows: seq<Row>, ss: seq<Stage>)
    ensures Sift(Sift(rows, ss), ss) == Sift(rows, ss)
  {
    var kept := Sift(rows, ss);
    forall r | r in kept ensures PassesAll(r, ss) {
      assert multiset(kept)[r] > 0;
    }
    SiftKeepsAll(kept, ss);
  }

  /**
   * What the filter keeps: an order-preserving subsequence of the rows, holding every row that
   * matches the criteria (with all its copies) and no other row.
   */
  lemma FilterMeaning(rows: seq<Row>, c: Criteria)
    ensures Subsequence(Filter(rows, c), rows)
    ensures forall r :: multiset(Filter(rows, c))[r] == if Matches(c, r) then multiset(rows)[r] else 0
    ensures forall r :: r in Filter(rows, c) <==> r in rows && Matches(c, r)
  {
    NarrowIsSift(rows, Stages(c));
    forall r ensures PassesAll(r, Stages(c)) <==> Matches(c, r) {
      StagesMeanMatches(c, r);
    }
  }

  /** Every kept row lies in the inclusive date range and equals each selector that is not 'Todos'. */
  lemma FilterKeepsSelection(rows: seq<Row>, c: Criteria, r: Row)
    requires r in Filter(rows, c)
    ensures InWindow(c.start, c.end, r.date)
    ensures c.airport != ALL ==> r.airport == c.airport
    ensures c.airline != ALL ==> r.airline == c.airline
    ensures c.movement != ALL ==> r.movement == c.movement
  {
    FilterMeaning(rows, c);
  }

  /** With every selector at 'Todos', only the date range narrows the rows. */
  lemma AllSelectorsOff(rows: seq<Row>, c: Criteria)
    requires c.airport == ALL && c.airline == ALL && c.movement == ALL
    ensures Filter(rows, c) == Sift(rows, [Window(c.start, c.end)])
  {
    assert Stages(c) == [Window(c.start, c.end)];
    NarrowIsSift(rows, Stages(c));
  }

  /** Filtering rows that were already filtered with the same criteria gives them back unchanged. */
  lemma FilterIdempotent(rows: seq<Row>, c: Criteria)
    ensures Filter(Filter(rows, c), c) == Filter(rows, c)
  {
    NarrowIsSift(rows, Stages(c));
    NarrowIsSift(Filter(rows, c), Stages(c));
    SiftIdempotent(rows, Stages(c));
  }

  /** The order in which the stages are applied does not change the result. */
  lemma NarrowOrderIrrelevant(rows: seq<Row>, ss: seq<Stage>, ts: seq<Stage>)
    requires multiset(ss) == multiset(ts)
    ensures Narrow(rows, ss) == Narrow(rows, ts)
  {
    NarrowIsSift(rows, ss);
    NarrowIsSift(rows, ts);
    forall r | r in rows ensures PassesAll(r, ss) <==> PassesAll(r, ts) {
      forall i | 0 <= i < |ss| ensures ss[i] in ts {
        assert ss[i] in multiset(ss);
      }
      forall i | 0 <= i < |ts| ensures ts[i] in ss {
        assert ts[i] in multiset(ts);
      }
    }
    SiftSameCondition(rows, ss, ts);
  }

  /** A start date after the end date keeps nothing (the bounds are not checked against each other). */
  lemma InvertedRangeKeepsNothing(rows: seq<Row>, c: Criteria)
    requires !OnOrBefore(c.start, c.end)
    ensures Filter(rows, c) == []
  {
    FilterMeaning(rows, c);
    var kept := Filter(rows, c);
    forall r ensures multiset(kept)[r] == 0 {
      assert !Matches(c, r);
    }
    assert multiset(kept) == multiset{};
  }

  /** A date window that no row falls in keeps nothing, whatever the selections. */
  lemma WindowMissesEveryRow(rows: seq<Row>, c: Criteria)
    requires forall r :: r in rows ==> !InWindow(c.start, c.end, r.date)
    ensures Filter(rows, c) == []
  {
    FilterMeaning(rows, c);
    var kept := Filter(rows, c);
    forall r ensures multiset(kept)[r] == 0 {
      if r in rows {
        assert !Matches(c, r);
      }
    }
    assert multiset(kept) == multiset{};
  }

  /** The initial bounds of the two date widgets: the earliest and the latest date in the data. */
  function DefaultCriteria(rows: seq<Row>): (c: Option<Criteria>)
    ensures c.Some? <==> rows != []
    ensures c.Some? ==> forall r :: r in rows ==> InWindow(c.value.start, c.value.end, r.date)
    ensures c.Some? ==> exists r :: r in rows && r.date == c.value.start
    ensures c.Some? ==> exists r :: r in rows && r.date == c.value.end
    ensures c.Some? ==> c.value.airport == ALL && c.value.airline == ALL && c.value.movement == ALL
  {
    if rows == [] then None
    else
      var dates := seq(|rows|, i requires 0 <= i < |rows| => rows[i].date);
      var lo, hi := Earliest(dates), Latest(dates);
      assert forall r :: r in rows ==> r.date in dates by {
        forall r | r in rows ensures r.date in dates {
          var i :| 0 <= i < |rows| && rows[i] == r;
          assert dates[i] == r.date;
        }
      }
      assert exists i :: 0 <= i < |rows| && rows[i].date == lo by {
        var i :| 0 <= i < |dates| && dates[i] == lo;
      }
      assert exists i :: 0 <= i < |rows| && rows[i].date == hi by {
        var i :| 0 <= i < |dates| && dates[i] == hi;
      }
      Some(Criteria(lo, hi, ALL, ALL, ALL))
  }

  /** With the initial selection (full date range, every selector 'Todos') the filter returns the rows unchanged. */
  lemma DefaultFilterKeepsAll(rows: seq<Row>)
    requires rows != []
    ensures Filter(rows, DefaultCriteria(rows).value) == rows
  {
    var c := DefaultCriteria(rows).value;
    AllSelectorsOff(rows, c);
    forall r | r in rows ensures PassesAll(r, [Window(c.start, c.end)]) {
      assert Passes(r, [Window(c.start, c.end)][0]);
    }
    SiftKeepsAll(rows, [Window(c.start, c.end)]);
  }
}
