/**
 * Flight-movement rows and the load step that turns the text rows of the movement log
 * into dated rows with their two derived bucket columns.
 */
module Flights {
  import opened Results
  import opened Calendar
  import opened DateText
  import opened Buckets

  /**
   * One row of the movement log as read from the file: the `Fecha UTC` text, then
   * `Aeropuerto`, `Aerolinea Nombre`, `Tipo de Movimiento` and `PAX` (absent counts as 0).
   */
  datatype RawRow = RawRow(fecha: string, airport: string, airline: string, movement: string, pax: nat)

  /** A loaded row: the parsed date with its `YearMonth` and `Quarter` columns beside it. */
  datatype Row = Row(
    date: Date,
    yearMonth: string,
    quarter: Quarter,
    airport: string,
    airline: string,
    movement: string,
    pax: nat)

  /** The derived columns are the buckets of the row's own date. */
  predicate WellFormed(r: Row) {
    && ValidDate(r.date)
    && r.yearMonth == MonthBucket(r.date)
    && r.quarter == QuarterOf(r.date)
  }

  /** `row` is what loading `raw` produces: its date parsed, its buckets derived, every other column kept. */
  predicate LoadedFrom(raw: RawRow, row: Row) {
    && ParseDate(raw.fecha) == Ok(row.date)
    && row.yearMonth == MonthBucket(row.date)
    && row.quarter == QuarterOf(row.date)
    && row.airport == raw.airport
    && row.airline == raw.airline
    && row.movement == raw.movement
    && row.pax == raw.pax
  }

  /** The load failed at the row with this index, for this reason. */
  datatype LoadError = LoadError(row: nat, cause: DateError)

  /**
   * Parses `Fecha UTC` of every row and adds the `YearMonth` and `Quarter` columns.
   * The first row whose date does not parse aborts the whole load: no row is skipped.
   */
  method Load(raw: seq<RawRow>) returns (res: Result<seq<Row>, LoadError>)
    ensures res.Ok? <==> forall i :: 0 <= i < |raw| ==> ParseDate(raw[i].fecha).Ok?
    ensures res.Ok? ==> |res.value| == |raw|
    ensures res.Ok? ==> forall i :: 0 <= i < |raw| ==> LoadedFrom(raw[i], res.value[i])
    ensures res.Err? ==> && res.error.row < |raw|
                         && ParseDate(raw[res.error.row].fecha) == Err(res.error.cause)
                         && forall i :: 0 <= i < res.error.row ==> ParseDate(raw[i].fecha).Ok?
  {
    var rows: seq<Row> := [];
    var i := 0;
    while i < |raw|
      invariant 0 <= i <= |raw|
      invariant |rows| == i
      invariant forall k :: 0 <= k < i ==> LoadedFrom(raw[k], rows[k])
    {
      var parsed := ParseDate(raw[i].fecha);
      if parsed.Err? {
        return Err(LoadError(i, parsed.error));
      }
      var d := parsed.value;
      rows := rows + [Row(d, MonthBucket(d), QuarterOf(d), raw[i].airport, raw[i].airline, raw[i].movement, raw[i].pax)];
      i := i + 1;
    }
    return Ok(rows);
  }

  /** Every loaded row carries a real date and the buckets of that date. */
  lemma LoadedIsWellFormed(raw: RawRow, row: Row)
    requires LoadedFrom(raw, row)
    ensures WellFormed(row)
  {
  }
}
