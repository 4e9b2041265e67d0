/**
 The rows of the two indicator tables (GDP and life expectancy), as the CSV
 loader yields them and after the per-row numeric conversion of script.js.
 */
module Rows {
  import opened Options

  /** The number JavaScript's unary `+` makes of a text; its semantics (NaN included) stay abstract. */
  type Num

  /** The key column: the one column the conversion leaves as text. */
  const Country: string := "country"

  /** A row as the CSV loader yields it: column name to cell text. */
  type CsvRow = map<string, string>

  /** What reading one own property of a row object gives; names inherited from the prototype are not modelled. */
  datatype Cell = Text(s: string) | Number(n: Num) | Undefined

  /**
   A converted row: its key (`None` is `undefined`, for a row that had no
   `country` column) and every other column as a number.
   */
  datatype Row = Row(country: Option<string>, years: map<string, Num>)

  /** Reading own property `col` of a loaded row (`undefined` when the row has no such column). */
  function CsvField(d: CsvRow, col: string): Cell {
    if col in d then Text(d[col]) else Undefined
  }

  /** The key of a loaded row, as the join compares it. */
  function CsvCountry(d: CsvRow): Option<string> {
    if Country in d then Some(d[Country]) else None
  }

  /** Reading own property `col` of a converted row (`undefined` when the row has no such column). */
  function Field(r: Row, col: string): Cell {
    if col == Country then
      match r.country
      case Some(s) => Text(s)
      case None => Undefined
    else if col in r.years then Number(r.years[col])
    else Undefined
  }

  /** The own property names of a converted row; the key column is always one of them. */
  function Columns(r: Row): set<string> {
    r.years.Keys + {Country}
  }

  /** The key column is held apart from the numeric columns. */
  predicate WellFormed(r: Row) {
    Country !in r.years
  }

  /**
   Converts one loaded row: the key column keeps its text (and is created,
   holding `undefined`, when the row had none), every other column becomes
   `parse` of its text, and no other column appears.
   */
  function ConvertRow(parse: string -> Num, d: CsvRow): (r: Row)
    ensures WellFormed(r)
    ensures Columns(r) == d.Keys + {Country}
    ensures Field(r, Country) == CsvField(d, Country)
    ensures forall col :: col != Country && col in d ==> Field(r, col) == Number(parse(d[col]))
    ensures forall col :: col !in d ==> Field(r, col) == Undefined
  {
    Row(CsvCountry(d), map col | col in d && col != Country :: parse(d[col]))
  }

  /** Two well-formed rows with the same columns and the same property values are the same row. */
  lemma FieldsDetermineRow(a: Row, b: Row)
    requires WellFormed(a) && WellFormed(b)
    requires Columns(a) == Columns(b)
    requires forall col :: Field(a, col) == Field(b, col)
    ensures a == b
  {
    assert Field(a, Country) == Field(b, Country);
    assert a.country == b.country;
    assert a.years.Keys == b.years.Keys;
    forall col | col in a.years
      ensures a.years[col] == b.years[col]
    {
      assert Field(a, col) == Field(b, col);
    }
  }

  /** Converts every row of a table, keeping the number and order of rows. */
  function ConvertTable(parse: string -> Num, t: seq<CsvRow>): (r: seq<Row>)
    ensures |r| == |t|
    ensures forall i :: 0 <= i < |t| ==> r[i] == ConvertRow(parse, t[i])
  {
    if |t| == 0 then [] else [ConvertRow(parse, t[0])] + ConvertTable(parse, t[1..])
  }

  /** The text-to-number function touches nothing the join reads: the keys do not depend on it. */
  lemma ConvertTableCountriesIndependentOfParse(p: string -> Num, q: string -> Num, t: seq<CsvRow>, i: int)
    requires 0 <= i < |t|
    ensures ConvertTable(p, t)[i].country == ConvertTable(q, t)[i].country
    ensures ConvertTable(p, t)[i].years.Keys == ConvertTable(q, t)[i].years.Keys
  {
  }
}
