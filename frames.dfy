/** An abstract pandas DataFrame: an optional index name, the column labels in
    order, and one row per index entry holding the row's index key and its
    cells keyed by column label. */
module Frames {
  import opened Wrappers
  import Dates

  /** A cell value. Prices and volumes are floats or integers in the source;
      here they are uninterpreted tokens. */
  datatype Cell =
      /** A pandas Timestamp: its calendar date plus a time-of-day/zone part
          that the date formatting discards. */
    | Stamp(date: Dates.CalendarDate, clock: int)
    | Text(text: string)
    | Num(token: int)

  /** One row as the warehouse receives it: column label to cell. */
  type Record = map<string, Cell>

  datatype Row = Row(key: Cell, cells: Record)

  datatype Frame = Frame(indexName: Option<string>, columns: seq<string>, rows: seq<Row>)

  predicate Distinct(s: seq<string>) {
    forall i, j :: 0 <= i < j < |s| ==> s[i] != s[j]
  }

  /** The row has a cell for each of the columns and for nothing else. */
  predicate FitsColumns(cells: Record, columns: seq<string>) {
    && (forall c :: c in cells ==> c in columns)
    && (forall c :: c in columns ==> c in cells)
  }

  /** The shape assumed of every frame the provider returns: its column labels
      are unique and every row has exactly one cell per column. pandas itself
      allows repeated labels; such frames are outside this model. */
  predicate WellFormed(f: Frame) {
    && Distinct(f.columns)
    && forall i :: 0 <= i < |f.rows| ==> FitsColumns(f.rows[i].cells, f.columns)
  }

  /** `DataFrame.empty`: true when either axis has length zero. */
  predicate IsEmpty(f: Frame) {
    |f.rows| == 0 || |f.columns| == 0
  }

  /** For a well-formed frame, being empty is exactly holding no cell at all. */
  lemma IsEmptyNoCells(f: Frame)
    requires WellFormed(f)
    ensures IsEmpty(f) <==> forall i :: 0 <= i < |f.rows| ==> f.rows[i].cells == map[]
  {
    if |f.rows| > 0 && |f.columns| > 0 {
      assert f.columns[0] in f.rows[0].cells;
    }
  }

  /** The rows a load job writes, in frame order. */
  function Records(f: Frame): (rs: seq<Record>)
    ensures |rs| == |f.rows|
    ensures forall i :: 0 <= i < |rs| ==> rs[i] == f.rows[i].cells
  {
    seq(|f.rows|, i requires 0 <= i < |f.rows| => f.rows[i].cells)
  }
}
