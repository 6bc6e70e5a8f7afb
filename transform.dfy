/** The transformer, `process_data` (stock_pipeline.py:66-80): promote the
    index to a column, rewrite Date as `YYYY-MM-DD` text, check the required
    columns and project onto them. */
module Transform {
  import opened Wrappers
  import opened Errors
  import opened Frames
  import Dates

  /** The normalised schema, in its fixed order. */
  const Required: seq<string> := ["Date", "Open", "High", "Low", "Close", "Volume"]

  /** The label `reset_index` gives the promoted index: its name, or "index"
      (or "level_0" when "index" is already taken) for an unnamed index. */
  function IndexLabel(f: Frame): (l: string)
    ensures f.indexName.Some? ==> l == f.indexName.value
    ensures f.indexName.None? ==> (l == "index" || l == "level_0")
    ensures f.indexName.None? ==> (l == "index" <==> "index" !in f.columns)
  {
    match f.indexName
    case Some(n) => n
    case None => if "index" in f.columns then "level_0" else "index"
  }

  /** `df.reset_index()`: the index becomes the first column and the frame gets
      a fresh positional index. */
  function ResetIndex(f: Frame): (r: Result<Frame, Error>)
    requires WellFormed(f)
    ensures r.Err? <==> IndexLabel(f) in f.columns
    ensures r.Err? ==> r.error == IndexCollision(IndexLabel(f))
    ensures r.Ok? ==> && WellFormed(r.value)
                      && r.value.indexName == None
                      && r.value.columns == [IndexLabel(f)] + f.columns
                      && |r.value.rows| == |f.rows|
    ensures r.Ok? ==> forall i :: 0 <= i < |f.rows| ==>
                        && r.value.rows[i].cells[IndexLabel(f)] == f.rows[i].key
                        && forall c :: c in f.columns ==> r.value.rows[i].cells[c] == f.rows[i].cells[c]
  {
    var name := IndexLabel(f);
    if name in f.columns then
      Err(IndexCollision(name))
    else
      var g := Frame(None, [name] + f.columns,
                     seq(|f.rows|, i requires 0 <= i < |f.rows| =>
                           Row(Num(i), f.rows[i].cells[name := f.rows[i].key])));
      assert WellFormed(g) by {
        forall i | 0 <= i < |g.rows|
          ensures FitsColumns(g.rows[i].cells, g.columns)
        {
          assert FitsColumns(f.rows[i].cells, f.columns);
        }
      }
      Ok(g)
  }

  /** `pd.to_datetime` on one cell: a Timestamp keeps its date, canonical ISO
      text is parsed, anything else cannot be converted. */
  function ToDatetime(c: Cell): (r: Option<Dates.CalendarDate>)
    ensures c.Stamp? ==> r == Some(c.date)
    ensures c.Num? ==> r.None?
    ensures c.Text? && r.Some? ==> Dates.FormatIso(r.value) == c.text
  {
    match c
    case Stamp(d, _) => Some(d)
    case Text(s) =>
      if Dates.ParseIso(s).Some? then Dates.FormatParseIso(s); Dates.ParseIso(s) else None
    case Num(_) => None
  }

  /** Text converts to a date exactly when it is that date's `YYYY-MM-DD` form. */
  lemma ToDatetimeText(s: string, d: Dates.CalendarDate)
    ensures ToDatetime(Text(s)) == Some(d) <==> s == Dates.FormatIso(d)
  {
    if s == Dates.FormatIso(d) {
      Dates.ParseFormatIso(d);
    }
  }

  /** One row of `df['Date'] = pd.to_datetime(df['Date']).dt.strftime('%Y-%m-%d')`:
      the Date cell becomes the text of the same calendar date. */
  function FormatRow(row: Row): (r: Row)
    requires "Date" in row.cells && ToDatetime(row.cells["Date"]).Some?
    ensures r.key == row.key && r.cells.Keys == row.cells.Keys
    ensures r.cells["Date"].Text? && ToDatetime(r.cells["Date"]) == ToDatetime(row.cells["Date"])
    ensures forall c :: c in row.cells && c != "Date" ==> r.cells[c] == row.cells[c]
  {
    var d := ToDatetime(row.cells["Date"]).value;
    Dates.ParseFormatIso(d);
    Row(row.key, row.cells["Date" := Text(Dates.FormatIso(d))])
  }

  /** `df['Date'] = pd.to_datetime(df['Date']).dt.strftime('%Y-%m-%d')`: fails
      if any Date cell is not a date. */
  function FormatDates(f: Frame): (r: Result<Frame, Error>)
    requires WellFormed(f) && "Date" in f.columns
    ensures r.Err? <==> exists i :: 0 <= i < |f.rows| && ToDatetime(f.rows[i].cells["Date"]).None?
    ensures r.Err? ==> r.error == DateConversion
    ensures r.Ok? ==> && WellFormed(r.value)
                      && r.value.indexName == f.indexName
                      && r.value.columns == f.columns
                      && |r.value.rows| == |f.rows|
    ensures r.Ok? ==> forall i :: 0 <= i < |f.rows| ==>
                        && r.value.rows[i].key == f.rows[i].key
                        && r.value.rows[i].cells["Date"].Text?
                        && ToDatetime(r.value.rows[i].cells["Date"]) == ToDatetime(f.rows[i].cells["Date"])
                        && forall c :: c in f.columns && c != "Date" ==> r.value.rows[i].cells[c] == f.rows[i].cells[c]
  {
    if forall i | 0 <= i < |f.rows| :: ToDatetime(f.rows[i].cells["Date"]).Some? then
      var g := f.(rows := seq(|f.rows|, i requires 0 <= i < |f.rows| => FormatRow(f.rows[i])));
      assert forall i :: 0 <= i < |g.rows| ==> g.rows[i] == FormatRow(f.rows[i]);
      Ok(g)
    else
      Err(DateConversion)
  }

  /** `[col for col in required if col not in columns]`: exactly the required
      names that are absent. */
  function MissingFrom(required: seq<string>, columns: seq<string>): (m: seq<string>)
    ensures forall x :: x in m <==> x in required && x !in columns
  {
    if required == [] then []
    else
      assert required == [required[0]] + required[1..];
      (if required[0] in columns then [] else [required[0]]) + MissingFrom(required[1..], columns)
  }

  lemma NoneMissing(required: seq<string>, columns: seq<string>)
    requires forall c :: c in required ==> c in columns
    ensures MissingFrom(required, columns) == []
  {
  }

  /** `m` can be obtained from `s` by deleting elements: it keeps the order of `s`. */
  predicate IsSubsequence(m: seq<string>, s: seq<string>) {
    if m == [] then true
    else if s == [] then false
    else if m[0] == s[0] then IsSubsequence(m[1..], s[1..])
    else IsSubsequence(m, s[1..])
  }

  /** The reported names keep the order of the required list. */
  lemma {:induction false} MissingFromOrdered(required: seq<string>, columns: seq<string>)
    ensures IsSubsequence(MissingFrom(required, columns), required)
  {
    if required != [] {
      var m := MissingFrom(required, columns);
      var mt := MissingFrom(required[1..], columns);
      MissingFromOrdered(required[1..], columns);
      if required[0] in columns {
        assert m == mt;
        SubsequenceOfTail(mt, required);
      } else {
        assert m == [required[0]] + mt;
        assert m[1..] == mt;
      }
    }
  }

  lemma {:induction false} SubsequenceOfTail(m: seq<string>, s: seq<string>)
    requires |s| > 0 && IsSubsequence(m, s[1..])
    ensures IsSubsequence(m, s)
  {
    if m != [] && m[0] == s[0] {
      // m[1..] is a subsequence of s[1..] because m is
      SubsequenceDrop(m, s[1..]);
    }
  }

  lemma {:induction false} SubsequenceDrop(m: seq<string>, s: seq<string>)
    requires m != [] && IsSubsequence(m, s)
    ensures IsSubsequence(m[1..], s)
  {
    if m[0] == s[0] {
      SubsequenceOfTail(m[1..], s);
    } else {
      SubsequenceDrop(m, s[1..]);
      SubsequenceOfTail(m[1..], s);
    }
  }

  /** `df[required]`: only the required columns, in the required order. */
  function Project(f: Frame): (r: Frame)
    requires WellFormed(f)
    requires forall c :: c in Required ==> c in f.columns
    ensures WellFormed(r) && r.indexName == f.indexName && r.columns == Required && |r.rows| == |f.rows|
    ensures forall i :: 0 <= i < |f.rows| ==>
              && r.rows[i].key == f.rows[i].key
              && forall c :: c in Required ==> r.rows[i].cells[c] == f.rows[i].cells[c]
  {
    var r := f.(columns := Required,
                rows := seq(|f.rows|, i requires 0 <= i < |f.rows| =>
                              Row(f.rows[i].key, map c | c in Required :: f.rows[i].cells[c])));
    assert Distinct(Required);
    r
  }

  /** `process_data(df)`, with `None` as `df.None?`. */
  function ProcessData(df: Option<Frame>): (r: Result<Frame, Error>)
    requires df.Some? ==> WellFormed(df.value)
    ensures (r == Err(NoDataToProcess)) <==> (df.None? || IsEmpty(df.value))
    ensures r.Ok? ==> && WellFormed(r.value)
                      && r.value.columns == Required
                      && |r.value.rows| == |df.value.rows|
    ensures r.Ok? ==> forall i :: 0 <= i < |r.value.rows| ==>
                        && r.value.rows[i].cells["Date"].Text?
                        && Dates.ParseIso(r.value.rows[i].cells["Date"].text).Some?
    ensures r.Err? && r.error.MissingColumns? ==>
              && r.error.missing != []
              && "Date" !in r.error.missing
              && (forall c :: c in r.error.missing ==> c in Required)
              && IsSubsequence(r.error.missing, Required)
  {
    if df.None? || IsEmpty(df.value) then
      Err(NoDataToProcess)
    else
      match ResetIndex(df.value)
      case Err(e) => Err(e)
      case Ok(g) =>
        if "Date" !in g.columns then
          Err(ColumnNotFound("Date"))
        else
          match FormatDates(g)
          case Err(e) => Err(e)
          case Ok(h) =>
            var missing := MissingFrom(Required, h.columns);
            if missing != [] then
              MissingFromOrdered(Required, h.columns);
              Err(MissingColumns(missing))
            else
              Ok(Project(h))
  }

  /** A frame as the market-data provider returns it: the index holds the
      session timestamps and is named Date, and Date is not also a column. */
  predicate ProviderShaped(f: Frame) {
    && WellFormed(f)
    && f.indexName == Some("Date")
    && "Date" !in f.columns
    && forall i :: 0 <= i < |f.rows| ==> f.rows[i].key.Stamp?
  }

  /** With all five value columns present, each output row is the session's
      date as `YYYY-MM-DD` text followed by its Open/High/Low/Close/Volume
      cells, and nothing else. */
  lemma ProcessProviderFrame(f: Frame)
    requires ProviderShaped(f) && !IsEmpty(f)
    requires forall c :: c in Required[1..] ==> c in f.columns
    ensures ProcessData(Some(f)).Ok?
    ensures var out := ProcessData(Some(f)).value;
            && out.columns == Required
            && |out.rows| == |f.rows|
            && forall i :: 0 <= i < |f.rows| ==>
                 && FitsColumns(out.rows[i].cells, Required)
                 && out.rows[i].cells["Date"] == Text(Dates.FormatIso(f.rows[i].key.date))
                 && forall c :: c in Required[1..] ==> out.rows[i].cells[c] == f.rows[i].cells[c]
  {
    var g := ResetIndex(f).value;
    assert "Date" in g.columns;
    var h := FormatDates(g).value;
    assert h.columns == ["Date"] + f.columns;
    assert forall c :: c in Required ==> c in h.columns;
    NoneMissing(Required, h.columns);
    var out := ProcessData(Some(f)).value;
    assert out == Project(h);
    forall i | 0 <= i < |f.rows|
      ensures FitsColumns(out.rows[i].cells, Required)
      ensures out.rows[i].cells["Date"] == Text(Dates.FormatIso(f.rows[i].key.date))
    {
      Dates.FormatParseIso(h.rows[i].cells["Date"].text);
    }
  }

  /** The record a provider row becomes once processed: its date as text
      under "Date", its value cells under their own labels. */
  function NormalRecord(row: Row): Record
    requires row.key.Stamp?
    requires forall c :: c in Required[1..] ==> c in row.cells
  {
    map c | c in Required :: if c == "Date" then Text(Dates.FormatIso(row.key.date)) else row.cells[c]
  }

  /** The cells of the normalised record, label by label. */
  lemma NormalRecordCells(row: Row)
    requires row.key.Stamp?
    requires forall c :: c in Required[1..] ==> c in row.cells
    ensures FitsColumns(NormalRecord(row), Required)
    ensures NormalRecord(row)["Date"] == Text(Dates.FormatIso(row.key.date))
    ensures forall k :: 1 <= k < |Required| ==> NormalRecord(row)[Required[k]] == row.cells[Required[k]]
  {
  }

  lemma NormalRecordExt(cells: Record, row: Row)
    requires row.key.Stamp?
    requires forall c :: c in Required[1..] ==> c in row.cells
    requires FitsColumns(cells, Required)
    requires cells["Date"] == Text(Dates.FormatIso(row.key.date))
    requires forall c :: c in Required[1..] ==> cells[c] == row.cells[c]
    ensures cells == NormalRecord(row)
  {
    var n := NormalRecord(row);
    forall c | c in cells
      ensures c in n && cells[c] == n[c]
    {
      assert c in Required;
      if c != "Date" {
        assert c in Required[1..];
      }
    }
  }

  /** The records processing hands to the loader, row by row. */
  lemma ProcessedRecords(f: Frame)
    requires ProviderShaped(f) && !IsEmpty(f)
    requires forall c :: c in Required[1..] ==> c in f.columns
    ensures ProcessData(Some(f)).Ok?
    ensures var rs := Records(ProcessData(Some(f)).value);
            && |rs| == |f.rows|
            && forall i :: 0 <= i < |f.rows| ==> rs[i] == NormalRecord(f.rows[i])
  {
    ProcessProviderFrame(f);
    var rs := Records(ProcessData(Some(f)).value);
    forall i | 0 <= i < |f.rows|
      ensures rs[i] == NormalRecord(f.rows[i])
    {
      NormalRecordExt(rs[i], f.rows[i]);
    }
  }

  /** With some value column absent, processing fails naming exactly the
      absent value columns, in the required order. */
  lemma ProcessReportsMissing(f: Frame)
    requires ProviderShaped(f) && !IsEmpty(f)
    requires exists c :: c in Required[1..] && c !in f.columns
    ensures var r := ProcessData(Some(f));
            && r.Err? && r.error.MissingColumns?
            && (forall c :: c in r.error.missing <==> c in Required[1..] && c !in f.columns)
            && IsSubsequence(r.error.missing, Required)
  {
    var g := ResetIndex(f).value;
    assert "Date" in g.columns;
    var h := FormatDates(g).value;
    assert h.columns == ["Date"] + f.columns;
    var c :| c in Required[1..] && c !in f.columns;
    var m := MissingFrom(Required, h.columns);
    assert c in m;
    assert ProcessData(Some(f)) == Err(MissingColumns(m));
    forall x
      ensures x in m <==> x in Required[1..] && x !in f.columns
    {
      assert x in Required <==> x == "Date" || x in Required[1..];
    }
  }
}
