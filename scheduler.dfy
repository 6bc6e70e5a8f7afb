/** `main` (stock_pipeline.py:105-125) and the `while True` loop around it
    (lines 127-131). One cycle chains fetch, process and upload, stops at the
    first exception, prints it and re-raises it; because nothing catches the
    re-raised exception, the outer loop ends with the first failing cycle.
    The loop is modelled over a finite sequence of cycle environments: it ends
    either at the first failing cycle or when the environments run out. */
module Scheduler {
  import opened Wrappers
  import opened Errors
  import opened Frames
  import Fetch
  import Transform
  import Load

  /** The pause after each completed cycle, in seconds. */
  const CycleWait: nat := 60

  /** The steps of `main`, in the order they are entered. */
  datatype Step = Fetching | Processing | Uploading

  /** What the outside world does during one cycle: the provider's responses
      and the live upload's load job. */
  datatype Environment = Environment(responses: seq<Fetch.Response>, job: Load.JobOutcome)

  /** The provider answers at least the three attempts, with DataFrames. */
  predicate Supplied(env: Environment) {
    && Fetch.MaxRetries <= |env.responses|
    && forall i :: 0 <= i < |env.responses| && env.responses[i].Returned? ==> WellFormed(env.responses[i].data)
  }

  /** A frame the fetch returns is one the provider returned, so it is well formed. */
  lemma FetchedWellFormed(env: Environment)
    requires Supplied(env)
    ensures var r := Fetch.FetchFrom(env.responses, 0).result;
            r.Ok? ==> WellFormed(r.value) && !IsEmpty(r.value)
  {
    Fetch.FetchRunShape(env.responses, 0);
  }

  /** One run of `main`: the new table or the re-raised error, the steps
      entered and the pauses taken. */
  datatype Cycle = Cycle(result: Result<seq<Record>, Error>, steps: seq<Step>, delays: seq<nat>)

  /** The cycle `main` runs against warehouse table `table`. */
  function CycleOf(table: seq<Record>, env: Environment): Cycle
    requires Supplied(env)
  {
    var fetched := Fetch.FetchFrom(env.responses, 0);
    FetchedWellFormed(env);
    match fetched.result
    case Err(e) => Cycle(Err(e), [Fetching], fetched.delays)
    case Ok(raw) =>
      match Transform.ProcessData(Some(raw))
      case Err(e) => Cycle(Err(e), [Fetching, Processing], fetched.delays)
      case Ok(clean) => Cycle(Load.Upload(table, Some(clean), env.job), [Fetching, Processing, Uploading], fetched.delays)
  }

  /** `main()`. */
  method RunCycle(table: seq<Record>, env: Environment) returns (r: Result<seq<Record>, Error>, steps: seq<Step>, delays: seq<nat>)
    requires Supplied(env)
    ensures Cycle(r, steps, delays) == CycleOf(table, env)
  {
    FetchedWellFormed(env);
    steps := [Fetching];
    var fetched, pauses, attempts := Fetch.FetchStockData(env.responses);
    delays := pauses;
    match fetched {
      case Err(e) =>
        r := Err(e);
      case Ok(raw) =>
        steps := steps + [Processing];
        match Transform.ProcessData(Some(raw)) {
          case Err(e) =>
            r := Err(e);
          case Ok(clean) =>
            steps := steps + [Uploading];
            r := Load.Upload(table, Some(clean), env.job);
        }
    }
  }

  /** Processing is entered exactly when the fetch succeeded, uploading exactly
      when processing succeeded too, and a failing cycle re-raises the error of
      the step it stopped at, unchanged. */
  lemma CycleShortCircuits(table: seq<Record>, env: Environment)
    requires Supplied(env)
    ensures var c := CycleOf(table, env);
            var fetched := Fetch.FetchFrom(env.responses, 0).result;
            && c.steps[0] == Fetching
            && (Processing in c.steps <==> fetched.Ok?)
            && (Uploading in c.steps <==> fetched.Ok? && Transform.ProcessData(Some(fetched.value)).Ok?)
            && (fetched.Err? ==> c.result == Err(fetched.error))
            && (fetched.Ok? && Transform.ProcessData(Some(fetched.value)).Err? ==>
                  c.result == Err(Transform.ProcessData(Some(fetched.value)).error))
            && (Uploading in c.steps ==>
                  c.result == Load.Upload(table, Some(Transform.ProcessData(Some(fetched.value)).value), env.job))
  {
    FetchedWellFormed(env);
  }

  /** A cycle only ever appends to the table, and what it appends are rows of
      the six-column schema. */
  lemma CycleAppendsNormalRows(table: seq<Record>, env: Environment)
    requires Supplied(env)
    ensures var r := CycleOf(table, env).result;
            r.Ok? ==> && table <= r.value
                      && |r.value| > |table|
                      && forall i :: |table| <= i < |r.value| ==> FitsColumns(r.value[i], Transform.Required)
  {
    FetchedWellFormed(env);
  }

  predicate AllSupplied(envs: seq<Environment>) {
    forall i :: 0 <= i < |envs| ==> Supplied(envs[i])
  }

  /** A cycle pauses only inside its fetch. */
  lemma CycleDelays(table: seq<Record>, env: Environment)
    requires Supplied(env)
    ensures CycleOf(table, env).delays == Fetch.FetchFrom(env.responses, 0).delays
  {
  }

  /** The pauses of the first `n` cycles when all of them complete: each
      cycle's own pauses, which are those of its fetch, then the one-minute
      wait. */
  function SleepLog(envs: seq<Environment>, n: nat): seq<nat>
    requires n <= |envs| && AllSupplied(envs)
  {
    if n == 0 then [] else SleepLog(envs, n - 1) + Fetch.FetchFrom(envs[n - 1].responses, 0).delays + [CycleWait]
  }

  /** Completing cycle `n` after pausing `delays` extends the log with those
      pauses and the one-minute wait. */
  lemma SleepLogSnoc(envs: seq<Environment>, n: nat, delays: seq<nat>)
    requires n < |envs| && AllSupplied(envs)
    requires delays == Fetch.FetchFrom(envs[n].responses, 0).delays
    ensures SleepLog(envs, n) + delays + [CycleWait] == SleepLog(envs, n + 1)
  {
  }

  /** `tables` is the history of `n` completed cycles started on `table`:
      cycle `i` turned `tables[i]` into `tables[i + 1]`. */
  predicate History(table: seq<Record>, envs: seq<Environment>, tables: seq<seq<Record>>, n: nat)
    requires AllSupplied(envs)
  {
    && n <= |envs|
    && |tables| == n + 1
    && tables[0] == table
    && forall i :: 0 <= i < n ==> CycleOf(tables[i], envs[i]).result == Ok(tables[i + 1])
  }

  lemma HistoryStep(table: seq<Record>, envs: seq<Environment>, tables: seq<seq<Record>>, n: nat, t: seq<Record>)
    requires AllSupplied(envs) && History(table, envs, tables, n) && n < |envs|
    requires CycleOf(tables[n], envs[n]).result == Ok(t)
    ensures History(table, envs, tables + [t], n + 1)
  {
    var ts := tables + [t];
    forall i | 0 <= i < n + 1
      ensures CycleOf(ts[i], envs[i]).result == Ok(ts[i + 1])
    {
      if i < n {
        assert ts[i] == tables[i] && ts[i + 1] == tables[i + 1];
      }
    }
  }

  /** Along a history the table is only ever appended to, and only with rows
      of the six-column schema. */
  lemma {:induction false} HistoryAppends(table: seq<Record>, envs: seq<Environment>, tables: seq<seq<Record>>, n: nat)
    requires AllSupplied(envs) && History(table, envs, tables, n)
    ensures table <= tables[n]
    ensures forall i :: |table| <= i < |tables[n]| ==> FitsColumns(tables[n][i], Transform.Required)
  {
    if n > 0 {
      var prefix := tables[..n];
      assert History(table, envs, prefix, n - 1) by {
        forall i | 0 <= i < n - 1
          ensures CycleOf(prefix[i], envs[i]).result == Ok(prefix[i + 1])
        {
          assert prefix[i] == tables[i] && prefix[i + 1] == tables[i + 1];
        }
      }
      HistoryAppends(table, envs, prefix, n - 1);
      var prev := tables[n - 1];
      assert prefix[n - 1] == prev;
      CycleAppendsNormalRows(prev, envs[n - 1]);
      assert table <= prev <= tables[n];
      forall i | |table| <= i < |tables[n]|
        ensures FitsColumns(tables[n][i], Transform.Required)
      {
        if i < |prev| {
          assert tables[n][i] == prev[i];
        }
      }
    }
  }

  /** `while True: main(); print(...); time.sleep(60)`, run over `envs`.
      The loop stops at the first failing cycle: the cycles before index
      `completed` all completed, each turning `tables[i]` into `tables[i + 1]`;
      if a failure is reported, cycle `completed` raised it against the table
      the earlier cycles left; otherwise every environment was used. The table
      is only ever appended to, only with six-column rows. The pauses are, in
      order, each completed cycle's own followed by the one-minute wait, then
      the failing cycle's own, with no wait after them. */
  method RunScheduler(table: seq<Record>, envs: seq<Environment>)
    returns (final: seq<Record>, completed: nat, failure: Option<Error>, sleeps: seq<nat>, ghost tables: seq<seq<Record>>)
    requires AllSupplied(envs)
    ensures completed <= |envs|
    ensures failure.None? <==> completed == |envs|
    ensures |tables| == completed + 1 && tables[0] == table && tables[completed] == final
    ensures forall i :: 0 <= i < completed ==> CycleOf(tables[i], envs[i]).result == Ok(tables[i + 1])
    ensures failure.Some? ==> CycleOf(final, envs[completed]).result == Err(failure.value)
    ensures table <= final
    ensures forall i :: |table| <= i < |final| ==> FitsColumns(final[i], Transform.Required)
    ensures failure.None? ==> sleeps == SleepLog(envs, completed)
    ensures failure.Some? ==> sleeps == SleepLog(envs, completed) + Fetch.FetchFrom(envs[completed].responses, 0).delays
  {
    final, completed, failure, sleeps, tables := table, 0, None, [], [table];
    while completed < |envs| && failure.None?
      invariant History(table, envs, tables, completed)
      invariant final == tables[completed]
      invariant failure.Some? ==> completed < |envs| && CycleOf(final, envs[completed]).result == Err(failure.value)
      invariant failure.None? ==> sleeps == SleepLog(envs, completed)
      invariant failure.Some? ==> sleeps == SleepLog(envs, completed) + Fetch.FetchFrom(envs[completed].responses, 0).delays
      decreases |envs| - completed, if failure.None? then 1 else 0
    {
      var r, steps, delays := RunCycle(final, envs[completed]);
      CycleDelays(final, envs[completed]);
      assert r == CycleOf(final, envs[completed]).result;
      if r.Err? {
        failure := Some(r.error);
        sleeps := sleeps + delays;
      } else {
        var t := r.value;
        HistoryStep(table, envs, tables, completed, t);
        SleepLogSnoc(envs, completed, delays);
        sleeps := sleeps + delays + [CycleWait];
        final := t;
        tables := tables + [t];
        completed := completed + 1;
      }
    }
    HistoryAppends(table, envs, tables, completed);
  }

  /** One session dated 2024-05-01 with the given Open, High, Low, Close and
      Volume cells, as the provider returns it, with its extra Dividends and
      Stock Splits columns. */
  function ExampleFrame(open: Cell, high: Cell, low: Cell, close: Cell, volume: Cell): Frame {
    Frame(Some("Date"),
          ["Open", "High", "Low", "Close", "Volume", "Dividends", "Stock Splits"],
          [Row(Stamp(Dates.Date(2024, 5, 1), 0),
               map["Dividends" := Num(0), "Stock Splits" := Num(0), "Open" := open,
                   "High" := high, "Low" := low, "Close" := close, "Volume" := volume])])
  }

  lemma ExampleFrameShape(open: Cell, high: Cell, low: Cell, close: Cell, volume: Cell)
    ensures var f := ExampleFrame(open, high, low, close, volume);
            && Transform.ProviderShaped(f) && !IsEmpty(f)
            && forall c :: c in Transform.Required[1..] ==> c in f.columns
  {
    var f := ExampleFrame(open, high, low, close, volume);
    assert Distinct(f.columns);
    assert FitsColumns(f.rows[0].cells, f.columns);
  }

  /** `rec` is the example session in the six-column schema: the date as
      text, then the given cells. */
  predicate ExampleRecord(rec: Record, open: Cell, high: Cell, low: Cell, close: Cell, volume: Cell) {
    && FitsColumns(rec, Transform.Required)
    && rec["Date"] == Text("2024-05-01")
    && rec["Open"] == open && rec["High"] == high && rec["Low"] == low
    && rec["Close"] == close && rec["Volume"] == volume
  }

  /** The cells of the example row. */
  lemma ExampleRow(open: Cell, high: Cell, low: Cell, close: Cell, volume: Cell)
    ensures var row := ExampleFrame(open, high, low, close, volume).rows[0];
            && row.key.Stamp? && row.key.date == Dates.Date(2024, 5, 1)
            && (forall c :: c in Transform.Required[1..] ==> c in row.cells)
            && row.cells["Open"] == open && row.cells["High"] == high && row.cells["Low"] == low
            && row.cells["Close"] == close && row.cells["Volume"] == volume
  {
    var row := ExampleFrame(open, high, low, close, volume).rows[0];
    forall c | c in Transform.Required[1..]
      ensures c in row.cells
    {
      assert c in Transform.Required;
    }
  }

  /** A provider row dated 2024-05-01 becomes the example record. */
  lemma ExampleNormalRecord(row: Row, open: Cell, high: Cell, low: Cell, close: Cell, volume: Cell)
    requires row.key.Stamp? && row.key.date == Dates.Date(2024, 5, 1)
    requires forall c :: c in Transform.Required[1..] ==> c in row.cells
    requires row.cells["Open"] == open && row.cells["High"] == high && row.cells["Low"] == low
    requires row.cells["Close"] == close && row.cells["Volume"] == volume
    ensures ExampleRecord(Transform.NormalRecord(row), open, high, low, close, volume)
  {
    Transform.NormalRecordCells(row);
    Dates.FormatIsoExample();
    var req := Transform.Required;
    assert req[1] == "Open" && req[2] == "High" && req[3] == "Low" && req[4] == "Close" && req[5] == "Volume";
  }

  /** The example session as the transformer leaves it: one six-column row. */
  lemma ExampleProcessed(open: Cell, high: Cell, low: Cell, close: Cell, volume: Cell)
    ensures var p := Transform.ProcessData(Some(ExampleFrame(open, high, low, close, volume)));
            && p.Ok?
            && |Records(p.value)| == 1
            && ExampleRecord(Records(p.value)[0], open, high, low, close, volume)
  {
    ExampleFrameShape(open, high, low, close, volume);
    Transform.ProcessedRecords(ExampleFrame(open, high, low, close, volume));
    ExampleRow(open, high, low, close, volume);
    ExampleNormalRecord(ExampleFrame(open, high, low, close, volume).rows[0], open, high, low, close, volume);
  }

  /** That session goes through one cycle (the first fetch attempt succeeds, the
      load job completes) as the single row (2024-05-01, Open, High, Low,
      Close, Volume) appended to the table. */
  lemma EndToEndExample(table: seq<Record>, open: Cell, high: Cell, low: Cell, close: Cell, volume: Cell, other: Fetch.Response)
    requires !other.Returned?
    ensures var env := Environment([Fetch.Returned(ExampleFrame(open, high, low, close, volume)), other, other], Load.Loaded);
            && Supplied(env)
            && var r := CycleOf(table, env).result;
            && r.Ok?
            && |r.value| == |table| + 1
            && r.value[..|table|] == table
            && ExampleRecord(r.value[|table|], open, high, low, close, volume)
  {
    var raw := ExampleFrame(open, high, low, close, volume);
    var env := Environment([Fetch.Returned(raw), other, other], Load.Loaded);
    ExampleFrameShape(open, high, low, close, volume);
    assert Supplied(env);
    Fetch.FetchFirstSuccess(env.responses, 0);
    ExampleProcessed(open, high, low, close, volume);
    CycleShortCircuits(table, env);
  }
}
