/** The loader. stock_pipeline.py defines `upload_to_bigquery` twice; Python
    binds the name to the second definition (lines 82-103), so that is the one
    `main` calls. The first (lines 15-32), which retries on "service
    unavailable", is shadowed and never runs; both are modelled.

    The warehouse table is a sequence of records, passed in and returned; a
    load job either completes and appends every row of the frame, or raises and
    writes nothing. The job is an oracle. */
module Load {
  import opened Wrappers
  import opened Errors
  import opened Frames

  const DefaultMaxRetries: nat := 3
  const BackoffStep: nat := 5

  /** What one `load_table_from_dataframe(...).result()` does. */
  datatype JobOutcome =
    | Loaded
      /** It raised `google.api_core.exceptions.ServiceUnavailable`. */
    | Unavailable(detail: string)
      /** Reading the credentials, building the client or the job raised
          anything else. */
    | Failed(detail: string)

  /** The live `upload_to_bigquery(df, ...)` (lines 82-103): the new table. */
  function Upload(table: seq<Record>, df: Option<Frame>, job: JobOutcome): (r: Result<seq<Record>, Error>)
    ensures (r == Err(NoDataToUpload)) <==> (df.None? || IsEmpty(df.value))
    ensures r.Ok? <==> df.Some? && !IsEmpty(df.value) && job.Loaded?
    ensures r.Ok? ==> && table <= r.value
                      && |r.value| == |table| + |df.value.rows|
                      && forall i :: 0 <= i < |df.value.rows| ==> r.value[|table| + i] == df.value.rows[i].cells
    ensures r.Err? && df.Some? && !IsEmpty(df.value) ==>
              r.error == (if job.Unavailable? then ServiceUnavailable(job.detail) else LoadFailed(job.detail))
  {
    if df.None? || IsEmpty(df.value) then
      Err(NoDataToUpload)
    else
      match job
      case Loaded => Ok(table + Records(df.value))
      case Unavailable(d) => Err(ServiceUnavailable(d))
      case Failed(d) => Err(LoadFailed(d))
  }

  /** An empty frame is refused before credentials, client or job are touched:
      the outcome does not depend on the warehouse at all. */
  lemma UploadRefusesEmptyFirst(table: seq<Record>, table': seq<Record>, df: Option<Frame>, job: JobOutcome, job': JobOutcome)
    requires df.None? || IsEmpty(df.value)
    ensures Upload(table, df, job) == Upload(table', df, job') == Err(NoDataToUpload)
  {
  }

  /** What a run of the retrying upload returns or raises (on success, the new
      table), the pauses it took and the number of load jobs it ran. */
  datatype Run = Run(result: Result<seq<Record>, Error>, delays: seq<nat>, attempts: nat)

  /** The linear backoff after the failed attempts `a` to `a + n - 1`:
      `(attempt + 1) * 5` seconds each. */
  function Backoff(a: nat, n: nat): (s: seq<nat>)
    ensures |s| == n && forall i :: 0 <= i < n ==> s[i] == (a + i + 1) * BackoffStep
  {
    if n == 0 then [] else Backoff(a, n - 1) + [(a + n) * BackoffStep]
  }

  /** The loop of the shadowed `upload_to_bigquery(df, ..., max_retries)` from
      attempt `attempt` on. When the loop runs out (only possible for
      `max_retries == 0`) the function returns without loading anything. */
  function RetryFrom(table: seq<Record>, df: Frame, maxRetries: nat, jobs: seq<JobOutcome>, attempt: nat): Run
    requires attempt <= maxRetries <= |jobs|
    decreases maxRetries - attempt
  {
    if attempt == maxRetries then
      Run(Ok(table), [], 0)
    else
      match jobs[attempt]
      case Loaded => Run(Ok(table + Records(df)), [], 1)
      case Unavailable(d) =>
        if attempt < maxRetries - 1 then
          var rest := RetryFrom(table, df, maxRetries, jobs, attempt + 1);
          Run(rest.result, [(attempt + 1) * BackoffStep] + rest.delays, 1 + rest.attempts)
        else
          Run(Err(ServiceUnavailable(d)), [], 1)
      case Failed(d) => Run(Err(LoadFailed(d)), [], 1)
  }

  /** The shadowed `upload_to_bigquery(df, ..., max_retries)` (lines 15-32). */
  method UploadWithRetry(table: seq<Record>, df: Frame, maxRetries: nat, jobs: seq<JobOutcome>)
    returns (r: Result<seq<Record>, Error>, delays: seq<nat>, attempts: nat)
    requires maxRetries <= |jobs|
    ensures Run(r, delays, attempts) == RetryFrom(table, df, maxRetries, jobs, 0)
    ensures r.Ok? ==> r.value == table || r.value == table + Records(df)
    ensures attempts <= maxRetries
    ensures maxRetries == 0 ==> r == Ok(table) && attempts == 0
    ensures maxRetries > 0 ==> 1 <= attempts && delays == Backoff(0, attempts - 1)
  {
    RetryRunShape(table, df, maxRetries, jobs, 0);
    r, delays, attempts := Ok(table), [], 0;
    for attempt := 0 to maxRetries
      invariant attempts == attempt
      invariant delays == Backoff(0, attempt)
      invariant var rest := RetryFrom(table, df, maxRetries, jobs, attempt);
                RetryFrom(table, df, maxRetries, jobs, 0) == Run(rest.result, delays + rest.delays, attempts + rest.attempts)
    {
      attempts := attempts + 1;
      match jobs[attempt]
      case Loaded =>
        r := Ok(table + Records(df));
        return;
      case Unavailable(d) =>
        if attempt < maxRetries - 1 {
          var pause := (attempt + 1) * BackoffStep;
          ghost var rest := RetryFrom(table, df, maxRetries, jobs, attempt + 1);
          assert RetryFrom(table, df, maxRetries, jobs, attempt) == Run(rest.result, [pause] + rest.delays, 1 + rest.attempts);
          assert delays + ([pause] + rest.delays) == (delays + [pause]) + rest.delays;
          delays := delays + [pause];
        } else {
          r := Err(ServiceUnavailable(d));
          return;
        }
      case Failed(d) =>
        r := Err(LoadFailed(d));
        return;
    }
  }

  /** After unavailable errors on attempts `a` to `k - 1`, a completed job on
      attempt `k` appends the frame, after the pauses `(a+1)*5, ..., k*5`. */
  lemma {:induction false} RetryUntilLoaded(table: seq<Record>, df: Frame, maxRetries: nat, jobs: seq<JobOutcome>, a: nat, k: nat)
    requires a <= k < maxRetries <= |jobs|
    requires forall i :: a <= i < k ==> jobs[i].Unavailable?
    requires jobs[k].Loaded?
    ensures RetryFrom(table, df, maxRetries, jobs, a) == Run(Ok(table + Records(df)), Backoff(a, k - a), k - a + 1)
    decreases k - a
  {
    if a < k {
      RetryUntilLoaded(table, df, maxRetries, jobs, a + 1, k);
      BackoffCons(a, k - a);
    }
  }

  /** Any error other than "service unavailable" propagates at once: no pause
      and no further attempt after it. */
  lemma {:induction false} RetryOtherErrorPropagates(table: seq<Record>, df: Frame, maxRetries: nat, jobs: seq<JobOutcome>, a: nat, k: nat)
    requires a <= k < maxRetries <= |jobs|
    requires forall i :: a <= i < k ==> jobs[i].Unavailable?
    requires jobs[k].Failed?
    ensures RetryFrom(table, df, maxRetries, jobs, a) == Run(Err(LoadFailed(jobs[k].detail)), Backoff(a, k - a), k - a + 1)
    decreases k - a
  {
    if a < k {
      RetryOtherErrorPropagates(table, df, maxRetries, jobs, a + 1, k);
      BackoffCons(a, k - a);
    }
  }

  /** Unavailable on every attempt: the last unavailable error is re-raised,
      with no pause after it. */
  lemma {:induction false} RetryExhausted(table: seq<Record>, df: Frame, maxRetries: nat, jobs: seq<JobOutcome>, a: nat)
    requires a < maxRetries <= |jobs|
    requires forall i :: a <= i < maxRetries ==> jobs[i].Unavailable?
    ensures RetryFrom(table, df, maxRetries, jobs, a)
            == Run(Err(ServiceUnavailable(jobs[maxRetries - 1].detail)), Backoff(a, maxRetries - 1 - a), maxRetries - a)
    decreases maxRetries - a
  {
    if a < maxRetries - 1 {
      RetryExhausted(table, df, maxRetries, jobs, a + 1);
      BackoffCons(a, maxRetries - 1 - a);
    }
  }

  lemma BackoffCons(a: nat, n: nat)
    requires n > 0
    ensures [(a + 1) * BackoffStep] + Backoff(a + 1, n - 1) == Backoff(a, n)
  {
    var s := [(a + 1) * BackoffStep] + Backoff(a + 1, n - 1);
    assert forall i :: 0 <= i < n ==> s[i] == Backoff(a, n)[i];
  }

  /** With the default three attempts: unavailable twice, then a completed
      job; the upload waits 5 s and then 10 s and appends the frame. */
  lemma DefaultRetrySchedule(table: seq<Record>, df: Frame, jobs: seq<JobOutcome>)
    requires |jobs| >= DefaultMaxRetries
    requires jobs[0].Unavailable? && jobs[1].Unavailable? && jobs[2].Loaded?
    ensures RetryFrom(table, df, DefaultMaxRetries, jobs, 0) == Run(Ok(table + Records(df)), [5, 10], 3)
  {
    RetryUntilLoaded(table, df, DefaultMaxRetries, jobs, 0, 2);
    assert Backoff(0, 2) == [5, 10];
  }

  /** Whatever happens, the retrying upload only appends: on success the new
      table is the old one, possibly followed by the frame's rows. From any
      attempt before the last bound it runs at least one job and pauses once
      less than it runs jobs, with the linear schedule; with no attempt left it
      returns at once without loading. */
  lemma {:induction false} RetryRunShape(table: seq<Record>, df: Frame, maxRetries: nat, jobs: seq<JobOutcome>, a: nat)
    requires a <= maxRetries <= |jobs|
    ensures var run := RetryFrom(table, df, maxRetries, jobs, a);
            && (run.result.Ok? ==> run.result.value == table || run.result.value == table + Records(df))
            && run.attempts <= maxRetries - a
            && (a < maxRetries ==> 1 <= run.attempts && run.delays == Backoff(a, run.attempts - 1))
            && (a == maxRetries ==> run == Run(Ok(table), [], 0))
    decreases maxRetries - a
  {
    if a < maxRetries - 1 && jobs[a].Unavailable? {
      RetryRunShape(table, df, maxRetries, jobs, a + 1);
      BackoffCons(a, RetryFrom(table, df, maxRetries, jobs, a + 1).attempts);
    }
  }
}
