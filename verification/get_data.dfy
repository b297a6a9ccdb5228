/** `do_request` and `run` of get_data.py as imperative code.  The list `failed_dates` is
    an object that `do_request` changes in place; the API endpoint of a reading is an object
    that answers each GET with the status code the oracle gives for that attempt and keeps
    the log of the dates asked for. */
module GetData {
  import opened ListOps
  import opened Schedule

  /** The Python list `failed_dates`. */
  class FailedDates {
    var items: seq<Date>

    constructor ()
      ensures items == []
    {
      items := [];
    }

    /** `failed_dates.append(date)` */
    method Append(date: Date)
      modifies this
      ensures items == old(items) + [date]
    {
      items := items + [date];
    }

    /** `failed_dates.remove(date)`: Python raises ValueError when `date` is absent. */
    method Remove(date: Date)
      requires date in items
      modifies this
      ensures items == RemoveFirst(old(items), date)
    {
      items := RemoveFirst(items, date);
    }
  }

  /** `https://api.data.gov.sg/v1/environment/{reading}` */
  class Endpoint {
    const reading: Reading
    const status: StatusOracle
    var sent: seq<Date>

    constructor (reading: Reading, status: StatusOracle)
      ensures this.reading == reading && this.status == status && sent == []
    {
      this.reading := reading;
      this.status := status;
      sent := [];
    }

    /** `requests.get(f"...{reading}?date={date}").status_code` */
    method Get(date: Date) returns (code: int)
      modifies this
      ensures sent == old(sent) + [date]
      ensures code == status(reading, date, Count(sent, date))
    {
      sent := sent + [date];
      code := status(reading, date, Count(sent, date));
    }
  }

  /** `do_request(reading, date, failed_dates, repeated)`.  A repeated call is only made for
      a date read from `failed_dates`, so the `remove` finds it. */
  method DoRequest(api: Endpoint, date: Date, failed: FailedDates, repeated: bool)
    requires repeated ==> date in failed.items
    modifies api, failed
    ensures State(failed.items, api.sent)
         == Request(api.reading, api.status, old(State(failed.items, api.sent)), date, repeated)
  {
    var code := api.Get(date);
    if code == StatusOk {
      if repeated {
        failed.Remove(date);
      }
    } else {
      if !repeated {
        failed.Append(date);
      }
    }
  }

  /** One retry pass, `for failed_date in failed_dates: do_request(..., True)`: Python's
      `for` reads the list by index while `do_request` removes entries from it. */
  method RetryPass(api: Endpoint, failed: FailedDates)
    modifies api, failed
    ensures State(failed.items, api.sent) == Pass(api.reading, api.status, old(State(failed.items, api.sent)))
  {
    ghost var start := State(failed.items, api.sent);
    var i := 0;
    while i < |failed.items|
      invariant PassFrom(api.reading, api.status, State(failed.items, api.sent), i)
             == Pass(api.reading, api.status, start)
      decreases |failed.items| - i
    {
      DoRequest(api, failed.items[i], failed, true);
      i := i + 1;
    }
  }

  /** The first pass, `for date in dates: do_request(reading, date, failed_dates, False)`. */
  method FirstPass(api: Endpoint, dates: seq<Date>, failed: FailedDates)
    modifies api, failed
    ensures State(failed.items, api.sent)
         == FirstPassFrom(api.reading, api.status, old(State(failed.items, api.sent)), dates)
  {
    ghost var start := State(failed.items, api.sent);
    for i := 0 to |dates|
      invariant FirstPassFrom(api.reading, api.status, State(failed.items, api.sent), dates[i..])
             == FirstPassFrom(api.reading, api.status, start, dates)
    {
      assert dates[i..][1..] == dates[i + 1..];
      DoRequest(api, dates[i], failed, false);
    }
    assert dates[|dates|..] == [];
  }

  lemma NonEmptyBefore(reading: Reading, status: StatusOracle, first: State, e: nat)
    requires forall k: nat :: k < e ==> Epochs(reading, status, first, k).failed != []
    requires Epochs(reading, status, first, e).failed != []
    ensures forall k: nat :: k < e + 1 ==> Epochs(reading, status, first, k).failed != []
  {
  }

  /** One turn of `for reading in readings` in `run`: a fresh `failed_dates`, the first pass
      over `dates`, then retry passes, counting them in `epoch`, until the list is empty.
      The Python loop never ends while some date keeps failing (see
      Schedule.PermanentFailureNeverExits), so this method is given an oracle under which
      every date succeeds after at most `bound` failures. */
  method RunReading(reading: Reading, status: StatusOracle, dates: seq<Date>, threshold: int, ghost bound: nat)
    returns (run: ReadingRun)
    requires NoDuplicates(dates)
    requires RetriesSucceed(reading, status, dates, bound)
    ensures Completed(reading, status, dates, threshold, run)
    ensures run.epochs <= |FailedFirst(reading, status, dates)| * bound
  {
    var api := new Endpoint(reading, status);
    var failed := new FailedDates();
    FirstPass(api, dates, failed);
    ghost var first := State(failed.items, api.sent);
    FirstPassPotential(reading, status, dates, bound);

    var epoch: nat := 0;
    var warnings: nat := 0;
    while |failed.items| > 0
      invariant State(failed.items, api.sent) == Epochs(reading, status, first, epoch)
      invariant NoDuplicates(failed.items) && Pending(reading, status, State(failed.items, api.sent), bound)
      invariant forall k: nat :: k < epoch ==> Epochs(reading, status, first, k).failed != []
      invariant 0 <= Potential(failed.items, api.sent, bound)
      invariant epoch + Potential(failed.items, api.sent, bound) <= Potential(first.failed, first.sent, bound)
      invariant warnings == Warnings(epoch, threshold)
      decreases Potential(failed.items, api.sent, bound)
    {
      RetryStep(reading, status, first, epoch, bound);
      NonEmptyBefore(reading, status, first, epoch);
      RetryPass(api, failed);
      epoch := epoch + 1;
      if epoch > threshold {
        warnings := warnings + 1;
      }
    }
    run := ReadingRun(failed.items, api.sent, epoch, warnings);
  }

  /** The reading categories of `run`.  Python iterates a set literal, in no fixed order;
      the readings do not share any state, so the order does not matter. */
  function Readings(): (rs: seq<Reading>)
    // a set literal of five distinct categories
    ensures |rs| == 5 && NoDuplicates(rs)
  {
    ["air-temperature", "rainfall", "wind-speed", "wind-direction", "relative-humidity"]
  }

  /** `run(start_date, end_date, threshold)` over the dates `pd.date_range` produced. */
  method Run(status: StatusOracle, dates: seq<Date>, threshold: int)
    returns (runs: map<Reading, ReadingRun>)
    requires NoDuplicates(dates)
    requires forall r :: r in Readings() ==> RetriesEventuallySucceed(r, status, dates)
    ensures runs.Keys == set r | r in Readings()
    ensures forall r :: r in runs ==> Completed(r, status, dates, threshold, runs[r])
  {
    var readings := Readings();
    runs := map[];
    for j := 0 to |readings|
      invariant forall r :: r in runs <==> r in readings[..j]
      invariant forall r :: r in runs ==> Completed(r, status, dates, threshold, runs[r])
    {
      ghost var bound := RetryBound(readings[j], status, dates);
      var run := RunReading(readings[j], status, dates, threshold, bound);
      RunsAdd(runs, readings, j, run, status, dates, threshold);
      runs := runs[readings[j] := run];
    }
    assert readings[..|readings|] == readings;
  }

  /** Adding the run of `readings[j]` to runs that cover exactly `readings[..j]`. */
  lemma RunsAdd(runs: map<Reading, ReadingRun>, readings: seq<Reading>, j: nat, run: ReadingRun,
                status: StatusOracle, dates: seq<Date>, threshold: int)
    requires j < |readings|
    requires forall r :: r in runs <==> r in readings[..j]
    requires forall r :: r in runs ==> Completed(r, status, dates, threshold, runs[r])
    requires Completed(readings[j], status, dates, threshold, run)
    ensures var next := runs[readings[j] := run];
            (forall r :: r in next <==> r in readings[..j + 1]) &&
            forall r :: r in next ==> Completed(r, status, dates, threshold, next[r])
  {
    assert readings[..j + 1] == readings[..j] + [readings[j]];
  }
}
