/** The failure worklist of one reading category, as values.

    `do_request` (get_data.py) issues one GET and then edits the caller's `failed_dates`
    list; `run` makes a first pass over every date and then repeats retry passes over
    `failed_dates` until it is empty.  Here the network is an oracle that gives the status
    code of the n-th GET of a date, and the state of one reading is the list together with
    the log of the dates requested so far (which fixes every attempt number). */
module Schedule {
  import opened ListOps

  type Reading = string
  type Date = string

  /** `status(reading, date, n)` is the HTTP status code the API answers to the n-th GET
      (counting from 1) of `date` for `reading`. */
  type StatusOracle = (Reading, Date, nat) -> int

  const StatusOk := 200

  /** Number of GETs of `date` in the request log `sent`. */
  function Count(sent: seq<Date>, date: Date): (n: nat)
    // no attempt yet exactly when the date was never requested
    ensures n == 0 <==> date !in sent
  {
    multiset(sent)[date]
  }

  lemma CountAppend(sent: seq<Date>, d: Date, x: Date)
    ensures Count(sent + [d], x) == Count(sent, x) + if x == d then 1 else 0
  {
    assert multiset(sent + [d]) == multiset(sent) + multiset{d};
  }

  /** The worklist of one reading: `failed_dates`, and every date requested so far, in order. */
  datatype State = State(failed: seq<Date>, sent: seq<Date>)

  /** What `do_request` does to `failed_dates` once the status is known: on a first attempt
      a failure is appended, on a repeated attempt a success is removed. */
  function Bookkeep(failed: seq<Date>, date: Date, repeated: bool, ok: bool): (r: seq<Date>)
    // first attempt: the list keeps its entries in place and gains `date` once, on failure only
    ensures !repeated ==>
      failed <= r && multiset(r) == multiset(failed) + if ok then multiset{} else multiset{date}
    // repeated attempt: the list never grows and loses one `date`, on success only
    ensures repeated ==>
      |r| <= |failed| && IsSubseq(r, failed) &&
      multiset(r) == multiset(failed) - if ok then multiset{date} else multiset{}
  {
    if ok then
      if repeated then
        RemoveFirstSubseq(failed, date);
        RemoveFirst(failed, date)
      else failed
    else
      if repeated then
        SubseqRefl(failed);
        failed
      else failed + [date]
  }

  /** One call of `do_request(reading, date, failed_dates, repeated)`. */
  function Request(reading: Reading, status: StatusOracle, st: State, date: Date, repeated: bool): (r: State)
    // one more entry in the log, and one more attempt for `date`
    ensures st.sent <= r.sent && |r.sent| == |st.sent| + 1 && Count(r.sent, date) == Count(st.sent, date) + 1
    // a first attempt can only append to the list, a repeated one can only shorten it
    ensures !repeated ==> st.failed <= r.failed && |r.failed| <= |st.failed| + 1
    ensures repeated ==> |r.failed| <= |st.failed|
  {
    var sent := st.sent + [date];
    CountAppend(st.sent, date, date);
    var ok := status(reading, date, Count(sent, date)) == StatusOk;
    State(Bookkeep(st.failed, date, repeated, ok), sent)
  }

  /** The rest of one retry pass, from list slot `i` on.  Python's `for` over a list reads
      slot `i`, then slot `i + 1` of the list as it is THEN, so a removal at slot `i` moves
      the next entry into a slot the pass has already left. */
  function PassFrom(reading: Reading, status: StatusOracle, st: State, i: nat): (r: State)
    ensures IsSubseq(r.failed, st.failed)
    decreases |st.failed| - i
  {
    if i >= |st.failed| then
      SubseqRefl(st.failed);
      st
    else
      var next := Request(reading, status, st, st.failed[i], true);
      var r := PassFrom(reading, status, next, i + 1);
      SubseqTrans(r.failed, next.failed, st.failed);
      r
  }

  /** One retry pass: `for failed_date in failed_dates: do_request(..., True)`. */
  function Pass(reading: Reading, status: StatusOracle, st: State): (r: State)
    // a retry pass never adds to the list or reorders it
    ensures IsSubseq(r.failed, st.failed)
  {
    PassFrom(reading, status, st, 0)
  }

  /** The state after `n` retry passes. */
  function Epochs(reading: Reading, status: StatusOracle, st: State, n: nat): (r: State)
    // passes over an empty list request nothing
    ensures st.failed == [] ==> r == st
  {
    if n == 0 then st else Pass(reading, status, Epochs(reading, status, st, n - 1))
  }

  /** The dates requested between two states of the log, in order. */
  function NewRequests(before: State, after: State): seq<Date> {
    if before.sent <= after.sent then after.sent[|before.sent|..] else []
  }

  /** The first pass: `for date in dates: do_request(..., False)`. */
  function FirstPassFrom(reading: Reading, status: StatusOracle, st: State, dates: seq<Date>): (r: State)
    // one GET per date, in the order of `dates`, and the list only grows at its end
    ensures r.sent == st.sent + dates
    ensures st.failed <= r.failed
    decreases |dates|
  {
    if dates == [] then st
    else
      var r := FirstPassFrom(reading, status, Request(reading, status, st, dates[0], false), dates[1..]);
      AppendOneThenRest(st.sent, dates);
      r
  }

  /** Reference definition: the dates whose first GET fails, in their order. */
  function FailedFirst(reading: Reading, status: StatusOracle, dates: seq<Date>): (r: seq<Date>)
    ensures IsSubseq(r, dates)
    ensures forall d :: d in r <==> d in dates && status(reading, d, 1) != StatusOk
    decreases |dates|
  {
    if dates == [] then []
    else
      var rest := FailedFirst(reading, status, dates[1..]);
      if status(reading, dates[0], 1) == StatusOk then
        SubseqDropFirstOf(rest, dates);
        rest
      else
        assert ([dates[0]] + rest)[1..] == rest;
        [dates[0]] + rest
  }

  /** Number of "Too many failed attempts" warnings after `epochs` passes: one for each
      completed pass whose number exceeds `threshold`. */
  function Warnings(epochs: nat, threshold: int): (w: nat)
    ensures w == if threshold < 0 then epochs else if epochs > threshold then epochs - threshold else 0
  {
    if epochs == 0 then 0
    else Warnings(epochs - 1, threshold) + if epochs > threshold then 1 else 0
  }

  /** What `run` leaves behind for one reading. */
  datatype ReadingRun = ReadingRun(failed: seq<Date>, sent: seq<Date>, epochs: nat, warnings: nat)

  /** `run` for one reading stopped, and only, when the list became empty: `epochs` retry
      passes followed the first pass and every earlier pass count left dates behind.
      The threshold decides the number of warnings and nothing else. */
  ghost predicate Completed(reading: Reading, status: StatusOracle, dates: seq<Date>, threshold: int, run: ReadingRun)
    // at most one warning per retry pass
    ensures Completed(reading, status, dates, threshold, run) ==> run.warnings <= run.epochs
  {
    var first := FirstPassFrom(reading, status, State([], []), dates);
    && Epochs(reading, status, first, run.epochs) == State(run.failed, run.sent)
    && run.failed == []
    && (forall k: nat :: k < run.epochs ==> Epochs(reading, status, first, k).failed != [])
    && run.warnings == Warnings(run.epochs, threshold)
  }

  // ---------------------------------------------------------------------------
  // The first pass

  /** From a log that has not requested any of `dates` (which are distinct), the first pass
      requests each date once, in order, and appends exactly those whose first GET failed. */
  lemma {:induction false} FirstPassFromFiltered(reading: Reading, status: StatusOracle, st: State, dates: seq<Date>)
    requires NoDuplicates(dates)
    requires forall d :: d in dates ==> Count(st.sent, d) == 0
    ensures FirstPassFrom(reading, status, st, dates)
         == State(st.failed + FailedFirst(reading, status, dates), st.sent + dates)
    decreases |dates|
  {
    if dates != [] {
      var d := dates[0];
      var rest := dates[1..];
      var next := Request(reading, status, st, d, false);
      NoDuplicatesTail(dates);
      CountAppend(st.sent, d, d);
      forall x | x in rest
        ensures Count(next.sent, x) == 0
      {
        CountAppend(st.sent, d, x);
      }
      var ok := status(reading, d, 1) == StatusOk;
      assert next.failed == if ok then st.failed else st.failed + [d];
      assert FailedFirst(reading, status, dates)
          == if ok then FailedFirst(reading, status, rest) else [d] + FailedFirst(reading, status, rest);
      FirstPassFromFiltered(reading, status, next, rest);
      AppendOneThenRest(st.sent, dates);
      if !ok {
        AppendOneThenRest(st.failed, FailedFirst(reading, status, dates));
      }
    }
  }

  /** After the first pass `failed_dates` is exactly the in-order list of dates whose
      request failed, without duplicates, and every date was requested once, in order. */
  lemma FirstPassResult(reading: Reading, status: StatusOracle, dates: seq<Date>)
    requires NoDuplicates(dates)
    ensures var first := FirstPassFrom(reading, status, State([], []), dates);
            first.failed == FailedFirst(reading, status, dates) && first.sent == dates &&
            NoDuplicates(first.failed)
  {
    FirstPassFromFiltered(reading, status, State([], []), dates);
    assert [] + dates == dates;
    assert [] + FailedFirst(reading, status, dates) == FailedFirst(reading, status, dates);
    SubseqNoDuplicates(FailedFirst(reading, status, dates), dates);
  }

  // ---------------------------------------------------------------------------
  // One retry pass

  /** The dates a pass requests from slot `i` on form a subsequence of the list's slots
      from `i` on, as they were when the pass reached `i`: no slot is visited twice and
      the order is kept. */
  lemma {:induction false} PassFromVisits(reading: Reading, status: StatusOracle, st: State, i: nat)
    ensures var r := PassFrom(reading, status, st, i);
            st.sent <= r.sent && IsSubseq(NewRequests(st, r), Drop(st.failed, i))
    decreases |st.failed| - i
  {
    var r := PassFrom(reading, status, st, i);
    if i >= |st.failed| {
      assert NewRequests(st, r) == [];
    } else {
      var next := Request(reading, status, st, st.failed[i], true);
      PassFromVisits(reading, status, next, i + 1);
      assert next.failed == st.failed || next.failed == RemoveFirst(st.failed, st.failed[i]);
      VisitStep(st.failed, st.sent, i, next.failed, r.sent);
    }
  }

  /** One step of a pass, on plain sequences: the request of slot `i` followed by requests
      within the slots after `i` of the list it left stays within the slots from `i` on. */
  lemma VisitStep(failed: seq<Date>, sent: seq<Date>, i: nat, nextFailed: seq<Date>, rSent: seq<Date>)
    requires i < |failed|
    requires nextFailed == failed || nextFailed == RemoveFirst(failed, failed[i])
    requires sent + [failed[i]] <= rSent
    requires IsSubseq(rSent[|sent| + 1..], Drop(nextFailed, i + 1))
    ensures sent <= rSent && IsSubseq(rSent[|sent|..], Drop(failed, i))
  {
    var d := failed[i];
    var later := rSent[|sent| + 1..];
    SuffixAfterOne(sent, d, rSent);
    NextWithin(failed, i, nextFailed);
    SubseqTrans(later, Drop(nextFailed, i + 1), Drop(failed, i + 1));
    ConsSubseq(d, later, failed, i);
  }

  /** What the pass still reads after slot `i` lies within the slots after `i`. */
  lemma NextWithin(failed: seq<Date>, i: nat, nextFailed: seq<Date>)
    requires i < |failed|
    requires nextFailed == failed || nextFailed == RemoveFirst(failed, failed[i])
    ensures IsSubseq(Drop(nextFailed, i + 1), Drop(failed, i + 1))
  {
    if nextFailed == failed {
      SubseqRefl(Drop(failed, i + 1));
    } else {
      RemoveFirstShift(failed, i);
      SubseqRefl(Drop(failed, i + 2));
      if i + 2 <= |failed| {
        assert Drop(failed, i + 1)[1..] == Drop(failed, i + 2);
        SubseqDropFirstOf(Drop(failed, i + 2), Drop(failed, i + 1));
      }
    }
  }

  /** Slot `i` followed by a subsequence of the slots after `i` is a subsequence of the
      slots from `i` on. */
  lemma ConsSubseq(d: Date, later: seq<Date>, failed: seq<Date>, i: nat)
    requires i < |failed| && d == failed[i]
    requires IsSubseq(later, Drop(failed, i + 1))
    ensures IsSubseq([d] + later, Drop(failed, i))
  {
    assert Drop(failed, i)[1..] == Drop(failed, i + 1);
    assert ([d] + later)[1..] == later;
  }

  /** A whole retry pass requests each listed date at most once, in list order, and the
      first listed date first. */
  lemma PassVisits(reading: Reading, status: StatusOracle, st: State)
    requires NoDuplicates(st.failed)
    ensures var r := Pass(reading, status, st);
            var visited := NewRequests(st, r);
            st.sent <= r.sent && IsSubseq(visited, st.failed) && NoDuplicates(visited) &&
            (st.failed != [] ==> visited != [] && visited[0] == st.failed[0])
  {
    PassFromVisits(reading, status, st, 0);
    var r := Pass(reading, status, st);
    assert Drop(st.failed, 0) == st.failed;
    SubseqNoDuplicates(NewRequests(st, r), st.failed);
    if st.failed != [] {
      var next := Request(reading, status, st, st.failed[0], true);
      PassFromVisits(reading, status, next, 1);
      SuffixAfterOne(st.sent, st.failed[0], r.sent);
    }
  }

  /** When the retry at slot `i` succeeds, the entry that followed it slides into slot `i`
      and is not requested again in that pass. */
  lemma SkipsSuccessor(reading: Reading, status: StatusOracle, st: State, i: nat)
    requires NoDuplicates(st.failed)
    requires i + 1 < |st.failed|
    requires status(reading, st.failed[i], Count(st.sent, st.failed[i]) + 1) == StatusOk
    ensures var next := Request(reading, status, st, st.failed[i], true);
            var r := PassFrom(reading, status, next, i + 1);
            next.failed[i] == st.failed[i + 1] && st.failed[i + 1] !in NewRequests(next, r)
  {
    var d := st.failed[i];
    var next := Request(reading, status, st, d, true);
    CountAppend(st.sent, d, d);
    assert next.failed == RemoveFirst(st.failed, d);
    RemoveDistinctAt(st.failed, i);
    var r := PassFrom(reading, status, next, i + 1);
    PassFromVisits(reading, status, next, i + 1);
    NotInSubseq(st.failed[i + 1], NewRequests(next, r), Drop(next.failed, i + 1));
  }

  /** Removing the entry at slot `i` of a list without duplicates moves the next entry into
      slot `i`, and that entry does not occur in the slots after it. */
  lemma RemoveDistinctAt(failed: seq<Date>, i: nat)
    requires NoDuplicates(failed) && i + 1 < |failed|
    ensures var r := RemoveFirst(failed, failed[i]);
            |r| == |failed| - 1 && r[i] == failed[i + 1] && failed[i + 1] !in Drop(r, i + 1)
  {
    RemoveFirstShift(failed, i);
    IndexOfNotAfter(failed, i);
    NoDuplicatesAt(failed, i);
    RemoveFirstAt(failed, failed[i]);
    NoDuplicatesAt(failed, i + 1);
  }

  lemma NotInSubseq<T>(x: T, a: seq<T>, b: seq<T>)
    requires IsSubseq(a, b) && x !in b
    ensures x !in a
  {
    SubseqMultiset(a, b);
    assert x !in multiset(b);
  }

  // ---------------------------------------------------------------------------
  // Repeated passes

  /** Pass number `n` starts from the list pass `n - 1` left. */
  lemma EpochAfter(reading: Reading, status: StatusOracle, st: State, n: nat)
    requires n > 0
    ensures Epochs(reading, status, st, n) == PassFrom(reading, status, Epochs(reading, status, st, n - 1), 0)
  {
  }

  /** Pass number `n` keeps a subsequence of the list it started from. */
  lemma EpochStep(reading: Reading, status: StatusOracle, st: State, n: nat)
    requires n > 0
    ensures IsSubseq(Epochs(reading, status, st, n).failed, Epochs(reading, status, st, n - 1).failed)
  {
    EpochAfter(reading, status, st, n);
  }

  /** The list only shrinks: after more passes it is a subsequence of what it was after
      fewer, so its length never increases. */
  lemma EpochsShrink(reading: Reading, status: StatusOracle, st: State, m: nat, n: nat)
    requires m <= n
    ensures IsSubseq(Epochs(reading, status, st, n).failed, Epochs(reading, status, st, m).failed)
    ensures |Epochs(reading, status, st, n).failed| <= |Epochs(reading, status, st, m).failed|
  {
    EpochsSubseq(reading, status, st, m, n);
    SubseqLength(Epochs(reading, status, st, n).failed, Epochs(reading, status, st, m).failed);
  }

  lemma EpochsSubseq(reading: Reading, status: StatusOracle, st: State, m: nat, n: nat)
    requires m <= n
    ensures IsSubseq(Epochs(reading, status, st, n).failed, Epochs(reading, status, st, m).failed)
  {
    var k := m;
    SubseqRefl(Epochs(reading, status, st, m).failed);
    while k < n
      invariant m <= k <= n
      invariant IsSubseq(Epochs(reading, status, st, k).failed, Epochs(reading, status, st, m).failed)
    {
      EpochStepFrom(reading, status, st, m, k);
      k := k + 1;
    }
  }

  lemma EpochStepFrom(reading: Reading, status: StatusOracle, st: State, m: nat, k: nat)
    requires IsSubseq(Epochs(reading, status, st, k).failed, Epochs(reading, status, st, m).failed)
    ensures IsSubseq(Epochs(reading, status, st, k + 1).failed, Epochs(reading, status, st, m).failed)
  {
    EpochStep(reading, status, st, k + 1);
    SubseqTrans(Epochs(reading, status, st, k + 1).failed, Epochs(reading, status, st, k).failed,
                Epochs(reading, status, st, m).failed);
  }

  /** At every pass count the list is an in-order subsequence of `dates`, has no duplicates
      and is never longer than after the first pass.  It holds exactly the dates that have
      failed every GET so far, so a date fetched once never comes back. */
  lemma RetriesWithinDates(reading: Reading, status: StatusOracle, dates: seq<Date>, n: nat)
    requires NoDuplicates(dates)
    ensures var failed := Epochs(reading, status, FirstPassFrom(reading, status, State([], []), dates), n).failed;
            IsSubseq(failed, dates) && NoDuplicates(failed) &&
            |failed| <= |FailedFirst(reading, status, dates)| &&
            forall d :: d in failed ==> status(reading, d, 1) != StatusOk
    // the list is exactly the dates that have failed every GET so far
    ensures var st := Epochs(reading, status, FirstPassFrom(reading, status, State([], []), dates), n);
            (forall d :: d in st.failed ==> FailedSoFar(reading, status, d, Count(st.sent, d))) &&
            forall d :: d in dates && FailedSoFar(reading, status, d, Count(st.sent, d)) ==> d in st.failed
  {
    var first := FirstPassFrom(reading, status, State([], []), dates);
    var failed := Epochs(reading, status, first, n).failed;
    FirstPassResult(reading, status, dates);
    EpochsShrink(reading, status, first, 0, n);
    SubseqTrans(failed, first.failed, dates);
    SubseqNoDuplicates(failed, first.failed);
    EpochsFailedExactly(reading, status, dates, n);
  }

  /** The list holds, without duplicates, exactly those of `dates` that have failed every
      GET so far, and each of `dates` has been requested. */
  ghost predicate FailedExactly(reading: Reading, status: StatusOracle, dates: seq<Date>, st: State) {
    && NoDuplicates(st.failed)
    && (forall d :: d in st.failed ==> d in dates)
    && forall d :: d in dates ==>
         Count(st.sent, d) >= 1 && (d in st.failed <==> FailedSoFar(reading, status, d, Count(st.sent, d)))
  }

  /** The first pass lists exactly the dates whose one GET failed. */
  lemma FirstPassFailedExactly(reading: Reading, status: StatusOracle, dates: seq<Date>)
    requires NoDuplicates(dates)
    ensures FailedExactly(reading, status, dates, FirstPassFrom(reading, status, State([], []), dates))
  {
    var first := FirstPassFrom(reading, status, State([], []), dates);
    FirstPassResult(reading, status, dates);
    forall d | d in dates
      ensures Count(first.sent, d) == 1
      ensures FailedSoFar(reading, status, d, 1) <==> status(reading, d, 1) != StatusOk
    {
      assert d in multiset(dates);
      if FailedSoFar(reading, status, d, 1) {
        assert status(reading, d, 1) != StatusOk;
      }
    }
  }

  /** A successful retry takes the date off the list, and it no longer has failed every GET. */
  lemma FailedExactlyRemoved(reading: Reading, status: StatusOracle, dates: seq<Date>, failed: seq<Date>, sent: seq<Date>, x: Date)
    requires FailedExactly(reading, status, dates, State(failed, sent)) && x in failed
    requires status(reading, x, Count(sent, x) + 1) == StatusOk
    ensures FailedExactly(reading, status, dates, State(RemoveFirst(failed, x), sent + [x]))
  {
    var r := RemoveFirst(failed, x);
    assert x in multiset(failed);
    RemoveFirstSubseq(failed, x);
    SubseqNoDuplicates(r, failed);
    assert multiset(r)[x] == 0;
    forall d | d in r
      ensures d in dates
    {
      assert d in multiset(r);
    }
    forall d | d in dates
      ensures Count(sent + [x], d) >= 1
      ensures d in r <==> FailedSoFar(reading, status, d, Count(sent + [x], d))
    {
      CountAppend(sent, x, d);
      if d == x {
        assert !FailedSoFar(reading, status, x, Count(sent, x) + 1) by {
          assert status(reading, x, Count(sent, x) + 1) == StatusOk;
        }
        assert d !in multiset(r);
      } else {
        assert multiset(r)[d] == multiset(failed)[d];
        assert d in r <==> d in multiset(r);
        assert d in failed <==> d in multiset(failed);
      }
    }
  }

  /** A failed retry keeps the date listed, having failed one more GET. */
  lemma FailedExactlyRetried(reading: Reading, status: StatusOracle, dates: seq<Date>, failed: seq<Date>, sent: seq<Date>, x: Date)
    requires FailedExactly(reading, status, dates, State(failed, sent)) && x in failed
    requires status(reading, x, Count(sent, x) + 1) != StatusOk
    ensures FailedExactly(reading, status, dates, State(failed, sent + [x]))
  {
    var c := Count(sent, x);
    assert FailedSoFar(reading, status, x, c + 1) by {
      assert FailedSoFar(reading, status, x, c);
    }
    forall d | d in dates
      ensures Count(sent + [x], d) >= 1
      ensures d in failed <==> FailedSoFar(reading, status, d, Count(sent + [x], d))
    {
      CountAppend(sent, x, d);
    }
  }

  /** One retry of a listed date keeps the list exact. */
  lemma RequestFailedExactly(reading: Reading, status: StatusOracle, dates: seq<Date>, st: State, x: Date)
    requires FailedExactly(reading, status, dates, st) && x in st.failed
    ensures FailedExactly(reading, status, dates, Request(reading, status, st, x, true))
  {
    var next := Request(reading, status, st, x, true);
    CountAppend(st.sent, x, x);
    if status(reading, x, Count(next.sent, x)) == StatusOk {
      assert next == State(RemoveFirst(st.failed, x), st.sent + [x]);
      FailedExactlyRemoved(reading, status, dates, st.failed, st.sent, x);
    } else {
      assert next == State(st.failed, st.sent + [x]);
      FailedExactlyRetried(reading, status, dates, st.failed, st.sent, x);
    }
  }

  /** The rest of a retry pass keeps the list exact. */
  lemma {:induction false} PassFromFailedExactly(reading: Reading, status: StatusOracle, dates: seq<Date>, st: State, i: nat)
    requires FailedExactly(reading, status, dates, st)
    ensures FailedExactly(reading, status, dates, PassFrom(reading, status, st, i))
    decreases |st.failed| - i
  {
    if i < |st.failed| {
      RequestFailedExactly(reading, status, dates, st, st.failed[i]);
      PassFromFailedExactly(reading, status, dates, Request(reading, status, st, st.failed[i], true), i + 1);
    }
  }

  /** After every number of passes the list is exact. */
  lemma EpochsFailedExactly(reading: Reading, status: StatusOracle, dates: seq<Date>, n: nat)
    requires NoDuplicates(dates)
    ensures FailedExactly(reading, status, dates,
                          Epochs(reading, status, FirstPassFrom(reading, status, State([], []), dates), n))
  {
    var first := FirstPassFrom(reading, status, State([], []), dates);
    FirstPassFailedExactly(reading, status, dates);
    var k := 0;
    while k < n
      invariant k <= n && FailedExactly(reading, status, dates, Epochs(reading, status, first, k))
    {
      EpochAfter(reading, status, first, k + 1);
      PassFromFailedExactly(reading, status, dates, Epochs(reading, status, first, k), 0);
      k := k + 1;
    }
  }

  /** Every GET of `date` for `reading`, from the first attempt on, fails. */
  ghost predicate AlwaysFails(reading: Reading, status: StatusOracle, date: Date) {
    forall n: nat :: n >= 1 ==> status(reading, date, n) != StatusOk
  }

  /** A date that fails on every attempt survives any retry pass. */
  lemma {:induction false} PassFromKeeps(reading: Reading, status: StatusOracle, st: State, i: nat, d: Date)
    requires d in st.failed
    requires AlwaysFails(reading, status, d)
    ensures d in PassFrom(reading, status, st, i).failed
    decreases |st.failed| - i
  {
    if i < |st.failed| {
      RequestKeeps(reading, status, st, st.failed[i], d);
      PassFromKeeps(reading, status, Request(reading, status, st, st.failed[i], true), i + 1, d);
    }
  }

  /** A retry of any listed date leaves a date that always fails in the list. */
  lemma RequestKeeps(reading: Reading, status: StatusOracle, st: State, x: Date, d: Date)
    requires d in st.failed
    requires AlwaysFails(reading, status, d)
    ensures d in Request(reading, status, st, x, true).failed
  {
    var next := Request(reading, status, st, x, true);
    assert d in multiset(st.failed);
    if x == d {
      CountAppend(st.sent, d, d);
      assert next.failed == st.failed;
    } else {
      assert d in multiset(next.failed);
    }
  }

  /** A date that fails on every attempt and is listed before pass `n` is listed after it. */
  lemma EpochKeeps(reading: Reading, status: StatusOracle, st: State, d: Date, n: nat)
    requires n > 0
    requires d in Epochs(reading, status, st, n - 1).failed
    requires AlwaysFails(reading, status, d)
    ensures d in Epochs(reading, status, st, n).failed
  {
    EpochAfter(reading, status, st, n);
    PassFromKeeps(reading, status, Epochs(reading, status, st, n - 1), 0, d);
  }

  /** The `while` loop has no `break`: if one listed date fails on every attempt, the list is
      non-empty after every number of passes, far beyond any threshold, so the loop never
      ends. */
  lemma PermanentFailureNeverExits(reading: Reading, status: StatusOracle, st: State, d: Date, n: nat)
    requires d in st.failed
    requires AlwaysFails(reading, status, d)
    ensures d in Epochs(reading, status, st, n).failed
    ensures Epochs(reading, status, st, n).failed != []
  {
    var k := 0;
    while k < n
      invariant k <= n && d in Epochs(reading, status, st, k).failed
    {
      EpochKeeps(reading, status, st, d, k + 1);
      k := k + 1;
    }
  }

  /** The outcome of `run` for one reading is determined: `epochs` is the first pass count
      that empties the list. */
  lemma CompletedUnique(reading: Reading, status: StatusOracle, dates: seq<Date>, threshold: int, a: ReadingRun, b: ReadingRun)
    requires Completed(reading, status, dates, threshold, a)
    requires Completed(reading, status, dates, threshold, b)
    ensures a == b
  {
    var first := FirstPassFrom(reading, status, State([], []), dates);
    FirstEmptyPass(reading, status, first, a.epochs, b.epochs);
    FirstEmptyPass(reading, status, first, b.epochs, a.epochs);
  }

  /** A pass count that empties the list is not below one before which the list was never
      empty. */
  lemma FirstEmptyPass(reading: Reading, status: StatusOracle, first: State, e: nat, f: nat)
    requires forall k: nat :: k < e ==> Epochs(reading, status, first, k).failed != []
    requires Epochs(reading, status, first, f).failed == []
    ensures e <= f
  {
  }

  // ---------------------------------------------------------------------------
  // Termination when every failed date succeeds on some retry

  /** Some retry of `date`, from attempt 2 up to attempt `bound + 1`, succeeds. */
  ghost predicate RetrySucceeds(reading: Reading, status: StatusOracle, date: Date, bound: nat) {
    exists n: nat :: 2 <= n <= bound + 1 && status(reading, date, n) == StatusOk
  }

  /** Every date whose first GET fails succeeds on some retry, by attempt `bound + 1`. */
  ghost predicate RetriesSucceed(reading: Reading, status: StatusOracle, dates: seq<Date>, bound: nat) {
    forall d :: d in dates && status(reading, d, 1) != StatusOk ==> RetrySucceeds(reading, status, d, bound)
  }

  /** Some retry of `date` succeeds. */
  ghost predicate RetryEventuallySucceeds(reading: Reading, status: StatusOracle, date: Date) {
    exists n: nat :: n >= 2 && status(reading, date, n) == StatusOk
  }

  /** Every date whose first GET fails succeeds on some later GET. */
  ghost predicate RetriesEventuallySucceed(reading: Reading, status: StatusOracle, dates: seq<Date>) {
    forall d :: d in dates && status(reading, d, 1) != StatusOk ==> RetryEventuallySucceeds(reading, status, d)
  }

  /** The first `count` GETs of `date` all failed. */
  ghost predicate FailedSoFar(reading: Reading, status: StatusOracle, date: Date, count: nat) {
    forall k: nat :: 1 <= k <= count ==> status(reading, date, k) != StatusOk
  }

  /** Each listed date has failed every GET so far and succeeds on some GET by attempt
      `bound + 1`. */
  ghost predicate Pending(reading: Reading, status: StatusOracle, st: State, bound: nat) {
    forall d :: d in st.failed ==>
      FailedSoFar(reading, status, d, Count(st.sent, d)) && RetrySucceeds(reading, status, d, bound)
  }

  /** No listed date has been requested more than `bound` times. */
  ghost predicate WithinBound(st: State, bound: nat) {
    forall d :: d in st.failed ==> Count(st.sent, d) <= bound
  }

  /** A date whose first `count` GETs failed and which succeeds by attempt `bound + 1` has
      been requested at most `bound` times. */
  lemma FailedBeforeSuccess(reading: Reading, status: StatusOracle, d: Date, count: nat, bound: nat)
    requires FailedSoFar(reading, status, d, count) && RetrySucceeds(reading, status, d, bound)
    ensures count <= bound
  {
    var n: nat :| 2 <= n <= bound + 1 && status(reading, d, n) == StatusOk;
    assert 1 <= n <= count ==> status(reading, d, n) != StatusOk;
  }

  lemma PendingWithinBound(reading: Reading, status: StatusOracle, st: State, bound: nat)
    requires Pending(reading, status, st, bound)
    ensures WithinBound(st, bound)
  {
    forall d | d in st.failed
      ensures Count(st.sent, d) <= bound
    {
      FailedBeforeSuccess(reading, status, d, Count(st.sent, d), bound);
    }
  }

  /** Any oracle under which every failed date succeeds on some later GET has a common
      bound on the attempt of that success. */
  lemma {:induction false} RetryBound(reading: Reading, status: StatusOracle, dates: seq<Date>) returns (bound: nat)
    requires RetriesEventuallySucceed(reading, status, dates)
    ensures RetriesSucceed(reading, status, dates, bound)
    decreases |dates|
  {
    if dates == [] {
      bound := 0;
    } else {
      var d := dates[0];
      assert forall x :: x in dates[1..] ==> x in dates;
      var rest := RetryBound(reading, status, dates[1..]);
      bound := rest;
      if status(reading, d, 1) != StatusOk {
        var n: nat :| n >= 2 && status(reading, d, n) == StatusOk;
        if n - 1 > bound {
          bound := n - 1;
        }
        assert RetrySucceeds(reading, status, d, bound);
      }
      forall x | x in dates && status(reading, x, 1) != StatusOk
        ensures RetrySucceeds(reading, status, x, bound)
      {
        if x != d {
          assert x in dates[1..];
          var m: nat :| 2 <= m <= rest + 1 && status(reading, x, m) == StatusOk;
        }
      }
    }
  }

  /** Without a successful retry for some date whose first GET failed, no run of the
      reading ever completes: that date is listed after every number of passes. */
  lemma RetriesNeededToEnd(reading: Reading, status: StatusOracle, dates: seq<Date>, threshold: int, run: ReadingRun)
    requires NoDuplicates(dates)
    requires !RetriesEventuallySucceed(reading, status, dates)
    ensures !Completed(reading, status, dates, threshold, run)
  {
    var d := NeverSucceeds(reading, status, dates);
    var first := FirstPassFrom(reading, status, State([], []), dates);
    FirstPassResult(reading, status, dates);
    PermanentFailureNeverExits(reading, status, first, d, run.epochs);
  }

  /** A date whose first GET fails and no retry succeeds is a listed date that always fails. */
  lemma NeverSucceeds(reading: Reading, status: StatusOracle, dates: seq<Date>) returns (d: Date)
    requires !RetriesEventuallySucceed(reading, status, dates)
    ensures d in FailedFirst(reading, status, dates) && AlwaysFails(reading, status, d)
  {
    d :| d in dates && status(reading, d, 1) != StatusOk && !RetryEventuallySucceeds(reading, status, d);
    forall n: nat | n >= 2
      ensures status(reading, d, n) != StatusOk
    {
      if status(reading, d, n) == StatusOk {
        assert RetryEventuallySucceeds(reading, status, d);
      }
    }
  }

  /** Work left: each listed date can fail at most `bound` times in all. */
  function Potential(failed: seq<Date>, sent: seq<Date>, bound: nat): int
    decreases |failed|
  {
    if failed == [] then 0
    else (bound + 1 - Count(sent, failed[0])) + Potential(failed[1..], sent, bound)
  }

  lemma {:induction false} PotentialLower(failed: seq<Date>, sent: seq<Date>, bound: nat)
    requires forall d :: d in failed ==> Count(sent, d) <= bound
    ensures Potential(failed, sent, bound) >= |failed|
    decreases |failed|
  {
    if failed != [] {
      PotentialLower(failed[1..], sent, bound);
    }
  }

  /** One more GET of `d` lowers the potential by the number of times `d` is listed. */
  lemma {:induction false} PotentialSentExtend(failed: seq<Date>, sent: seq<Date>, d: Date, bound: nat)
    ensures Potential(failed, sent + [d], bound) == Potential(failed, sent, bound) - multiset(failed)[d]
    decreases |failed|
  {
    if failed != [] {
      PotentialSentExtend(failed[1..], sent, d, bound);
      assert failed == [failed[0]] + failed[1..];
    }
  }

  lemma {:induction false} PotentialRemoveFirst(failed: seq<Date>, sent: seq<Date>, d: Date, bound: nat)
    requires d in failed
    ensures Potential(RemoveFirst(failed, d), sent, bound)
         == Potential(failed, sent, bound) - (bound + 1 - Count(sent, d))
    decreases |failed|
  {
    if failed[0] != d {
      PotentialRemoveFirst(failed[1..], sent, d, bound);
      assert RemoveFirst(failed, d) == [failed[0]] + RemoveFirst(failed[1..], d);
      assert ([failed[0]] + RemoveFirst(failed[1..], d))[1..] == RemoveFirst(failed[1..], d);
    }
  }

  /** A potential over dates that were each requested once. */
  lemma {:induction false} PotentialAllOnce(failed: seq<Date>, sent: seq<Date>, bound: nat)
    requires forall d :: d in failed ==> Count(sent, d) == 1
    ensures Potential(failed, sent, bound) == |failed| * bound
    decreases |failed|
  {
    if failed != [] {
      PotentialAllOnce(failed[1..], sent, bound);
      assert |failed| * bound == bound + (|failed| - 1) * bound;
    }
  }

  /** While every listed date is pending, every retried request lowers the potential: a
      failure uses up one of the date's failures, a success removes the date. */
  lemma RetryLowersPotential(reading: Reading, status: StatusOracle, st: State, d: Date, bound: nat)
    requires NoDuplicates(st.failed) && Pending(reading, status, st, bound)
    requires d in st.failed
    ensures var next := Request(reading, status, st, d, true);
            NoDuplicates(next.failed) && Pending(reading, status, next, bound) &&
            Potential(next.failed, next.sent, bound) < Potential(st.failed, st.sent, bound)
  {
    var next := Request(reading, status, st, d, true);
    var n := Count(next.sent, d);
    CountAppend(st.sent, d, d);
    PendingWithinBound(reading, status, st, bound);
    if status(reading, d, n) == StatusOk {
      assert next == State(RemoveFirst(st.failed, d), st.sent + [d]);
      RemoveLowers(st.failed, st.sent, d, bound);
      PendingRemoved(reading, status, st.failed, st.sent, d, bound);
    } else {
      assert next == State(st.failed, st.sent + [d]);
      PendingRetried(reading, status, st.failed, st.sent, d, bound);
      RetryLowers(st.failed, st.sent, d, bound);
    }
  }

  /** A successful retry keeps every other listed date pending. */
  lemma PendingRemoved(reading: Reading, status: StatusOracle, failed: seq<Date>, sent: seq<Date>, d: Date, bound: nat)
    requires NoDuplicates(failed) && d in failed
    requires Pending(reading, status, State(failed, sent), bound)
    ensures Pending(reading, status, State(RemoveFirst(failed, d), sent + [d]), bound)
  {
    var r := RemoveFirst(failed, d);
    assert d in multiset(failed);
    RemoveFirstSubseq(failed, d);
    SubseqMultiset(r, failed);
    assert multiset(r)[d] == 0;
    forall x | x in r
      ensures FailedSoFar(reading, status, x, Count(sent + [d], x)) && RetrySucceeds(reading, status, x, bound)
    {
      assert x in multiset(r);
      assert x in failed;
      CountAppend(sent, d, x);
    }
  }

  /** A failed retry keeps the date pending, one attempt further on, and that attempt was
      still within the bound. */
  lemma PendingRetried(reading: Reading, status: StatusOracle, failed: seq<Date>, sent: seq<Date>, d: Date, bound: nat)
    requires d in failed
    requires Pending(reading, status, State(failed, sent), bound)
    requires status(reading, d, Count(sent, d) + 1) != StatusOk
    ensures Pending(reading, status, State(failed, sent + [d]), bound)
    ensures Count(sent, d) + 1 <= bound
  {
    var c := Count(sent, d);
    assert FailedSoFar(reading, status, d, c + 1) by {
      assert FailedSoFar(reading, status, d, c);
    }
    FailedBeforeSuccess(reading, status, d, c + 1, bound);
    forall x | x in failed
      ensures FailedSoFar(reading, status, x, Count(sent + [d], x)) && RetrySucceeds(reading, status, x, bound)
    {
      CountAppend(sent, d, x);
    }
  }

  /** A successful retry: the date leaves the list, which keeps the others within bound. */
  lemma RemoveLowers(failed: seq<Date>, sent: seq<Date>, d: Date, bound: nat)
    requires NoDuplicates(failed) && d in failed
    requires forall x :: x in failed ==> Count(sent, x) <= bound
    ensures var r := RemoveFirst(failed, d);
            NoDuplicates(r) && (forall x :: x in r ==> Count(sent + [d], x) <= bound) &&
            Potential(r, sent + [d], bound) < Potential(failed, sent, bound)
  {
    var r := RemoveFirst(failed, d);
    assert d in multiset(failed);
    PotentialSentExtend(r, sent, d, bound);
    PotentialRemoveFirst(failed, sent, d, bound);
    RemoveFirstSubseq(failed, d);
    SubseqNoDuplicates(r, failed);
    assert multiset(r)[d] == 0;
    forall x | x in r
      ensures Count(sent + [d], x) <= bound
    {
      assert x in multiset(r);
      CountAppend(sent, d, x);
    }
  }

  /** A failed retry: the date stays listed, one more attempt used, still within bound. */
  lemma RetryLowers(failed: seq<Date>, sent: seq<Date>, d: Date, bound: nat)
    requires NoDuplicates(failed) && d in failed
    requires forall x :: x in failed ==> Count(sent, x) <= bound
    requires Count(sent, d) + 1 <= bound
    ensures (forall x :: x in failed ==> Count(sent + [d], x) <= bound) &&
            Potential(failed, sent + [d], bound) < Potential(failed, sent, bound)
  {
    assert d in multiset(failed);
    PotentialSentExtend(failed, sent, d, bound);
    forall x | x in failed
      ensures Count(sent + [d], x) <= bound
    {
      CountAppend(sent, d, x);
    }
  }

  /** A retry pass lowers the potential when it requests a date, and keeps the list free
      of duplicates and every listed date pending. */
  lemma {:induction false} PassFromLowersPotential(reading: Reading, status: StatusOracle, st: State, i: nat, bound: nat)
    requires NoDuplicates(st.failed) && Pending(reading, status, st, bound)
    ensures var r := PassFrom(reading, status, st, i);
            NoDuplicates(r.failed) && Pending(reading, status, r, bound) &&
            Potential(r.failed, r.sent, bound) + (if i < |st.failed| then 1 else 0)
              <= Potential(st.failed, st.sent, bound)
    decreases |st.failed| - i
  {
    if i < |st.failed| {
      var next := Request(reading, status, st, st.failed[i], true);
      RetryLowersPotential(reading, status, st, st.failed[i], bound);
      PassFromLowersPotential(reading, status, next, i + 1, bound);
    }
  }

  /** After the first pass every listed date failed its one GET, so when each succeeds on
      some retry by attempt `bound + 1` every listed date is pending and the work left is
      `bound` per listed date. */
  lemma FirstPassPotential(reading: Reading, status: StatusOracle, dates: seq<Date>, bound: nat)
    requires NoDuplicates(dates)
    requires RetriesSucceed(reading, status, dates, bound)
    ensures var first := FirstPassFrom(reading, status, State([], []), dates);
            first.failed == FailedFirst(reading, status, dates) &&
            NoDuplicates(first.failed) && Pending(reading, status, first, bound) &&
            Potential(first.failed, first.sent, bound) == |first.failed| * bound &&
            Potential(first.failed, first.sent, bound) >= 0
  {
    var first := FirstPassFrom(reading, status, State([], []), dates);
    FirstPassResult(reading, status, dates);
    forall d | d in first.failed
      ensures Count(first.sent, d) == 1
      ensures FailedSoFar(reading, status, d, 1) && RetrySucceeds(reading, status, d, bound)
    {
      assert d in multiset(dates);
      assert status(reading, d, 1) != StatusOk;
    }
    PendingWithinBound(reading, status, first, bound);
    PotentialAllOnce(first.failed, first.sent, bound);
    PotentialLower(first.failed, first.sent, bound);
  }

  /** A retry pass over a non-empty list keeps it duplicate-free and every listed date
      pending, and lowers the work left by at least one. */
  lemma RetryStep(reading: Reading, status: StatusOracle, first: State, e: nat, bound: nat)
    requires var st := Epochs(reading, status, first, e);
             NoDuplicates(st.failed) && Pending(reading, status, st, bound) && st.failed != []
    ensures var st := Epochs(reading, status, first, e);
            var r := Epochs(reading, status, first, e + 1);
            r == Pass(reading, status, st) && NoDuplicates(r.failed) && Pending(reading, status, r, bound) &&
            0 <= Potential(r.failed, r.sent, bound) &&
            Potential(r.failed, r.sent, bound) + 1 <= Potential(st.failed, st.sent, bound)
  {
    var st := Epochs(reading, status, first, e);
    EpochAfter(reading, status, first, e + 1);
    PassFromLowersPotential(reading, status, st, 0, bound);
    var r := Epochs(reading, status, first, e + 1);
    PendingWithinBound(reading, status, r, bound);
    PotentialLower(r.failed, r.sent, bound);
  }

  // ---------------------------------------------------------------------------
  // Readings are independent

  /** Two oracles that answer alike for `reading`. */
  ghost predicate SameAnswers(reading: Reading, s1: StatusOracle, s2: StatusOracle) {
    forall d: Date, n: nat :: s1(reading, d, n) == s2(reading, d, n)
  }

  lemma {:induction false} PassFromIndependent(reading: Reading, s1: StatusOracle, s2: StatusOracle, st: State, i: nat)
    requires SameAnswers(reading, s1, s2)
    ensures PassFrom(reading, s1, st, i) == PassFrom(reading, s2, st, i)
    decreases |st.failed| - i
  {
    if i < |st.failed| {
      var d := st.failed[i];
      assert Request(reading, s1, st, d, true) == Request(reading, s2, st, d, true);
      PassFromIndependent(reading, s1, s2, Request(reading, s1, st, d, true), i + 1);
    }
  }

  lemma EpochsIndependent(reading: Reading, s1: StatusOracle, s2: StatusOracle, st: State, n: nat)
    requires SameAnswers(reading, s1, s2)
    ensures Epochs(reading, s1, st, n) == Epochs(reading, s2, st, n)
  {
    var k := 0;
    while k < n
      invariant k <= n && Epochs(reading, s1, st, k) == Epochs(reading, s2, st, k)
    {
      EpochIndependentStep(reading, s1, s2, st, k + 1);
      k := k + 1;
    }
  }

  lemma EpochIndependentStep(reading: Reading, s1: StatusOracle, s2: StatusOracle, st: State, n: nat)
    requires SameAnswers(reading, s1, s2) && n > 0
    requires Epochs(reading, s1, st, n - 1) == Epochs(reading, s2, st, n - 1)
    ensures Epochs(reading, s1, st, n) == Epochs(reading, s2, st, n)
  {
    EpochAfter(reading, s1, st, n);
    EpochAfter(reading, s2, st, n);
    PassFromIndependent(reading, s1, s2, Epochs(reading, s1, st, n - 1), 0);
  }

  lemma {:induction false} FirstPassIndependent(reading: Reading, s1: StatusOracle, s2: StatusOracle, st: State, dates: seq<Date>)
    requires SameAnswers(reading, s1, s2)
    ensures FirstPassFrom(reading, s1, st, dates) == FirstPassFrom(reading, s2, st, dates)
    decreases |dates|
  {
    if dates != [] {
      assert Request(reading, s1, st, dates[0], false) == Request(reading, s2, st, dates[0], false);
      FirstPassIndependent(reading, s1, s2, Request(reading, s1, st, dates[0], false), dates[1..]);
    }
  }

  /** Each reading starts from an empty list and its own log, so what `run` does for one
      reading depends only on the answers for that reading. */
  lemma ReadingIndependent(reading: Reading, s1: StatusOracle, s2: StatusOracle, dates: seq<Date>, threshold: int, run: ReadingRun)
    requires SameAnswers(reading, s1, s2)
    ensures Completed(reading, s1, dates, threshold, run) <==> Completed(reading, s2, dates, threshold, run)
  {
    FirstPassIndependent(reading, s1, s2, State([], []), dates);
    var first := FirstPassFrom(reading, s1, State([], []), dates);
    EpochsIndependent(reading, s1, s2, first, run.epochs);
    forall k: nat | k < run.epochs
      ensures Epochs(reading, s1, first, k) == Epochs(reading, s2, first, k)
    {
      EpochsIndependent(reading, s1, s2, first, k);
    }
  }
}
