/** Two concrete runs of one reading, worked out from the definitions. */
module Scenarios {
  import opened ListOps
  import opened Schedule

  const Jan1: Date := "2020-01-01"
  const Jan2: Date := "2020-01-02"
  const Jan3: Date := "2020-01-03"

  /** The API fails the first GET of `target` with status 500 and answers everything else. */
  function FailsFirstOf(target: Date): StatusOracle {
    (r: Reading, d: Date, n: nat) => if d == target && n == 1 then 500 else StatusOk
  }

  /** The API fails the first GET of every date with status 500 and answers every repeat. */
  function FailsEveryFirst(): StatusOracle {
    (r: Reading, d: Date, n: nat) => if n == 1 then 500 else StatusOk
  }

  /** The API fails every odd-numbered GET with status 500 and answers every even one. */
  function OnAndOff(): StatusOracle {
    (r: Reading, d: Date, n: nat) => if n % 2 == 1 then 500 else StatusOk
  }

  /** An API that keeps failing every other GET forever still lets the loop end: every date
      succeeds on its second attempt. */
  lemma OnAndOffEnds(dates: seq<Date>)
    ensures RetriesSucceed("rainfall", OnAndOff(), dates, 1)
    ensures forall d, n: nat :: d in dates && n % 2 == 1 ==> OnAndOff()("rainfall", d, n) != StatusOk
  {
    forall d | d in dates && OnAndOff()("rainfall", d, 1) != StatusOk
      ensures RetrySucceeds("rainfall", OnAndOff(), d, 1)
    {
      assert OnAndOff()("rainfall", d, 2) == StatusOk;
    }
  }

  lemma Jan123Distinct()
    ensures Jan1 != Jan2 && Jan2 != Jan3 && Jan1 != Jan3
    ensures NoDuplicates([Jan1, Jan2, Jan3])
  {
    assert Jan1[9] != Jan2[9] && Jan2[9] != Jan3[9] && Jan1[9] != Jan3[9];
  }

  /** Three days of rainfall where only the first GET of 2020-01-02 fails: the first pass
      lists that date, one retry pass fetches it, and the run ends after that single pass
      with an empty list and no warning (threshold 10). */
  lemma OneRetry(run: ReadingRun)
    requires Completed("rainfall", FailsFirstOf(Jan2), [Jan1, Jan2, Jan3], 10, run)
    ensures run.epochs == 1 && run.warnings == 0
    ensures run.sent == [Jan1, Jan2, Jan3, Jan2]
  {
    var first := FirstPassFrom("rainfall", FailsFirstOf(Jan2), State([], []), [Jan1, Jan2, Jan3]);
    OnlyJan2Fails();
    OneRetryPass();
    assert Epochs("rainfall", FailsFirstOf(Jan2), first, 0).failed != [];
    EpochAfter("rainfall", FailsFirstOf(Jan2), first, 1);
  }

  /** Under FailsFirstOf(2020-01-02) the first pass lists that date alone. */
  lemma OnlyJan2Fails()
    ensures FirstPassFrom("rainfall", FailsFirstOf(Jan2), State([], []), [Jan1, Jan2, Jan3])
         == State([Jan2], [Jan1, Jan2, Jan3])
  {
    var status := FailsFirstOf(Jan2);
    var dates := [Jan1, Jan2, Jan3];
    Jan123Distinct();
    assert status("rainfall", Jan1, 1) == StatusOk;
    assert status("rainfall", Jan2, 1) != StatusOk;
    assert status("rainfall", Jan3, 1) == StatusOk;
    assert dates[1..] == [Jan2, Jan3] && [Jan2, Jan3][1..] == [Jan3] && [Jan3][1..] == [];
    assert FailedFirst("rainfall", status, [Jan3]) == [];
    assert FailedFirst("rainfall", status, [Jan2, Jan3]) == [Jan2];
    FirstPassResult("rainfall", status, dates);
  }

  /** The one retry pass fetches 2020-01-02 at its second GET and empties the list. */
  lemma OneRetryPass()
    ensures PassFrom("rainfall", FailsFirstOf(Jan2), State([Jan2], [Jan1, Jan2, Jan3]), 0)
         == State([], [Jan1, Jan2, Jan3, Jan2])
  {
    Jan123Distinct();
    var sent := [Jan1, Jan2, Jan3] + [Jan2];
    assert sent == [Jan1, Jan2, Jan3, Jan2];
    assert Count(sent, Jan2) == 2;
    var s := State([], sent);
    assert Request("rainfall", FailsFirstOf(Jan2), State([Jan2], [Jan1, Jan2, Jan3]), Jan2, true) == s;
    assert PassFrom("rainfall", FailsFirstOf(Jan2), s, 1) == s;
  }

  /** Every date fails once and then succeeds, yet the run needs two retry passes: in the
      first, removing 2020-01-01 from slot 0 moves 2020-01-02 into slot 0, so the pass reads
      2020-01-03 next and never tries 2020-01-02. */
  lemma SkippedDateNeedsAnotherPass(run: ReadingRun)
    requires Completed("rainfall", FailsEveryFirst(), [Jan1, Jan2, Jan3], 10, run)
    ensures run.epochs == 2
    ensures run.sent == [Jan1, Jan2, Jan3, Jan1, Jan3, Jan2]
  {
    SkipEpochs();
  }

  /** The list after zero, one and two retry passes under FailsEveryFirst. */
  lemma SkipEpochs()
    ensures var first := FirstPassFrom("rainfall", FailsEveryFirst(), State([], []), [Jan1, Jan2, Jan3]);
      Epochs("rainfall", FailsEveryFirst(), first, 0).failed != [] &&
      Epochs("rainfall", FailsEveryFirst(), first, 1) == State([Jan2], [Jan1, Jan2, Jan3, Jan1, Jan3]) &&
      Epochs("rainfall", FailsEveryFirst(), first, 2) == State([], [Jan1, Jan2, Jan3, Jan1, Jan3, Jan2])
  {
    var status := FailsEveryFirst();
    var first := FirstPassFrom("rainfall", status, State([], []), [Jan1, Jan2, Jan3]);
    EveryFirstFails();
    SkipPassOne();
    SkipPassTwo();
    assert Epochs("rainfall", status, first, 1) == State([Jan2], [Jan1, Jan2, Jan3, Jan1, Jan3]);
  }

  /** Under FailsEveryFirst the first pass lists every date. */
  lemma EveryFirstFails()
    ensures FirstPassFrom("rainfall", FailsEveryFirst(), State([], []), [Jan1, Jan2, Jan3])
         == State([Jan1, Jan2, Jan3], [Jan1, Jan2, Jan3])
  {
    Jan123Distinct();
    EveryDateFailsFirst();
    FirstPassResult("rainfall", FailsEveryFirst(), [Jan1, Jan2, Jan3]);
  }

  lemma EveryDateFailsFirst()
    ensures FailedFirst("rainfall", FailsEveryFirst(), [Jan1, Jan2, Jan3]) == [Jan1, Jan2, Jan3]
  {
    var status := FailsEveryFirst();
    var dates := [Jan1, Jan2, Jan3];
    assert forall d :: status("rainfall", d, 1) != StatusOk;
    assert dates[1..] == [Jan2, Jan3] && [Jan2, Jan3][1..] == [Jan3] && [Jan3][1..] == [];
    assert FailedFirst("rainfall", status, [Jan3]) == [Jan3];
    assert FailedFirst("rainfall", status, [Jan2, Jan3]) == [Jan2, Jan3];
  }

  /** The first retry pass under FailsEveryFirst fetches 2020-01-01 and 2020-01-03. */
  lemma SkipPassOne()
    ensures Pass("rainfall", FailsEveryFirst(), State([Jan1, Jan2, Jan3], [Jan1, Jan2, Jan3]))
         == State([Jan2], [Jan1, Jan2, Jan3, Jan1, Jan3])
  {
    var status := FailsEveryFirst();
    Jan123Distinct();
    var s0 := State([Jan1, Jan2, Jan3], [Jan1, Jan2, Jan3]);
    var s1 := State([Jan2, Jan3], [Jan1, Jan2, Jan3, Jan1]);
    var s2 := State([Jan2], [Jan1, Jan2, Jan3, Jan1, Jan3]);
    SkipStepOne();
    SkipStepTwo();
    assert PassFrom("rainfall", status, s2, 2) == s2;
    assert PassFrom("rainfall", status, s1, 1) == s2;
  }

  lemma SkipStepOne()
    ensures Request("rainfall", FailsEveryFirst(), State([Jan1, Jan2, Jan3], [Jan1, Jan2, Jan3]), Jan1, true)
         == State([Jan2, Jan3], [Jan1, Jan2, Jan3, Jan1])
  {
    Jan123Distinct();
    var sent := [Jan1, Jan2, Jan3] + [Jan1];
    assert sent == [Jan1, Jan2, Jan3, Jan1];
    assert Count(sent, Jan1) == 2;
    assert [Jan1, Jan2, Jan3][1..] == [Jan2, Jan3];
  }

  lemma SkipStepTwo()
    ensures Request("rainfall", FailsEveryFirst(), State([Jan2, Jan3], [Jan1, Jan2, Jan3, Jan1]), Jan3, true)
         == State([Jan2], [Jan1, Jan2, Jan3, Jan1, Jan3])
  {
    Jan123Distinct();
    var sent := [Jan1, Jan2, Jan3, Jan1] + [Jan3];
    assert sent == [Jan1, Jan2, Jan3, Jan1, Jan3];
    assert Count(sent, Jan3) == 2;
    assert [Jan2, Jan3][1..] == [Jan3];
    assert RemoveFirst([Jan3], Jan3) == [];
    assert RemoveFirst([Jan2, Jan3], Jan3) == [Jan2];
  }

  /** The second retry pass fetches 2020-01-02 at its second GET and empties the list. */
  lemma SkipPassTwo()
    ensures Pass("rainfall", FailsEveryFirst(), State([Jan2], [Jan1, Jan2, Jan3, Jan1, Jan3]))
         == State([], [Jan1, Jan2, Jan3, Jan1, Jan3, Jan2])
  {
    Jan123Distinct();
    var sent := [Jan1, Jan2, Jan3, Jan1, Jan3] + [Jan2];
    assert sent == [Jan1, Jan2, Jan3, Jan1, Jan3, Jan2];
    assert Count(sent, Jan2) == 2;
    var s := State([], sent);
    assert Request("rainfall", FailsEveryFirst(), State([Jan2], [Jan1, Jan2, Jan3, Jan1, Jan3]), Jan2, true) == s;
    assert PassFrom("rainfall", FailsEveryFirst(), s, 1) == s;
  }
}
