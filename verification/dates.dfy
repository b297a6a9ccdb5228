/** The year folders of `run`: `years = {date[0:4] for date in dates}`.  `do_request` writes
    the response for `date` into the folder `./{reading}/{date[0:4]}/`, which `run` creates
    for every year in `years` before any request is made. */
module Dates {

  /** Python's `date[0:4]`: the first four characters, or the whole string when shorter. */
  function Year(date: string): (y: string)
    // a prefix of the date, four characters long when the date has four
    ensures y <= date
    ensures |y| == if |date| < 4 then |date| else 4
  {
    if |date| < 4 then date else date[..4]
  }

  /** `{date[0:4] for date in dates}` */
  function Years(dates: seq<string>): (years: set<string>)
    // the folder of every date's artifact is among the years
    ensures forall i :: 0 <= i < |dates| ==> Year(dates[i]) in years
    // and every year is the prefix of some date
    ensures forall y :: y in years ==> exists i :: 0 <= i < |dates| && y == Year(dates[i])
  {
    set d | d in dates :: Year(d)
  }

  /** There are never more years than dates, and some year as soon as there is a date. */
  lemma YearsCount(dates: seq<string>)
    ensures |Years(dates)| <= |dates|
    ensures dates != [] ==> |Years(dates)| >= 1
  {
    var i := |dates|;
    while i > 0
      invariant 0 <= i <= |dates|
      invariant |Years(dates[i..])| <= |dates| - i
      invariant i < |dates| ==> |Years(dates[i..])| >= 1
    {
      i := i - 1;
      YearsCons(dates, i);
    }
    assert dates[0..] == dates;
  }

  /** The years from slot `i` on are the year of slot `i` and the years after it. */
  lemma YearsCons(dates: seq<string>, i: nat)
    requires i < |dates|
    ensures Years(dates[i..]) == {Year(dates[i])} + Years(dates[i + 1..])
  {
    assert [dates[i]] + dates[i + 1..] == dates[i..];
    YearsConcat([dates[i]], dates[i + 1..]);
    YearsSingle(dates[i]);
  }

  lemma YearsSingle(date: string)
    ensures Years([date]) == {Year(date)}
  {
    assert [date][0] == date;
  }

  /** The years of two stretches of dates together are the years of each. */
  lemma YearsConcat(a: seq<string>, b: seq<string>)
    ensures Years(a + b) == Years(a) + Years(b)
  {
    forall y | y in Years(a + b)
      ensures y in Years(a) + Years(b)
    {
      var i :| 0 <= i < |a + b| && y == Year((a + b)[i]);
      if i < |a| {
        assert (a + b)[i] == a[i];
      } else {
        assert (a + b)[i] == b[i - |a|];
      }
    }
    forall y | y in Years(a) + Years(b)
      ensures y in Years(a + b)
    {
      if y in Years(a) {
        var i :| 0 <= i < |a| && y == Year(a[i]);
        assert (a + b)[i] == a[i];
      } else {
        var i :| 0 <= i < |b| && y == Year(b[i]);
        assert (a + b)[|a| + i] == b[i];
      }
    }
  }

  predicate IsDigit(c: char) {
    '0' <= c <= '9'
  }

  /** `YYYY-MM-DD`, as `strftime("%Y-%m-%d")` writes a date. */
  predicate IsDateKey(s: string) {
    |s| == 10 && s[4] == '-' && s[7] == '-' &&
    forall i :: 0 <= i < 10 && i != 4 && i != 7 ==> IsDigit(s[i])
  }

  /** For well-formed date keys every year folder name is four digits, the `YYYY` part. */
  lemma YearsOfDateKeys(dates: seq<string>)
    requires forall i :: 0 <= i < |dates| ==> IsDateKey(dates[i])
    ensures forall y :: y in Years(dates) ==> |y| == 4 && forall j :: 0 <= j < 4 ==> IsDigit(y[j])
  {
    forall y | y in Years(dates)
      ensures |y| == 4 && forall j :: 0 <= j < 4 ==> IsDigit(y[j])
    {
      var i :| 0 <= i < |dates| && y == Year(dates[i]);
      assert IsDateKey(dates[i]);
    }
  }
}
