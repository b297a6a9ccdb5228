# sgweather-py: the retry worklist of `get_data.py`, in Dafny

`get_data.py` downloads the daily readings of five weather categories from data.gov.sg,
one GET per date. `run` loops over the readings. For each reading it:

- makes a first pass over every date in the range, in order;
- keeps the dates whose request failed in a list, `failed_dates`;
- walks that list again and again until it is empty, counting the passes in `epoch`.

`do_request` does the bookkeeping:

- a failed first attempt appends its date to the list;
- a successful repeat attempt removes its date from the list;
- nothing else touches the list.

This project models that worklist and proves what it does.

- `list_ops.dfy` (module `ListOps`) holds Python's `list.remove` as `RemoveFirst`. It also
  holds the subsequence order and duplicate freedom that the proofs about the list use.
- `schedule.dfy` (module `Schedule`) is the value-level meaning of the worklist.
  - The network is a status oracle, `status(reading, date, n)`. It gives the status code
    of the `n`-th GET of `date` for `reading`.
  - The attempt number is how often `date` occurs in the log `sent` of dates requested so
    far.
  - The functions describe the list: `Request` (one `do_request`), `PassFrom`/`Pass` (one
    retry pass), `Epochs` (several passes) and `FirstPassFrom` (the first pass).
  - The lemmas prove the properties of these functions.
- `get_data.dfy` (module `GetData`) is the code itself, as imperative Dafny.
  - `failed_dates` is an object, `FailedDates`, that `do_request` changes in place.
  - The endpoint of a reading is an object, `Endpoint`, that answers GETs and logs them.
  - `DoRequest`, `FirstPass`, `RetryPass`, `RunReading` and `Run` are methods with the loops of the
    source. Each is proved equal to the functions of `Schedule`.
- `dates.dfy` (module `Dates`) is the `years` comprehension: the year folders.
- `scenarios.dfy` (module `Scenarios`) works out two concrete three-day runs.

Two behaviours of the code are modelled as written:

- **The retry pass reads the list it is shrinking.** Python's `for` over a list goes by
  index. When `do_request` removes the entry at slot `i`, the next entry moves into slot
  `i`, and the pass goes on at slot `i + 1`. So the entry after a removed one is not
  retried in that pass; it waits for the next one. `PassFrom` follows the index.
  `SkipsSuccessor` and `SkippedDateNeedsAnotherPass` show the skip. A design that
  iterated over a copy of the list would retry every listed date in each pass; the code
  does not do that.
- **`threshold` does not stop the loop.** Once `epoch > threshold`, each pass prints a
  warning. There is no `break`, so `while len(failed_dates) > 0` ends only when the list
  is empty, and a date that never succeeds keeps it running forever
  (`PermanentFailureNeverExits`). The model counts the warnings (`Warnings`).
  - The loop ends exactly when every date whose first GET failed succeeds on some later
    GET (`RetriesEventuallySucceed`).
  - `RunReading` proves that it ends under that condition; `RetryBound` supplies the ghost
    bound its proof needs.
  - `RetriesNeededToEnd` proves that without it no run of the reading completes.
  - If each such date succeeds by attempt `bound + 1` (`RetriesSucceed`), at most `bound`
    passes per failed date are needed.

  A description of the program as stopping after `threshold` passes does not match the
  code; the model follows the code.

## Model

| member | source | states |
|---|---|---|
| Schedule.Count | get_data.py:10-11 | the attempt number of a GET is how often its date was requested, counting this one; it is zero exactly for a date never requested |
| Schedule.Request | get_data.py:9-21 | one `do_request` logs the date and raises its attempt number by one; a first attempt can only append to the list, a repeated one can only shorten it |
| ListOps.RemoveFirst | get_data.py:16 | `list.remove(x)` drops exactly one `x` when there is one: the multiset loses `x` once and the length drops by one; a list without `x` is unchanged |
| ListOps.RemoveFirstAt | get_data.py:15-16 | `remove` takes out the slot of the first `x`; what precedes it stays in place and what follows keeps its order |
| ListOps.RemoveFirstSubseq | get_data.py:15-16 | what remains after `remove` is an in-order subsequence of the list before |
| ListOps.RemoveFirstShift | get_data.py:52-53 | after removing the entry at slot `i`, the slots after `i` hold what was after slot `i + 1` |
| Schedule.Bookkeep | get_data.py:11-21 | a first attempt keeps the list as a prefix and adds the date once, only on failure; a repeat attempt never grows the list, keeps it an in-order subsequence, and removes one copy of the date, only on success |
| Schedule.FirstPassFrom | get_data.py:47-48 | the first pass adds exactly `dates` to the log, one GET per date in order, and only appends to the list |
| Schedule.FailedFirst | get_data.py:46-48 | reference list of the first pass: an in-order subsequence of `dates` holding exactly the dates whose first GET failed |
| Schedule.FirstPassFromFiltered | get_data.py:46-48 | the first pass from any log that has not yet requested the (distinct) dates appends exactly `FailedFirst` and requests each date once, in order |
| Schedule.FirstPassResult | get_data.py:46-48 | after the first pass from an empty list, `failed_dates` equals `FailedFirst(dates)`, has no duplicates, and the log is `dates` |
| Schedule.PassFrom | get_data.py:52-53 | the rest of a retry pass from slot `i` leaves an in-order subsequence of the list it started from |
| Schedule.PassFromVisits | get_data.py:52-53 | the dates a pass requests from slot `i` on are an in-order subsequence of the list's slots from `i` on: no slot is visited twice |
| Schedule.Pass | get_data.py:52-53 | one retry pass, the rest of the pass from slot 0, never adds to the list or reorders it |
| Schedule.PassVisits | get_data.py:52-53 | one retry pass requests each listed date at most once and in list order, starting with the head of the list |
| Schedule.SkipsSuccessor | get_data.py:52-53 | when the retry at slot `i` succeeds, the next entry moves into slot `i` and is not requested again in that pass |
| Schedule.Epochs | get_data.py:51-54 | the state after `n` passes of the `while` body; passes over an empty list request nothing |
| Schedule.EpochsShrink | get_data.py:51-53 | after more passes the list is an in-order subsequence of the list after fewer, so its length never increases |
| Schedule.RetriesWithinDates | get_data.py:46-53 | at every pass count, whether the loop ends or not, the list is an in-order subsequence of `dates` without duplicates and no longer than after the first pass; it holds exactly the dates that have failed every GET so far, so a date fetched once never comes back |
| Schedule.PermanentFailureNeverExits | get_data.py:51-57 | a listed date whose every GET fails stays in the list after any number of passes, so the loop never ends |
| Schedule.Warnings | get_data.py:54-57 | the number of warnings after `epochs` passes is the number of pass counts above `threshold` (all of them when `threshold` is negative) |
| Schedule.Completed | get_data.py:50-57 | a finished run of one reading: the list is empty after `epochs` passes and after no fewer, the warnings are as `Warnings`, and there is at most one per pass |
| Schedule.CompletedUnique | get_data.py:50-57 | the end state of a reading's run (list, log, pass count, warnings) is determined by the oracle, the dates and the threshold |
| Schedule.PassFromLowersPotential | get_data.py:51-53 | while every listed date has failed all its GETs so far and succeeds by attempt `bound + 1`, a pass from slot `i` keeps that so and strictly lowers the number of failures still possible when it requests a date |
| Schedule.RetryBound | get_data.py:51-53 | when every date whose first GET failed succeeds on some later GET, some `bound` exists by which each of them succeeds |
| Schedule.RetriesNeededToEnd | get_data.py:51-57 | when some date whose first GET failed never succeeds on a later GET, no run of the reading completes: the `while` loop never ends |
| Schedule.ReadingIndependent | get_data.py:46-57 | a reading's run depends only on the oracle's answers for that reading: two oracles that agree on it give the same runs |
| GetData.FailedDates.constructor | get_data.py:46 | each reading starts with an empty `failed_dates` |
| GetData.FailedDates.Append | get_data.py:21 | `append` adds the date at the end and changes nothing else |
| GetData.FailedDates.Remove | get_data.py:16 | `remove` of a listed date leaves `RemoveFirst` of the old list |
| GetData.Endpoint.constructor | get_data.py:10 | the endpoint of one reading answers from the oracle and has logged no GET yet |
| GetData.Endpoint.Get | get_data.py:10-11 | a GET logs the date and returns the oracle's status code for that attempt number |
| GetData.DoRequest | get_data.py:9-21 | the list and the log after `do_request` are those of `Request`, so `Bookkeep`'s append and remove rules hold for the object |
| GetData.FirstPass | get_data.py:47-48 | the `for` over `dates` with `repeated=False` leaves the list and log of `FirstPassFrom`; started, as in `run`, from an empty list and a fresh endpoint over distinct dates, the list after it is `FailedFirst(dates)` (`FirstPassResult`) |
| GetData.RetryPass | get_data.py:52-53 | the by-index `for` over the list it mutates leaves the list and log of `Pass` |
| GetData.RunReading | get_data.py:46-57 | first pass, then retry passes until the list is empty; when every date whose first GET failed succeeds by attempt `bound + 1`, it ends with an empty list after `epochs` passes, each earlier pass count leaving dates behind, warnings as `Warnings`, and at most `bound` passes per date of `FailedFirst` |
| GetData.Readings | get_data.py:33 | the five reading categories, with no repeats, as a set literal has |
| GetData.Run | get_data.py:33-57 | when, for every reading, each date whose first GET failed succeeds on some later GET, every one of the five readings gets its own completed run |
| Dates.Year | get_data.py:31 | `date[0:4]` is a prefix of the date, four characters long when the date has at least four |
| Dates.Years | get_data.py:31 | `years` contains the first four characters of every date, and nothing else |
| Dates.YearsCount | get_data.py:31 | there are no more years than dates, and at least one year when there is a date |
| Dates.YearsConcat | get_data.py:31 | the years of two date ranges together are the union of their years |
| Dates.YearsOfDateKeys | get_data.py:28-31 | for `YYYY-MM-DD` dates every year folder name is four digits |
| Scenarios.OneRetry | get_data.py:46-57 | a three-day rainfall run whose only failure is the first GET of 2020-01-02 ends after one retry pass, with no warning, having requested 2020-01-02 twice |
| Scenarios.OnAndOffEnds | get_data.py:51-53 | an API that fails every odd-numbered GET forever still meets the requires of `RunReading` with `bound` 1, because every date succeeds on its second attempt |
| Scenarios.SkippedDateNeedsAnotherPass | get_data.py:52-53 | when every first GET fails and every second succeeds, the first retry pass fetches 2020-01-01 and 2020-01-03 but skips 2020-01-02, which needs a second pass |

## Left out

- `requests.get` (get_data.py:10) is network I/O. The model takes the status codes from an oracle that is a parameter. Each reading's oracle depends only on the reading, the date and the attempt number.
- Writing the JSON file and the console messages (get_data.py:12-14, 18-19, 56-57) are not modelled. `Warnings` only counts the "Too many failed attempts" messages.
- `os.path.isdir` and `os.mkdir` (get_data.py:38-43) are filesystem effects and are left out. Only the folder names, `years`, are modelled.
- `pd.date_range(...).strftime(...)` (get_data.py:28) is calendar expansion in pandas and is not part of this model. `dates` is given as a sequence of distinct strings, which is what a day range yields.
- The default arguments are not modelled: `start_date="2016-12-14"` and `threshold=10` (get_data.py:26), and `repeated=False` (get_data.py:9). `Run` takes `dates` and `threshold` explicitly, and every `Request` and `DoRequest` states `repeated`.
- The `datetime.now()` default end date (get_data.py:26) and the interactive `input()` entry point (get_data.py:60-64) are clock and console I/O.
- `requests.get`, `open` and `write` (get_data.py:10, 12-13) can raise: a connection error, a timeout, a missing folder, a full disk. `run` catches none of these, so the script stops and the readings after the current one are never fetched. The oracle only returns status codes, so the model has no such path.
- `readings` is a set literal (get_data.py:33) and Python iterates it in no fixed order. The model goes through it in the literal's order. `ReadingIndependent` shows that the order cannot change the result of any reading whose run ends. The order does decide which readings are reached: a reading whose loop never ends stops every reading after it, and so does a raised exception.
- ListOps.RemoveFirst: Python's `remove` raises `ValueError` for an absent date. The model returns the list unchanged instead, and `FailedDates.Remove` requires the date to be listed. `do_request` only removes dates taken from the list, so the error never happens.
- GetData.RunReading: a method must end, so it requires `RetriesSucceed`: every date whose first GET failed succeeds by attempt `bound + 1`. Some such `bound` exists exactly when the Python loop ends (`RetryBound`, `RetriesNeededToEnd`). The ghost `bound` only serves the proof and the pass-count bound. `RunReading` also requires distinct dates, which a day range yields.
- GetData.Run: it requires `RetriesEventuallySucceed` for every reading, because otherwise that reading's loop never ends (`RetriesNeededToEnd`) and `run` never returns. It also requires distinct dates, as `RunReading` does.
