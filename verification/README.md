# dbt Cloud CI cancel action, modelled in Dafny

The action runs at the start of a CI job. It fetches the most recent runs of one dbt Cloud job,
newest first. It skips the newest run, because that is taken to be the CI run that just
started, and keeps the next five. It decodes each run's integer status with the map
1 Queued, 2 Starting, 3 Running, 10 Success, 20 Error and 30 Cancelled. It sends a cancel
request for every run that is Queued, Starting or Running, and it takes the cancellation time
from each confirmation. It then reports three things: a flag saying whether anything was
cancelled, the cancelled run ids in order, and a markdown comment for the pull request.

The model covers that pipeline as pure functions:

- `RunStatus` (status.dfy): the status table and the "in flight" policy.
- `Slicing` (slicing.dfy): Python's `s[lo:hi]`.
- `Runs` (runs.dfy): the candidate window and the reduction of each run to (id, status, link).
- `Json` (json.dfy): the confirmation payload and Python's subscript `j[k]`.
- `Cancellation` (cancel.dfy): extracting the timestamp from either response shape, and the
  loop that cancels in-flight runs.
- `Decimal` (decimal.dfy): rendering run ids in base 10 inside the markdown.
- `Report` (report.dfy): the flag, the id list and the markdown.
- `Action` (action.dfy): the whole invocation.
- `Wrappers`/`Faults` (wrappers.dfy): `Option`, `Result`, and the two ways an invocation can fail.

The service is a parameter. The run list is an input. The answer to each cancel request is a
total function `respond` from run id to JSON payload. An invocation therefore either returns an
outcome or fails with one of two faults:

- `UnknownStatus(code)`: the `KeyError` of main.py:65.
- `MalformedResponse(runId)`: the error escaping the fallback at main.py:92.

Because cancel requests already sent cannot be taken back, an outcome records them even when
the invocation fails midway.

The code keeps five candidates (`[1:6]` at main.py:53), although the comment at main.py:51
speaks of four; the model follows the code. The ten-second pause (main.py:106) happens after
the run list is fetched and before any cancel request; it has no effect on the model.

## Model

| member | source | states |
|---|---|---|
| RunStatus.Decode | main.py:33-40 | each of the six codes decodes to its own status, and to no other; every other code is an unknown-status fault naming that code |
| RunStatus.ActiveLabels | main.py:115 | a status counts as in flight exactly when its label is Queued, Starting or Running; Success, Error and Cancelled are exactly the others |
| Slicing.Slice | main.py:53 | Python slicing: the length clamps to the sequence and is zero for an empty or out-of-range window; element i is element lo+i of the input |
| Runs.Window | main.py:53 | the window skips the newest run and keeps at most five runs, in the same order as the listing; an empty or one-run listing leaves no candidates |
| Runs.Reduce | main.py:59-71 | the reduction succeeds exactly when every status decodes; then it keeps order and length, and each entry holds its run's id, decoded status and link; otherwise the fault names the first undecodable status |
| Runs.RecentRuns | main.py:46-73 | the candidates exist exactly when every status in positions 1 to 5 decodes; candidate i is run i+1 reduced |
| Runs.NewestNeverCandidate | main.py:51-53 | when ids strictly decrease down the listing, the newest run's id is never among the candidates |
| Cancellation.TimestampExtraction | main.py:79-95 | a timestamp exists exactly when the flat or the nested field holds a string; the flat field is preferred; the result is its first min(19, length) characters; otherwise the fault names the run |
| Cancellation.BothShapesAgree | main.py:87-92 | the flat and the nested confirmation of the same finish time give the same timestamp |
| Cancellation.SecondsPrecision | main.py:90 | a finish time with fractional seconds and an offset is cut back to its 19-character date and time |
| Cancellation.FlatFallsBack | main.py:89-92 | when the flat `finished_at` is missing or not a string, the nested field alone decides: its first 19 characters, or a malformed-response fault naming the run when it is not a string either |
| Cancellation.NullFlatFallsBack | main.py:89-92 | a null flat `finished_at` next to a nested string gives way to the nested one |
| Cancellation.NoDataIsMalformed | main.py:90-92 | a confirmation without a `data` field is a malformed-response fault for that run |
| Cancellation.ActiveIndices | main.py:112-115 | exactly the positions of in-flight candidates, in increasing order |
| Cancellation.ActiveIsSubsequence | main.py:112-115 | the runs chosen for cancelling are the in-flight candidates in their original order, and nothing else |
| Cancellation.NothingActive | main.py:115 | when no candidate is in flight, nothing is chosen |
| Cancellation.CancelEach | main.py:112-124 | requests go out for the in-flight candidates in order, stopping at the first failure; on success one record exists per request |
| Cancellation.IssuedPrefix | main.py:112-118 | the requests sent are a prefix of the in-flight ids, and all of them when the loop completes |
| Cancellation.FaultNamesLastRequest | main.py:89-92 | when the loop fails, at least one request was sent, the fault names the last run requested, that run's confirmation had no timestamp, and every earlier request was confirmed |
| Cancellation.ConfirmedBeforeFault | main.py:112-118 | the loop stops at the first confirmation without a timestamp: every request before the failing one was confirmed, so no later in-flight run is sent a request |
| Cancellation.CancelSucceedsIffConfirmed | main.py:112-124 | the loop completes exactly when every in-flight candidate's confirmation carries a timestamp |
| Cancellation.CancelledRecordsCandidates | main.py:118-124 | the k-th record holds the k-th in-flight candidate's id, status and link, with the timestamp from that run's confirmation |
| Cancellation.CancelledIdsAreIssued | main.py:121-124 | the ids of the records are exactly the requests sent |
| Cancellation.NoRunCancelledTwice | main.py:112-118 | with distinct candidate ids, no run receives two cancel requests |
| Cancellation.CancelledIffActive | main.py:112-118 | with distinct candidate ids, a candidate receives a request only if it is in flight, and every in-flight candidate receives one when the loop completes |
| Report.Summarise | main.py:126-157 | the flag is set exactly when something was cancelled; the id list and markdown are present exactly when the flag is; the ids follow the records in order; the markdown starts with the fixed header |
| Report.MarkdownListsRunsInOrder | main.py:133-145 | the markdown is the header followed by one segment per cancelled run, in order, so the segment for run k follows those of runs 0 to k-1 |
| Report.SegmentShowsId | main.py:145 | the id written in a run's segment reads back as that run's id |
| Decimal.IntRoundTrip | main.py:145 | the decimal rendering of an id is digits after an optional minus sign and parses back to the id |
| Decimal.IntToStringInjective | main.py:145 | two different run ids are never written as the same text in the markdown |
| Action.Invoke | main.py:101-157 | an undecodable status stops the action before any cancel request; otherwise the requests are those of the cancel loop over the candidates |
| Action.ReportMatchesRequests | main.py:112-148 | on success the flag is set exactly when a request was sent, and the reported ids are the requests in order |
| Action.FailureNamesLastRequest | main.py:112-124 | a failing invocation sent at least one request and names the last run requested; that run's confirmation had no timestamp and every earlier request's did, so the action stopped at the first failure |
| Action.IssuedOnlyForActiveWindowRuns | main.py:53-118 | every request goes to a run in positions 1 to 5 of the listing whose status code is 1, 2 or 3 |
| Action.EveryActiveWindowRunCancelled | main.py:53-148 | on success every run in positions 1 to 5 with code 1, 2 or 3 is requested and reported |
| Action.NewestFirstGuarantees | main.py:51-118 | with a newest-first listing, the newest run is never cancelled, a run that is not in flight is never cancelled, and no run is cancelled twice |
| Action.QuietWhenNothingInFlight | main.py:112-157 | when every run in the window is finished, no request is sent and the report is the bare false flag |
| Action.Example | main.py:101-157 | runs 101 (Queued), 100 (Running), 99 (Success), 98 (Queued): 101 and 99 are left alone; 100 and 98 are cancelled and reported in that order |

## Left out

- HTTP: the two requests (main.py:46-53, main.py:79-85) and their 30-second timeouts are not modelled. The run listing is an input and the cancel answers are the `respond` parameter; network errors and non-JSON bodies are not modelled.
- Configuration: reading the environment and building the headers and base URL (main.py:1-29) is I/O and is left out.
- The ten-second pause (main.py:106) is left out, because it changes no value.
- The `::set-output` lines (main.py:130, 148, 151, 157) are left out, because they are printing. The report keeps their values as data. The Python rendering of the id list as `[100, 98]` (main.py:148) is not modelled; the ids are kept as a sequence.
- Runs.RecentRuns: run records are typed (`id`, `status`, `href`), so the model cannot express a record missing a key or a status that is not an integer. In Python a missing key raises `KeyError` at main.py:62-68, a string status such as `"1"` raises `KeyError` at main.py:65, and `1.0` or `True` is looked up as 1 and decodes to Queued.
- Cancellation.ExtractTimestamp: only a string `finished_at` counts as a timestamp. Python would also slice a list there and return a list, which the model treats as a missing field and falls back to the nested shape.
- Json: floats are left out; numbers are integers, which is all the payload fields used here need.
- Branch or pull-request matching, schema overrides and a configurable cancel policy do not exist in main.py and are not modelled.
