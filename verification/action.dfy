/** One invocation of the action, from the fetched run list to the three reported values. */
module Action {
  import opened Wrappers
  import opened Faults
  import opened Slicing
  import opened Json
  import opened RunStatus
  import opened Runs
  import opened Cancellation
  import opened Report

  /** What one invocation did and produced: the ids it sent cancel requests for, in order,
      and the report, or the fault that aborted it before anything was reported. */
  datatype Outcome = Outcome(issued: seq<int>, report: Result<Report, Fault>)

  /** `main`, given the `data` list of the runs endpoint (newest first) and the confirmation
      payload the service sends back for each cancel request. All statuses in the window
      are decoded before any cancel request is sent. */
  function Invoke(data: seq<RunRecord>, respond: int -> Json): (o: Outcome)
    ensures RecentRuns(data).Err? ==> o == Outcome([], Err(RecentRuns(data).error))
    ensures RecentRuns(data).Ok? ==> o.issued == CancelEach(RecentRuns(data).value, respond).issued
  {
    match RecentRuns(data)
    case Err(e) => Outcome([], Err(e))
    case Ok(cands) =>
      var c := CancelEach(cands, respond);
      match c.result
      case Err(e) => Outcome(c.issued, Err(e))
      case Ok(done) => Outcome(c.issued, Ok(Summarise(done)))
  }

  /** The reported values agree with what was done: the flag is set exactly when some cancel
      request was sent, and then the id list is exactly those requests, in order. */
  lemma ReportMatchesRequests(data: seq<RunRecord>, respond: int -> Json)
    requires Invoke(data, respond).report.Ok?
    ensures var o := Invoke(data, respond);
      && (o.report.value.cancelledFlag <==> 0 < |o.issued|)
      && (o.report.value.cancelledFlag ==> o.report.value.cancelledIds == Some(o.issued))
  {
    CancelledIdsAreIssued(RecentRuns(data).value, respond);
  }

  /** A failure after the fetch names the run whose cancel confirmation had no timestamp,
      and that run was the last one sent a cancel request: every earlier request was
      confirmed, and the loop went no further. */
  lemma FailureNamesLastRequest(data: seq<RunRecord>, respond: int -> Json)
    requires RecentRuns(data).Ok? && Invoke(data, respond).report.Err?
    ensures var o := Invoke(data, respond);
      && 0 < |o.issued|
      && o.report.error == MalformedResponse(o.issued[|o.issued| - 1])
      && ExtractTimestamp(o.issued[|o.issued| - 1], respond(o.issued[|o.issued| - 1])).Err?
      && forall n :: 0 <= n < |o.issued| - 1 ==> ExtractTimestamp(o.issued[n], respond(o.issued[n])).Ok?
  {
    FaultNamesLastRequest(RecentRuns(data).value, respond);
  }

  /** Soundness of the policy: every cancel request names a run among the five fetched
      after the newest one, and that run's status code is 1, 2 or 3. */
  lemma {:induction false} IssuedOnlyForActiveWindowRuns(data: seq<RunRecord>, respond: int -> Json, n: nat)
    requires n < |Invoke(data, respond).issued|
    ensures exists i ::
      && 1 <= i < Min(|data|, WindowEnd)
      && data[i].id == Invoke(data, respond).issued[n]
      && data[i].status in {1, 2, 3}
  {
    var cands := RecentRuns(data).value;
    var issued := CancelEach(cands, respond).issued;
    ActivePrefixPositions(cands, issued);
    var p := ActiveIndices(cands)[n];
    assert ReducedFrom(cands[p], data[p + 1]);
    ActiveCodes(data[p + 1].status);
    assert 1 <= p + 1 < Min(|data|, WindowEnd);
  }

  /** Completeness of the policy: when the invocation succeeds, every run among the five
      after the newest whose status code is 1, 2 or 3 was sent a cancel request and is
      listed in the report. */
  lemma {:induction false} EveryActiveWindowRunCancelled(data: seq<RunRecord>, respond: int -> Json, i: nat)
    requires Invoke(data, respond).report.Ok?
    requires 1 <= i < Min(|data|, WindowEnd)
    requires data[i].status in {1, 2, 3}
    ensures data[i].id in Invoke(data, respond).issued
    ensures Invoke(data, respond).report.value.cancelledIds.Some?
    ensures data[i].id in Invoke(data, respond).report.value.cancelledIds.value
  {
    var cands := RecentRuns(data).value;
    var o := Invoke(data, respond);
    ReportMatchesRequests(data, respond);
    assert CancelEach(cands, respond).result.Ok?;
    assert ReducedFrom(cands[i - 1], data[i]);
    ActiveCodes(data[i].status);
    ActiveAllIssued(cands, i - 1);
    IssuedPrefix(cands, respond);
  }

  /** Candidate ids inherit distinctness from a newest-first run list. */
  lemma {:induction false} NewestFirstCandidatesUnique(data: seq<RunRecord>)
    requires NewestFirst(data) && RecentRuns(data).Ok?
    ensures Unique(CandidateIds(RecentRuns(data).value))
  {
    var cands := RecentRuns(data).value;
    forall j, k | 0 <= j < k < |cands|
      ensures CandidateIds(cands)[j] != CandidateIds(cands)[k]
    {
      assert ReducedFrom(cands[j], data[j + 1]) && ReducedFrom(cands[k], data[k + 1]);
    }
  }

  /** In a newest-first list, a run id occurs at one position only. */
  lemma NewestFirstPosition(data: seq<RunRecord>, a: nat, b: nat)
    requires NewestFirst(data) && a < |data| && b < |data| && data[a].id == data[b].id
    ensures a == b
  {
  }

  /** With a newest-first run list: the just-triggered run is never cancelled, no run is
      sent two cancel requests, and a run whose status code is not 1, 2 or 3 never gets one. */
  lemma {:induction false} NewestFirstGuarantees(data: seq<RunRecord>, respond: int -> Json, i: nat)
    requires NewestFirst(data) && i < |data|
    ensures var issued := Invoke(data, respond).issued;
      && (i == 0 ==> data[i].id !in issued)
      && (data[i].status !in {1, 2, 3} ==> data[i].id !in issued)
      && Unique(issued)
  {
    var issued := Invoke(data, respond).issued;
    if data[i].id in issued {
      var n :| 0 <= n < |issued| && issued[n] == data[i].id;
      IssuedOnlyForActiveWindowRuns(data, respond, n);
      var j :| 1 <= j < Min(|data|, WindowEnd) && data[j].id == issued[n] && data[j].status in {1, 2, 3};
      NewestFirstPosition(data, j, i);
    }
    if RecentRuns(data).Ok? {
      NewestFirstCandidatesUnique(data);
      NoRunCancelledTwice(RecentRuns(data).value, respond);
    }
  }

  /** Idempotence: when no run in the window is still in flight (as after a previous
      invocation cancelled them), nothing is cancelled and only a false flag is reported,
      whatever the service would answer. */
  lemma {:induction false} QuietWhenNothingInFlight(data: seq<RunRecord>, respond: int -> Json)
    requires forall i :: 1 <= i < Min(|data|, WindowEnd) ==> data[i].status in {10, 20, 30}
    ensures Invoke(data, respond) == Outcome([], Ok(Report(false, None, None)))
  {
    var cands := RecentRuns(data).value;
    forall k | 0 <= k < |cands|
      ensures !IsActive(cands[k].status)
    {
      assert ReducedFrom(cands[k], data[k + 1]);
      ActiveCodes(data[k + 1].status);
    }
    NothingActive(cands);
    CancelSucceedsIffConfirmed(cands, respond);
  }

  /** A worked invocation: the newest run 101 is skipped, 100 (Running) and 98 (Queued) are
      cancelled, one confirmation in each shape, and 99 (Success) is left alone. */
  function ExampleRuns(): seq<RunRecord>
  {
    [ RunRecord(101, 1, "https://cloud.getdbt.com/#/runs/101"),
      RunRecord(100, 3, "https://cloud.getdbt.com/#/runs/100"),
      RunRecord(99, 10, "https://cloud.getdbt.com/#/runs/99"),
      RunRecord(98, 1, "https://cloud.getdbt.com/#/runs/98") ]
  }

  /** The window of the worked invocation, reduced. */
  function ExampleCandidates(): seq<Candidate>
  {
    [ Candidate(100, Running, "https://cloud.getdbt.com/#/runs/100"),
      Candidate(99, Success, "https://cloud.getdbt.com/#/runs/99"),
      Candidate(98, Queued, "https://cloud.getdbt.com/#/runs/98") ]
  }

  /** The service answers the cancel of run 100 in the flat shape and any other in the nested one. */
  function ExampleRespond(id: int): Json
  {
    if id == 100 then FlatPayload("2024-05-01T10:00:00.123456+00:00")
    else NestedPayload("2024-05-01T10:00:01.5+00:00")
  }

  /** Runs 100, 99 and 98 become candidates; 101 does not. */
  lemma ExampleWindow()
    ensures RecentRuns(ExampleRuns()) == Ok(ExampleCandidates())
  {
    var data := ExampleRuns();
    var cands := ExampleCandidates();
    assert Decode(3) == Ok(Running) && Decode(10) == Ok(Success) && Decode(1) == Ok(Queued);
    var r := RecentRuns(data);
    assert r.Ok? && |r.value| == 3;
    forall k | 0 <= k < 3
      ensures r.value[k] == cands[k]
    {
      assert ReducedFrom(r.value[k], data[k + 1]);
    }
    assert r.value == cands;
  }

  /** The policy selects 100 (Running) and 98 (Queued) and skips 99 (Success). */
  lemma ExampleSelection()
    ensures Active(ExampleCandidates()) == [ExampleCandidates()[0], ExampleCandidates()[2]]
  {
    var cands := ExampleCandidates();
    assert cands[..1] == [cands[0]] && [cands[0]][..0] == [];
    assert cands[..2][..1] == cands[..1] && cands[..3][..2] == cands[..2] && cands[..3] == cands;
    assert Active(cands[..1]) == [cands[0]];
    assert Active(cands[..2]) == [cands[0]];
  }

  /** Both confirmations carry a timestamp, so the loop completes after two requests. */
  lemma ExampleCancels()
    ensures CancelEach(ExampleCandidates(), ExampleRespond).result.Ok?
    ensures CancelEach(ExampleCandidates(), ExampleRespond).issued == [100, 98]
  {
    var cands := ExampleCandidates();
    var act := Active(cands);
    ExampleSelection();
    CancelSucceedsIffConfirmed(cands, ExampleRespond);
    assert CandidateIds(act) == [100, 98];
    forall k | 0 <= k < |act|
      ensures Confirmed(act[k], ExampleRespond)
    {
      BothShapesAgree(act[k].runId, if k == 0 then "2024-05-01T10:00:00.123456+00:00" else "2024-05-01T10:00:01.5+00:00");
    }
  }

  /** The whole invocation reports runs 100 and 98 as cancelled. */
  lemma Example()
    ensures var o := Invoke(ExampleRuns(), ExampleRespond);
      && o.issued == [100, 98]
      && o.report.Ok?
      && o.report.value.cancelledFlag
      && o.report.value.cancelledIds == Some([100, 98])
  {
    ExampleWindow();
    ExampleCancels();
    ReportMatchesRequests(ExampleRuns(), ExampleRespond);
  }
}
