/** Cancelling the in-flight candidates: the policy, the two-shape confirmation payload
    and the loop that issues one cancel request per in-flight candidate. */
module Cancellation {
  import opened Wrappers
  import opened Faults
  import opened Slicing
  import opened Json
  import opened RunStatus
  import opened Runs

  /** `[:19]` keeps `YYYY-MM-DDTHH:MM:SS` and drops sub-seconds and the zone suffix. */
  const TimestampWidth: nat := 19

  /** The confirmation's timestamp as the API documents it: `data.finished_at`. */
  const FlatPath: seq<string> := ["data", "finished_at"]

  /** The shape the API has also been seen to return: `data.data.finished_at`. */
  const NestedPath: seq<string> := ["data", "data", "finished_at"]

  /** The tail of `cancel_dbt_cloud_job`: read the flat field; if that raises for any
      reason, read the nested field; if that raises too, the invocation fails. */
  function ExtractTimestamp(runId: int, payload: Json): Result<string, Fault>
  {
    match StringAt(payload, FlatPath)
    case Some(s) => Ok(Slice(s, 0, TimestampWidth))
    case None =>
      match StringAt(payload, NestedPath)
      case Some(s) => Ok(Slice(s, 0, TimestampWidth))
      case None => Err(MalformedResponse(runId))
  }

  /** Extraction succeeds exactly when one of the two fields holds a string; the flat field
      wins when both do; the result is the field's prefix of length min(19, length); and a
      payload with neither fails with a fault naming the run. */
  lemma TimestampExtraction(runId: int, payload: Json)
    ensures var r := ExtractTimestamp(runId, payload);
      && (r.Ok? <==> StringAt(payload, FlatPath).Some? || StringAt(payload, NestedPath).Some?)
      && (r.Err? ==> r.error == MalformedResponse(runId))
      && (r.Ok? ==>
            var full := if StringAt(payload, FlatPath).Some? then StringAt(payload, FlatPath).value
                        else StringAt(payload, NestedPath).value;
            r.value <= full && |r.value| == Min(TimestampWidth, |full|))
  {
    var flat := StringAt(payload, FlatPath);
    var nested := StringAt(payload, NestedPath);
    if flat.Some? {
      PrefixSlice(flat.value, TimestampWidth);
    } else if nested.Some? {
      PrefixSlice(nested.value, TimestampWidth);
    }
  }

  /** A run as recorded after its cancel request was confirmed. */
  datatype CancelledRun = CancelledRun(runId: int, status: Status, url: string, cancelledAt: string)

  /** The ids of the cancelled runs, in order. */
  function CancelledIds(done: seq<CancelledRun>): seq<int>
  {
    seq(|done|, k requires 0 <= k < |done| => done[k].runId)
  }

  /** What the cancel loop did: the ids it sent a cancel request for, in order, and either
      the cancelled runs or the fault that stopped it. */
  datatype Orchestration = Orchestration(issued: seq<int>, result: Result<seq<CancelledRun>, Fault>)

  /** The candidates the policy selects, in candidate order. */
  function Active(cands: seq<Candidate>): (r: seq<Candidate>)
    ensures |r| <= |cands|
    ensures forall k :: 0 <= k < |r| ==> IsActive(r[k].status)
    decreases |cands|
  {
    if |cands| == 0 then []
    else
      var init := cands[..|cands| - 1];
      var last := cands[|cands| - 1];
      assert forall i :: 0 <= i < |init| ==> init[i] == cands[i];
      if IsActive(last.status) then Active(init) + [last] else Active(init)
  }

  /** The positions in `cands` of the candidates the policy selects, increasing. */
  function ActiveIndices(cands: seq<Candidate>): (idx: seq<nat>)
    ensures forall k :: 0 <= k < |idx| ==> idx[k] < |cands|
    ensures forall k, l :: 0 <= k < l < |idx| ==> idx[k] < idx[l]
    ensures forall i :: 0 <= i < |cands| ==> (i in idx <==> IsActive(cands[i].status))
    decreases |cands|
  {
    if |cands| == 0 then []
    else
      var init := cands[..|cands| - 1];
      var prev := ActiveIndices(init);
      assert forall i :: 0 <= i < |init| ==> init[i] == cands[i];
      if IsActive(cands[|cands| - 1].status) then prev + [|cands| - 1] else prev
  }

  /** The policy's selection is an order-preserving subsequence of the candidates: its
      k-th element is the candidate at the k-th selected position. */
  lemma {:induction false} ActiveIsSubsequence(cands: seq<Candidate>)
    ensures |ActiveIndices(cands)| == |Active(cands)|
    ensures forall k :: 0 <= k < |Active(cands)| ==>
      Active(cands)[k] == cands[ActiveIndices(cands)[k]]
    decreases |cands|
  {
    if |cands| > 0 {
      var init := cands[..|cands| - 1];
      ActiveIsSubsequence(init);
      assert forall i :: 0 <= i < |init| ==> init[i] == cands[i];
    }
  }

  /** Candidates that are all finished select nothing. */
  lemma {:induction false} NothingActive(cands: seq<Candidate>)
    requires forall k :: 0 <= k < |cands| ==> !IsActive(cands[k].status)
    ensures Active(cands) == []
    decreases |cands|
  {
    if |cands| > 0 {
      NothingActive(cands[..|cands| - 1]);
    }
  }

  /** The confirmation sent back for the cancel request of `c` carries a timestamp. */
  predicate Confirmed(c: Candidate, respond: int -> Json)
  {
    ExtractTimestamp(c.runId, respond(c.runId)).Ok?
  }

  /** `r` records the cancellation of `c` with the timestamp its confirmation carries. */
  predicate Records(r: CancelledRun, c: Candidate, respond: int -> Json)
  {
    && r.runId == c.runId
    && r.status == c.status
    && r.url == c.url
    && ExtractTimestamp(c.runId, respond(c.runId)) == Ok(r.cancelledAt)
  }

  /** One pass of the cancel loop of `main` over candidate `c`, after the passes before it
      produced `prev`: nothing happens once a fault occurred or when `c` is not in flight;
      otherwise a cancel request is sent for `c` and its confirmation is read. */
  function Step(prev: Orchestration, c: Candidate, respond: int -> Json): (next: Orchestration)
    ensures prev.result.Err? || !IsActive(c.status) ==> next == prev
    ensures prev.result.Ok? && IsActive(c.status) ==>
      && next.issued == prev.issued + [c.runId]
      && (next.result.Ok? <==> Confirmed(c, respond))
      && (next.result.Ok? ==>
            && |next.result.value| == |prev.result.value| + 1
            && next.result.value[..|prev.result.value|] == prev.result.value
            && Records(next.result.value[|prev.result.value|], c, respond))
      && (next.result.Err? ==> next.result.error == MalformedResponse(c.runId))
  {
    if prev.result.Err? || !IsActive(c.status) then prev
    else
      var issued := prev.issued + [c.runId];
      match ExtractTimestamp(c.runId, respond(c.runId))
      case Err(e) => Orchestration(issued, Err(e))
      case Ok(ts) =>
        var done := prev.result.value + [CancelledRun(c.runId, c.status, c.url, ts)];
        assert done[..|prev.result.value|] == prev.result.value;
        Orchestration(issued, Ok(done))
  }

  /** The cancel loop of `main`: each in-flight candidate, in order, gets one cancel
      request, whose confirmation `respond(id)` must carry a timestamp. */
  function CancelEach(cands: seq<Candidate>, respond: int -> Json): (o: Orchestration)
    ensures |o.issued| <= |Active(cands)|
    ensures forall n :: 0 <= n < |o.issued| ==> o.issued[n] == Active(cands)[n].runId
    ensures o.result.Ok? ==> |o.issued| == |o.result.value| == |Active(cands)|
    decreases |cands|
  {
    if |cands| == 0 then Orchestration([], Ok([]))
    else
      var init := cands[..|cands| - 1];
      var c := cands[|cands| - 1];
      var prev := CancelEach(init, respond);
      var act := Active(init);
      assert Active(cands) == if IsActive(c.status) then act + [c] else act;
      Step(prev, c, respond)
  }

  /** The requests sent form a prefix of the in-flight candidates' ids, all of them when
      the loop completes. */
  lemma IssuedPrefix(cands: seq<Candidate>, respond: int -> Json)
    ensures CancelEach(cands, respond).issued <= CandidateIds(Active(cands))
    ensures CancelEach(cands, respond).result.Ok? ==>
      CancelEach(cands, respond).issued == CandidateIds(Active(cands))
  {
  }

  /** A fault stops the loop right after the cancel request whose confirmation carried no
      timestamp, and names that run. */
  lemma {:induction false} FaultNamesLastRequest(cands: seq<Candidate>, respond: int -> Json)
    requires CancelEach(cands, respond).result.Err?
    ensures var o := CancelEach(cands, respond);
      && 0 < |o.issued|
      && !Confirmed(Active(cands)[|o.issued| - 1], respond)
      && o.result.error == MalformedResponse(o.issued[|o.issued| - 1])
      && forall n :: 0 <= n < |o.issued| - 1 ==> Confirmed(Active(cands)[n], respond)
    decreases |cands|
  {
    var init := cands[..|cands| - 1];
    var c := cands[|cands| - 1];
    var prev := CancelEach(init, respond);
    assert Active(cands) == if IsActive(c.status) then Active(init) + [c] else Active(init);
    if prev.result.Err? {
      FaultNamesLastRequest(init, respond);
    }
    ConfirmedBeforeFault(cands, respond);
  }

  /** Every request before the one that failed was confirmed: the loop stops at the first
      confirmation without a timestamp, so no later in-flight run is sent a request. */
  lemma {:induction false} ConfirmedBeforeFault(cands: seq<Candidate>, respond: int -> Json)
    requires CancelEach(cands, respond).result.Err?
    ensures var o := CancelEach(cands, respond);
      forall n :: 0 <= n < |o.issued| - 1 ==> Confirmed(Active(cands)[n], respond)
    decreases |cands|
  {
    var init := cands[..|cands| - 1];
    var c := cands[|cands| - 1];
    var prev := CancelEach(init, respond);
    var act := Active(init);
    assert Active(cands) == if IsActive(c.status) then act + [c] else act;
    if prev.result.Err? {
      ConfirmedBeforeFault(init, respond);
    } else {
      // The loop ran through `init` and failed on `c`, right after `act`'s requests.
      CancelSucceedsIffConfirmed(init, respond);
      assert prev.result.Ok?;
      assert forall k :: 0 <= k < |Active(init)| ==> Confirmed(Active(init)[k], respond);
      assert |CancelEach(cands, respond).issued| == |act| + 1;
      forall n | 0 <= n < |act|
        ensures Confirmed(Active(cands)[n], respond)
      {
        assert Active(cands)[n] == act[n];
      }
    }
  }

  /** Every one of `cs` is confirmed with a timestamp, checked from the last one back. */
  predicate AllConfirmed(cs: seq<Candidate>, respond: int -> Json)
    decreases |cs|
  {
    |cs| == 0 || (AllConfirmed(cs[..|cs| - 1], respond) && Confirmed(cs[|cs| - 1], respond))
  }

  /** The recursive check agrees with the check of every element. */
  lemma {:induction false} AllConfirmedEach(cs: seq<Candidate>, respond: int -> Json)
    ensures AllConfirmed(cs, respond) <==> forall k :: 0 <= k < |cs| ==> Confirmed(cs[k], respond)
    decreases |cs|
  {
    if |cs| > 0 {
      var init := cs[..|cs| - 1];
      AllConfirmedEach(init, respond);
      assert forall k :: 0 <= k < |init| ==> init[k] == cs[k];
    }
  }

  /** The loop completes exactly when every in-flight candidate's confirmation carries a
      timestamp; otherwise the first one without a timestamp aborts it. */
  lemma {:induction false} CancelSucceedsIffConfirmed(cands: seq<Candidate>, respond: int -> Json)
    ensures CancelEach(cands, respond).result.Ok?
      <==> forall k :: 0 <= k < |Active(cands)| ==> Confirmed(Active(cands)[k], respond)
  {
    CancelSucceedsIffAllConfirmed(cands, respond);
    AllConfirmedEach(Active(cands), respond);
  }

  lemma {:induction false} CancelSucceedsIffAllConfirmed(cands: seq<Candidate>, respond: int -> Json)
    ensures CancelEach(cands, respond).result.Ok? <==> AllConfirmed(Active(cands), respond)
    decreases |cands|
  {
    if |cands| > 0 {
      var init := cands[..|cands| - 1];
      var c := cands[|cands| - 1];
      var act := Active(init);
      CancelSucceedsIffAllConfirmed(init, respond);
      assert Active(cands) == if IsActive(c.status) then act + [c] else act;
      assert (act + [c])[..|act|] == act;
    }
  }

  /** Each cancelled run keeps the id, status and link of the in-flight candidate at the same
      position and adds the timestamp its confirmation carries. */
  lemma {:induction false} CancelledRecordsCandidates(cands: seq<Candidate>, respond: int -> Json)
    requires CancelEach(cands, respond).result.Ok?
    ensures var done := CancelEach(cands, respond).result.value;
      forall k :: 0 <= k < |done| ==> Records(done[k], Active(cands)[k], respond)
    decreases |cands|
  {
    if |cands| > 0 {
      var init := cands[..|cands| - 1];
      var c := cands[|cands| - 1];
      assert forall i :: 0 <= i < |init| ==> init[i] == cands[i];
      assert Active(cands) == if IsActive(c.status) then Active(init) + [c] else Active(init);
      CancelledRecordsCandidates(init, respond);
    }
  }

  /** No two entries of `ids` are equal. */
  ghost predicate Unique(ids: seq<int>)
  {
    forall i, j :: 0 <= i < j < |ids| ==> ids[i] != ids[j]
  }

  /** Equal entries of a list without repeats sit at the same position. */
  lemma UniquePosition(ids: seq<int>, a: nat, b: nat)
    requires Unique(ids) && a < |ids| && b < |ids| && ids[a] == ids[b]
    ensures a == b
  {
  }

  /** The n-th id of any prefix of the in-flight ids is the id of the candidate at the
      n-th selected position. */
  lemma ActivePrefixPositions(cands: seq<Candidate>, issued: seq<int>)
    requires issued <= CandidateIds(Active(cands))
    ensures |issued| <= |ActiveIndices(cands)|
    ensures forall n :: 0 <= n < |issued| ==>
      && ActiveIndices(cands)[n] < |cands|
      && issued[n] == cands[ActiveIndices(cands)[n]].runId
      && IsActive(cands[ActiveIndices(cands)[n]].status)
  {
    var idx := ActiveIndices(cands);
    ActiveIsSubsequence(cands);
    forall n | 0 <= n < |issued|
      ensures idx[n] < |cands| && issued[n] == cands[idx[n]].runId && IsActive(cands[idx[n]].status)
    {
      assert issued[n] == CandidateIds(Active(cands))[n];
      assert idx[n] in idx;
    }
  }

  /** With distinct candidate ids (run ids are distinct), no run is sent two cancel requests. */
  lemma NoRunCancelledTwice(cands: seq<Candidate>, respond: int -> Json)
    requires Unique(CandidateIds(cands))
    ensures Unique(CancelEach(cands, respond).issued)
  {
    var issued := CancelEach(cands, respond).issued;
    UniqueActivePrefix(cands, issued);
  }

  /** Any prefix of the in-flight ids repeats no id when the candidates' ids are distinct. */
  lemma UniqueActivePrefix(cands: seq<Candidate>, issued: seq<int>)
    requires Unique(CandidateIds(cands))
    requires issued <= CandidateIds(Active(cands))
    ensures Unique(issued)
  {
    var idx := ActiveIndices(cands);
    ActivePrefixPositions(cands, issued);
    forall m, n | 0 <= m < n < |issued|
      ensures issued[m] != issued[n]
    {
      assert idx[m] < idx[n];
      assert CandidateIds(cands)[idx[m]] == issued[m];
      assert CandidateIds(cands)[idx[n]] == issued[n];
    }
  }

  /** With distinct ids, a candidate gets a cancel request only if its status is Queued,
      Starting or Running; when the loop completes, every such candidate got one. */
  lemma CancelledIffActive(cands: seq<Candidate>, respond: int -> Json, i: nat)
    requires Unique(CandidateIds(cands))
    requires i < |cands|
    ensures cands[i].runId in CancelEach(cands, respond).issued ==> IsActive(cands[i].status)
    ensures CancelEach(cands, respond).result.Ok? && IsActive(cands[i].status) ==>
      cands[i].runId in CancelEach(cands, respond).issued
  {
    var o := CancelEach(cands, respond);
    IssuedOnlyIfActive(cands, o.issued, i);
    if o.result.Ok? {
      ActiveAllIssued(cands, i);
    }
  }

  /** With distinct ids, an id in a prefix of the in-flight ids belongs to an in-flight candidate. */
  lemma IssuedOnlyIfActive(cands: seq<Candidate>, issued: seq<int>, i: nat)
    requires Unique(CandidateIds(cands))
    requires issued <= CandidateIds(Active(cands))
    requires i < |cands|
    ensures cands[i].runId in issued ==> IsActive(cands[i].status)
  {
    var idx := ActiveIndices(cands);
    ActivePrefixPositions(cands, issued);
    if cands[i].runId in issued {
      var n :| 0 <= n < |issued| && issued[n] == cands[i].runId;
      UniquePosition(CandidateIds(cands), idx[n], i);
    }
  }

  /** Every in-flight candidate's id is among the in-flight ids. */
  lemma ActiveAllIssued(cands: seq<Candidate>, i: nat)
    requires i < |cands|
    ensures IsActive(cands[i].status) ==> cands[i].runId in CandidateIds(Active(cands))
  {
    var idx := ActiveIndices(cands);
    ActiveIsSubsequence(cands);
    if IsActive(cands[i].status) {
      assert i in idx;
      var n :| 0 <= n < |idx| && idx[n] == i;
      assert CandidateIds(Active(cands))[n] == cands[i].runId;
    }
  }

  /** A confirmation payload in the documented flat shape. */
  function FlatPayload(finishedAt: string): Json
  {
    Obj(map["data" := Obj(map["finished_at" := Str(finishedAt)])])
  }

  /** A confirmation payload in the doubly nested shape. */
  function NestedPayload(finishedAt: string): Json
  {
    Obj(map["data" := Obj(map["data" := Obj(map["finished_at" := Str(finishedAt)])])])
  }

  /** Both observed shapes yield the same timestamp: the first 19 characters of the field. */
  lemma BothShapesAgree(runId: int, finishedAt: string)
    ensures ExtractTimestamp(runId, FlatPayload(finishedAt)) == Ok(Slice(finishedAt, 0, TimestampWidth))
    ensures ExtractTimestamp(runId, NestedPayload(finishedAt)) == Ok(Slice(finishedAt, 0, TimestampWidth))
  {
    assert Path(FlatPayload(finishedAt), FlatPath) == Some(Str(finishedAt));
    assert Path(NestedPayload(finishedAt), FlatPath) == None;
    assert Path(NestedPayload(finishedAt), NestedPath) == Some(Str(finishedAt));
  }

  /** An ISO-8601 timestamp with fractional seconds and a zone suffix is cut back to
      whole seconds. */
  lemma SecondsPrecision(runId: int, seconds: string, rest: string)
    requires |seconds| == TimestampWidth
    ensures ExtractTimestamp(runId, FlatPayload(seconds + rest)) == Ok(seconds)
  {
    BothShapesAgree(runId, seconds + rest);
    assert Slice(seconds + rest, 0, TimestampWidth) == seconds;
  }

  /** When the flat `finished_at` is missing or not a string (null makes `[:19]` raise), the
      nested field alone decides: its first 19 characters, or a fault naming the run. */
  lemma FlatFallsBack(runId: int, payload: Json)
    requires StringAt(payload, FlatPath).None?
    ensures ExtractTimestamp(runId, payload)
      == if StringAt(payload, NestedPath).Some?
         then Ok(Slice(StringAt(payload, NestedPath).value, 0, TimestampWidth))
         else Err(MalformedResponse(runId))
  {
  }

  /** A null flat `finished_at` next to a nested one gives way to the nested one. */
  lemma NullFlatFallsBack(runId: int, finishedAt: string)
    ensures var payload := Obj(map["data" := Obj(map[
              "finished_at" := Null,
              "data" := Obj(map["finished_at" := Str(finishedAt)])])]);
      ExtractTimestamp(runId, payload) == Ok(Slice(finishedAt, 0, TimestampWidth))
  {
    var payload := Obj(map["data" := Obj(map[
              "finished_at" := Null,
              "data" := Obj(map["finished_at" := Str(finishedAt)])])]);
    assert Path(payload, FlatPath) == Some(Null);
    assert Path(payload, NestedPath) == Some(Str(finishedAt));
    FlatFallsBack(runId, payload);
  }

  /** A payload without a `data` object, such as an error body, fails the invocation. */
  lemma NoDataIsMalformed(runId: int, fields: map<string, Json>)
    requires "data" !in fields
    ensures ExtractTimestamp(runId, Obj(fields)) == Err(MalformedResponse(runId))
  {
    assert Path(Obj(fields), FlatPath) == None;
    assert Path(Obj(fields), NestedPath) == None;
  }

  /** When the loop completes, the cancelled runs' ids are exactly the requests sent. */
  lemma CancelledIdsAreIssued(cands: seq<Candidate>, respond: int -> Json)
    requires CancelEach(cands, respond).result.Ok?
    ensures CancelledIds(CancelEach(cands, respond).result.value) == CancelEach(cands, respond).issued
  {
    var o := CancelEach(cands, respond);
    CancelledRecordsCandidates(cands, respond);
    IssuedPrefix(cands, respond);
    var ids := CancelledIds(o.result.value);
    assert |ids| == |o.issued|;
    forall k | 0 <= k < |ids|
      ensures ids[k] == o.issued[k]
    {
      assert Records(o.result.value[k], Active(cands)[k], respond);
    }
  }
}
