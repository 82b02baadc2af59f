/** Fetching recent runs: the window of runs the action considers, reduced to candidates. */
module Runs {
  import opened Wrappers
  import opened Faults
  import opened Slicing
  import opened RunStatus

  /** One element of the `data` list of the runs endpoint, as far as the action reads it. */
  datatype RunRecord = RunRecord(id: int, status: int, href: string)

  /** A run reduced for the cancellation decision: id, decoded status and link. */
  datatype Candidate = Candidate(runId: int, status: Status, url: string)

  /** The slice bounds of `data[1:6]`: the newest run (the one just triggered) is skipped
      and at most the next five are kept. */
  const WindowStart: nat := 1
  const WindowEnd: nat := 6

  /** The runs the action looks at, from the list fetched newest first. */
  function Window(data: seq<RunRecord>): (w: seq<RunRecord>)
    ensures |w| == if |data| == 0 then 0 else Min(|data|, WindowEnd) - 1
    ensures |w| <= WindowEnd - WindowStart
    ensures forall i :: 0 <= i < |w| ==> w[i] == data[i + 1]
  {
    Slice(data, WindowStart, WindowEnd)
  }

  /** `c` is the reduction of `run`: same id and link, and the decoded status. */
  predicate ReducedFrom(c: Candidate, run: RunRecord)
  {
    c.runId == run.id && c.url == run.href && Decode(run.status) == Ok(c.status)
  }

  /** The loop of `get_recent_runs_for_job` over a list of runs, one record at a time;
      the first unknown status code aborts it. */
  function Reduce(runs: seq<RunRecord>): (r: Result<seq<Candidate>, Fault>)
    ensures r.Ok? <==> forall i :: 0 <= i < |runs| ==> Decode(runs[i].status).Ok?
    ensures r.Ok? ==> |r.value| == |runs|
    ensures r.Ok? ==> forall i :: 0 <= i < |runs| ==> ReducedFrom(r.value[i], runs[i])
    ensures r.Err? ==> exists j ::
      && 0 <= j < |runs|
      && Decode(runs[j].status).Err?
      && r.error == UnknownStatus(runs[j].status)
      && forall i :: 0 <= i < j ==> Decode(runs[i].status).Ok?
    decreases |runs|
  {
    if |runs| == 0 then Ok([])
    else
      var init := runs[..|runs| - 1];
      var run := runs[|runs| - 1];
      assert forall i :: 0 <= i < |init| ==> init[i] == runs[i];
      match Reduce(init)
      case Err(e) => Err(e)
      case Ok(cs) =>
        match Decode(run.status)
        case Err(e) => Err(e)
        case Ok(status) => Ok(cs + [Candidate(run.id, status, run.href)])
  }

  /** `get_recent_runs_for_job` after the fetch: the window, reduced. The i-th candidate
      comes from the (i+1)-th fetched run. */
  function RecentRuns(data: seq<RunRecord>): (r: Result<seq<Candidate>, Fault>)
    ensures r.Ok? <==> forall i :: 1 <= i < Min(|data|, WindowEnd) ==> Decode(data[i].status).Ok?
    ensures r.Ok? ==> |r.value| == |Window(data)|
    ensures r.Ok? ==> forall i :: 0 <= i < |r.value| ==> ReducedFrom(r.value[i], data[i + 1])
  {
    var w := Window(data);
    assert forall i :: 1 <= i < Min(|data|, WindowEnd) ==> w[i - 1] == data[i];
    Reduce(w)
  }

  /** The ids of a list of candidates, in order. */
  function CandidateIds(cs: seq<Candidate>): seq<int>
  {
    seq(|cs|, k requires 0 <= k < |cs| => cs[k].runId)
  }

  /** The runs endpoint is queried with `order_by=-id`. */
  ghost predicate NewestFirst(data: seq<RunRecord>)
  {
    forall i, j :: 0 <= i < j < |data| ==> data[i].id > data[j].id
  }

  /** Self-exclusion: when the list comes newest first, the just-triggered run's id is
      never among the candidates. */
  lemma NewestNeverCandidate(data: seq<RunRecord>)
    requires 0 < |data| && NewestFirst(data)
    requires RecentRuns(data).Ok?
    ensures data[0].id !in CandidateIds(RecentRuns(data).value)
  {
    var cs := RecentRuns(data).value;
    forall k | 0 <= k < |cs|
      ensures cs[k].runId != data[0].id
    {
      assert ReducedFrom(cs[k], data[k + 1]);
    }
  }
}
