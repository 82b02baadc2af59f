/** The dbt Cloud run lifecycle: the fixed table from integer status codes to labels,
    and the set of labels the action treats as still in flight. */
module RunStatus {
  import opened Wrappers
  import opened Faults

  datatype Status = Queued | Starting | Running | Success | Error | Cancelled

  /** The action's `run_status_map`: the only codes it knows. */
  const StatusMap: map<int, Status> :=
    map[1 := Queued, 2 := Starting, 3 := Running, 10 := Success, 20 := Error, 30 := Cancelled]

  /** The human-readable label the action stores for a status. */
  function Label(s: Status): string
  {
    match s
    case Queued => "Queued"
    case Starting => "Starting"
    case Running => "Running"
    case Success => "Success"
    case Error => "Error"
    case Cancelled => "Cancelled"
  }

  /** Looking a code up in the status map; a code outside it raises rather than
      defaulting to some label. */
  function Decode(code: int): (r: Result<Status, Fault>)
    ensures r == Ok(Queued) <==> code == 1
    ensures r == Ok(Starting) <==> code == 2
    ensures r == Ok(Running) <==> code == 3
    ensures r == Ok(Success) <==> code == 10
    ensures r == Ok(Error) <==> code == 20
    ensures r == Ok(Cancelled) <==> code == 30
    ensures r.Err? <==> code !in {1, 2, 3, 10, 20, 30}
    ensures r.Err? ==> r.error == UnknownStatus(code)
  {
    if code in StatusMap then Ok(StatusMap[code]) else Err(UnknownStatus(code))
  }

  /** The cancellation policy: a run is cancelled while it is queued, starting or running. */
  predicate IsActive(s: Status)
  {
    s.Queued? || s.Starting? || s.Running?
  }

  /** The action states the policy on labels: a run is cancelled when its label is one of
      "Queued", "Starting" and "Running", which is the same as the policy on statuses; the
      labels "Success", "Error" and "Cancelled" never qualify. */
  lemma ActiveLabels(s: Status)
    ensures IsActive(s) <==> Label(s) in ["Queued", "Starting", "Running"]
    ensures !IsActive(s) <==> Label(s) in ["Success", "Error", "Cancelled"]
  {
  }

  /** A code decodes to an in-flight status exactly when it is 1, 2 or 3. */
  lemma ActiveCodes(code: int)
    ensures Decode(code).Ok? && IsActive(Decode(code).value) <==> code in {1, 2, 3}
  {
  }
}
