/** Fetching a job's result under the job states the service keeps (fetch_job in api/v1/ingest.py). */
module FetchJob {
  import opened Sequences
  import opened JobStates

  datatype Fetch = Payload(serializable: bool) | TimedOut | BackendError | BadValue | OtherError

  datatype Mode = Destructive | NonDestructive | CacheBeforeDelete | OtherMode

  /** How the service answers during one call; None stands for an exception. */
  datatype Backend = Backend(readable: bool, fetch: Fetch, mode: Option<Mode>, writable: bool)

  predicate Fetchable(s: State) {
    Intermediate(s) || s.RetrievedNonDestructive? || s.RetrievedCached?
  }

  predicate Retrieved(s: State) {
    s.RetrievedDestructive? || s.RetrievedNonDestructive? || s.RetrievedCached?
  }

  // --- the protocol as a table -------------------------------------------------------------------------------

  function StatusOf(s: Option<State>, b: Backend): int {
    if !b.readable then 500
    else if s.None? then 404
    else match s.value
      case Failed => 503
      case RetrievedDestructive => 410
      case Unknown(_) => 500
      case _ =>
        match b.fetch
        case Payload(serializable) => if serializable then 200 else 500
        case TimedOut => if Intermediate(s.value) then 202 else 410
        case BackendError => if s.value.RetrievedCached? then 410 else 503
        case BadValue => 500
        case OtherError => 500
  }

  /** The state a successful fetch leaves behind, if the service accepts it. */
  function Target(mode: Mode): Option<State> {
    match mode
    case Destructive => Some(RetrievedDestructive)
    case NonDestructive => Some(RetrievedNonDestructive)
    case CacheBeforeDelete => Some(RetrievedCached)
    case OtherMode => None
  }

  /** Whether the call gets the payload at all. */
  predicate Fetches(s: Option<State>, b: Backend) {
    b.readable && s.Some? && Fetchable(s.value) && b.fetch.Payload?
  }

  function After(s: Option<State>, b: Backend): Option<State> {
    if Fetches(s, b) && b.mode.Some? && Target(b.mode.value).Some? && b.writable then Target(b.mode.value) else s
  }

  // --- the endpoint --------------------------------------------------------------------------------------------

  class IngestService {
    /** The stored state of the job; None when it is not known or has expired. */
    var state: Option<State>

    constructor (s: Option<State>)
      ensures state == s
    {
      state := s;
    }

    /** get_fetch_mode and set_job_state: an exception in either is only logged. */
    method RecordRetrieval(mode: Option<Mode>, writable: bool)
      modifies this
      ensures state == if mode.Some? && Target(mode.value).Some? && writable then Target(mode.value) else old(state)
    {
      if mode.None? { return; }
      var target: Option<State> := None;
      if mode.value.Destructive? { target := Some(RetrievedDestructive); }
      else if mode.value.NonDestructive? { target := Some(RetrievedNonDestructive); }
      else if mode.value.CacheBeforeDelete? { target := Some(RetrievedCached); }
      if target.Some? && writable { state := target; }
    }

    /** fetch_job: the status it answers with, and the state it leaves. */
    method FetchJob(b: Backend) returns (status: int)
      modifies this
      ensures status == StatusOf(old(state), b) && state == After(old(state), b)
    {
      if !b.readable { return 500; }
      if state.None? { return 404; }
      var current := state.value;
      if current.Failed? { return 503; }
      if current.RetrievedDestructive? { return 410; }
      if !Intermediate(current) && !current.RetrievedNonDestructive? && !current.RetrievedCached? { return 500; }
      match b.fetch {
        case Payload(serializable) =>
          RecordRetrieval(b.mode, b.writable);
          return if serializable then 200 else 500;
        case BadValue => return 500;
        case OtherError => return 500;
        case _ =>
          var timedOut := b.fetch.TimedOut?;
          if current.RetrievedNonDestructive? { return if timedOut then 410 else 503; }
          if current.RetrievedCached? { return 410; }
          return if timedOut then 202 else 503;
      }
    }

    /** Calls one after another, with no other writer of the state. */
    method FetchRepeatedly(calls: seq<Backend>) returns (statuses: seq<int>)
      modifies this
      ensures |statuses| == |calls| && forall i :: 0 <= i < |calls| ==> statuses[i] == StatusAt(old(state), calls, i)
      ensures state == StateAt(old(state), calls, |calls|)
    {
      statuses := [];
      for i := 0 to |calls|
        invariant |statuses| == i && state == StateAt(old(state), calls, i)
        invariant forall k :: 0 <= k < i ==> statuses[k] == StatusAt(old(state), calls, k)
      {
        var status := FetchJob(calls[i]);
        statuses := statuses + [status];
      }
    }
  }

  // --- runs ----------------------------------------------------------------------------------------------------

  function StateAt(s: Option<State>, calls: seq<Backend>, i: nat): Option<State>
    requires i <= |calls|
  {
    if i == 0 then s else After(StateAt(s, calls, i - 1), calls[i - 1])
  }

  function StatusAt(s: Option<State>, calls: seq<Backend>, i: nat): int
    requires i < |calls|
  {
    StatusOf(StateAt(s, calls, i), calls[i])
  }

  /** When each status is answered; anything else is a 500. */
  lemma StatusMeans(s: Option<State>, b: Backend)
    ensures var (status, underWay) := (StatusOf(s, b), s == Some(Submitted) || s == Some(Processing));
            && (status == 202 <==> b.readable && underWay && b.fetch.TimedOut?)
            && (status == 200 <==>
                 && b.readable && b.fetch == Payload(true)
                 && (underWay || s == Some(RetrievedNonDestructive) || s == Some(RetrievedCached)))
            && (status == 404 <==> b.readable && s.None?)
            && (status == 410 <==>
                 && b.readable
                 && (|| s == Some(RetrievedDestructive)
                     || (s == Some(RetrievedNonDestructive) && b.fetch.TimedOut?)
                     || (s == Some(RetrievedCached) && (b.fetch.TimedOut? || b.fetch.BackendError?))))
            && (status == 503 <==>
                 && b.readable
                 && (|| s == Some(Failed)
                     || (b.fetch.BackendError? && (underWay || s == Some(RetrievedNonDestructive)))))
            && status in {200, 202, 404, 410, 500, 503}
  {
  }

  /** A job under way is polled with 202 for as long as fetches time out, and then delivered. */
  lemma {:induction false} PollingDelivers(s: State, calls: seq<Backend>, n: nat)
    requires (s.Submitted? || s.Processing?) && n < |calls|
    requires forall i :: 0 <= i < n ==> calls[i].readable && calls[i].fetch.TimedOut?
    requires calls[n].readable && calls[n].fetch == Payload(true)
    ensures forall i :: 0 <= i < n ==> StatusAt(Some(s), calls, i) == 202
    ensures StatusAt(Some(s), calls, n) == 200
  {
    forall i: nat | i <= n
      ensures StateAt(Some(s), calls, i) == Some(s)
    {
      TimeoutsKeep(Some(s), calls, i);
    }
  }

  lemma {:induction false} TimeoutsKeep(s: Option<State>, calls: seq<Backend>, n: nat)
    requires n <= |calls| && forall i :: 0 <= i < n ==> calls[i].fetch.TimedOut?
    ensures StateAt(s, calls, n) == s
  {
    if n > 0 { TimeoutsKeep(s, calls, n - 1); }
  }

  /** What a delivery leaves behind. */
  lemma DeliveryRecords(s: Option<State>, b: Backend)
    requires StatusOf(s, b) == 200
    ensures After(s, b) == if !b.writable then s
                           else match b.mode
                                case None => s
                                case Some(Destructive) => Some(RetrievedDestructive)
                                case Some(NonDestructive) => Some(RetrievedNonDestructive)
                                case Some(CacheBeforeDelete) => Some(RetrievedCached)
                                case Some(OtherMode) => s
  {
  }

  /** States that nothing but another writer can leave. */
  predicate Absorbing(s: Option<State>) {
    s.None? || s.value.Failed? || s.value.RetrievedDestructive? || s.value.Unknown?
  }

  lemma {:induction false} AbsorbingStays(s: Option<State>, calls: seq<Backend>, i: nat, j: nat)
    requires i <= j <= |calls| && Absorbing(StateAt(s, calls, i))
    ensures StateAt(s, calls, j) == StateAt(s, calls, i)
  {
    if i < j { AbsorbingStays(s, calls, i, j - 1); }
  }

  /** From then on every call that can read the state gives the same answer: 404, 503, 410 or 500. */
  lemma AbsorbingAnswers(s: Option<State>, calls: seq<Backend>, i: nat, j: nat)
    requires i <= j < |calls| && Absorbing(StateAt(s, calls, i)) && calls[j].readable
    ensures StatusAt(s, calls, j) == match StateAt(s, calls, i)
                                     case None => 404
                                     case Some(Failed) => 503
                                     case Some(RetrievedDestructive) => 410
                                     case _ => 500
  {
    AbsorbingStays(s, calls, i, j);
  }

  lemma {:induction false} RetrievedStays(s: Option<State>, calls: seq<Backend>, i: nat, j: nat)
    requires i <= j <= |calls| && StateAt(s, calls, i).Some? && Retrieved(StateAt(s, calls, i).value)
    ensures StateAt(s, calls, j).Some? && Retrieved(StateAt(s, calls, j).value)
  {
    if i < j { RetrievedStays(s, calls, i, j - 1); }
  }

  /** Once a retrieval is recorded no call answers 202 again. */
  lemma NoRetryAfterRetrieval(s: Option<State>, calls: seq<Backend>, i: nat, j: nat)
    requires i <= j < |calls| && StateAt(s, calls, i).Some? && Retrieved(StateAt(s, calls, i).value)
    ensures StatusAt(s, calls, j) != 202
  {
    RetrievedStays(s, calls, i, j);
  }

  /** Whether this call records a destructive read if it fetches anything. */
  predicate RecordsDestructive(b: Backend) {
    b.mode == Some(Destructive) && b.writable
  }

  /** A 200 whose destructive read was recorded is the last one: no later call answers 200. */
  lemma DestructiveReadIsLast(s: Option<State>, calls: seq<Backend>, i: nat, j: nat)
    requires i < j < |calls| && StatusAt(s, calls, i) == 200 && RecordsDestructive(calls[i])
    ensures StatusAt(s, calls, j) != 200
  {
    assert StateAt(s, calls, i + 1) == Some(RetrievedDestructive);
    AbsorbingStays(s, calls, i + 1, j);
  }

  /** So with every read destructive and recorded, at most one call of a run answers 200. */
  lemma AtMostOneSuccess(s: Option<State>, calls: seq<Backend>, i: nat, j: nat)
    requires forall b :: b in calls ==> RecordsDestructive(b)
    requires i < |calls| && j < |calls| && StatusAt(s, calls, i) == 200 && StatusAt(s, calls, j) == 200
    ensures i == j
  {
    if i < j { DestructiveReadIsLast(s, calls, i, j); }
    if j < i { DestructiveReadIsLast(s, calls, j, i); }
  }

  /** The promise needs the record: after a 200 a fetchable payload is delivered again exactly when none was made. */
  lemma SecondSuccess(s: Option<State>, b: Backend, again: Backend)
    requires StatusOf(s, b) == 200 && again.readable && again.fetch == Payload(true)
    ensures StatusOf(After(s, b), again) == 200 <==> !RecordsDestructive(b)
  {
  }

  /**
   A destructive read that cannot be serialized answers 500 and is recorded all the same: the result is never
   delivered, and every later call that can read the state answers 410.
   */
  lemma UnserializableIsLost(s: Option<State>, calls: seq<Backend>, i: nat, j: nat)
    requires i < j < |calls| && Fetches(StateAt(s, calls, i), calls[i]) && !calls[i].fetch.serializable
    requires RecordsDestructive(calls[i]) && calls[j].readable
    ensures StatusAt(s, calls, i) == 500 && StatusAt(s, calls, j) == 410
  {
    assert StateAt(s, calls, i + 1) == Some(RetrievedDestructive);
    AbsorbingStays(s, calls, i + 1, j);
  }

  lemma {:induction false} ChangedIsRetrieved(s: Option<State>, calls: seq<Backend>, i: nat)
    requires i <= |calls|
    ensures StateAt(s, calls, i) == s || (StateAt(s, calls, i).Some? && Retrieved(StateAt(s, calls, i).value))
  {
    if i > 0 { ChangedIsRetrieved(s, calls, i - 1); }
  }

  /** 202 means that the job is still under way: no call before it has changed the state. */
  lemma RetryMeansNothingRecorded(s: Option<State>, calls: seq<Backend>, i: nat, j: nat)
    requires i <= j < |calls| && StatusAt(s, calls, j) == 202
    ensures s.Some? && Intermediate(s.value) && StateAt(s, calls, i) == s
  {
    ChangedIsRetrieved(s, calls, i);
    ChangedIsRetrieved(s, calls, j);
    if StateAt(s, calls, i) != s { RetrievedStays(s, calls, i, j); }
  }
}
