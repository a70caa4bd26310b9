/**
 The job table of the nv-ingest client (NvIngestClient in client.py, JobState in job_state.py): which
 state each job is in, and what submitting and fetching do to it.  The thread pool, the network and the
 server are the nondeterministic choices (":= *") inside the methods; a worker's effect on its own job
 is applied at the point where the caller waits for it.
 */
module ClientJobs {
  import opened Sequences
  import opened TraceTimes

  type Job = string

  datatype Phase = Pending | SubmittedAsync | Submitted | Processing | Completed | Failed | Cancelled

  /** The numbers of JobStateEnum. */
  function Rank(p: Phase): nat {
    match p
    case Pending => 1
    case SubmittedAsync => 2
    case Submitted => 3
    case Processing => 4
    case Completed => 5
    case Failed => 6
    case Cancelled => 7
  }

  predicate Terminal(p: Phase) {
    p.Completed? || p.Failed? || p.Cancelled?
  }

  /** What the setter of JobState.state lets through. */
  predicate MayMove(from: Phase, to: Phase) {
    !Terminal(from) && Rank(from) <= Rank(to)
  }

  /** The moves: forwards only, and none from a final state. */
  lemma MovesAre(from: Phase, to: Phase)
    ensures from.Pending? ==> MayMove(from, to)
    ensures from.SubmittedAsync? ==> (MayMove(from, to) <==> !to.Pending?)
    ensures from.Submitted? ==> (MayMove(from, to) <==> !to.Pending? && !to.SubmittedAsync?)
    ensures from.Processing? ==> (MayMove(from, to) <==> to.Processing? || Terminal(to))
    ensures Terminal(from) ==> !MayMove(from, to)
    ensures Terminal(to) <==> to.Completed? || to.Failed? || to.Cancelled?
  {
  }

  datatype JobState = JobState(phase: Phase, serverId: string)

  /** The trace field of a response: nothing truthy, a dictionary, or another value. */
  datatype TraceField = NoTrace | TraceMap(times: Trace) | OtherTrace(text: string)

  datatype Response = Response(status: Option<string>, description: string, data: Option<string>, trace: TraceField)

  datatype FetchOutcome = Fetched(response: Response) | TimedOut | Raised(message: string)

  /** What the message broker answers to one fetch. */
  datatype Reply = Ready(response: Response) | Undecodable | NotReady | TerminalCode | RaisedHandled | RaisedOther

  /** What the fetches of each job came back with, in order. */
  type Answers = map<Job, seq<FetchOutcome>>

  function AnswersOf(answers: Answers, j: Job): seq<FetchOutcome> {
    if j in answers then answers[j] else []
  }

  function Answer(answers: Answers, j: Job, outcome: FetchOutcome): Answers {
    answers[j := AnswersOf(answers, j) + [outcome]]
  }

  /** A submitted job the server has given an id. */
  predicate Fetchable(states: map<Job, JobState>, j: Job) {
    j in states && states[j].phase in {Submitted, SubmittedAsync} && states[j].serverId != ""
  }

  /** What the caller is told for a reply. */
  ghost predicate Tells(reply: Reply, o: FetchOutcome) {
    match reply
    case Ready(response) => o == Fetched(response)
    case NotReady => o == TimedOut
    case _ => o.Raised?
  }

  /** Jobs never go backwards and never leave a terminal state; they may be dropped from the table. */
  ghost predicate Advanced(before: map<Job, JobState>, after: map<Job, JobState>) {
    && after.Keys <= before.Keys
    && forall j :: j in after.Keys ==>
         before[j].phase == after[j].phase || MayMove(before[j].phase, after[j].phase)
  }

  lemma AdvancedTransitive(a: map<Job, JobState>, b: map<Job, JobState>, c: map<Job, JobState>)
    requires Advanced(a, b) && Advanced(b, c)
    ensures Advanced(a, c)
  {
    forall j | j in c.Keys
      ensures a[j].phase == c[j].phase || MayMove(a[j].phase, c[j].phase)
    {
      assert j in b.Keys;
    }
  }

  class NvIngestClient {
    var states: map<Job, JobState>
    const sources: map<Job, string>
    ghost var answers: Answers

    constructor (states: map<Job, JobState>, sources: map<Job, string>)
      ensures this.states == states && this.sources == sources && answers == map[]
    {
      this.states, answers := states, map[];
      this.sources := sources;
    }

    ghost predicate IsSubmitted(j: Job)
      reads this
    {
      j in states.Keys && states[j].phase == Submitted
    }

    /** submit_job_async: every job must be PENDING; stops at the first that is not, or when the pool refuses. */
    method SubmitJobAsync(js: seq<Job>) returns (raised: bool)
      modifies this`states
      ensures states.Keys == old(states.Keys) && Advanced(old(states), states)
      ensures forall j :: j in states.Keys && j !in js ==> states[j] == old(states)[j]
      ensures !raised ==> forall j :: j in js ==>
          j in old(states).Keys && old(states)[j].phase == Pending &&
          states[j] == old(states)[j].(phase := SubmittedAsync)
      ensures forall j :: j in states.Keys && old(states)[j].phase != Pending ==> states[j] == old(states)[j]
    {
      var i := 0;
      while i < |js|
        invariant 0 <= i <= |js|
        invariant states.Keys == old(states.Keys)
        invariant forall j :: j in js[..i] ==> j in states.Keys && old(states)[j].phase == Pending
        invariant forall j :: j in states.Keys ==>
            states[j] == if j in js[..i] then old(states)[j].(phase := SubmittedAsync) else old(states)[j]
      {
        if js[i] !in states || states[js[i]].phase != Pending {
          return true;
        }
        states := states[js[i] := states[js[i]].(phase := SubmittedAsync)];
        assert js[..i + 1] == js[..i] + [js[i]];
        var poolRefuses: bool := *;
        if poolRefuses {
          return true;
        }
        i := i + 1;
      }
      raised := false;
    }

    /** The workers that run submit_job: each waiting job becomes SUBMITTED with a server id, or FAILED. */
    method RunSubmissions(js: seq<Job>)
      modifies this`states
      ensures states.Keys == old(states.Keys) && Advanced(old(states), states)
      ensures forall j :: j in states.Keys && (j !in js || old(states)[j].phase != SubmittedAsync) ==>
        states[j] == old(states)[j]
      ensures forall j :: j in js && j in states.Keys && old(states)[j].phase == SubmittedAsync ==>
          states[j].phase == Submitted || states[j].phase == Failed
    {
      var i := 0;
      while i < |js|
        invariant 0 <= i <= |js|
        invariant states.Keys == old(states.Keys)
        invariant forall j :: j in states.Keys && (j !in js[..i] || old(states)[j].phase != SubmittedAsync) ==>
          states[j] == old(states)[j]
        invariant forall j :: j in js[..i] && j in states.Keys && old(states)[j].phase == SubmittedAsync ==>
            states[j].phase == Submitted || states[j].phase == Failed
      {
        assert js[..i + 1] == js[..i] + [js[i]];
        if js[i] in states && states[js[i]].phase == SubmittedAsync {
          var accepted: bool := *;
          var transactionId: string := *;
          states := states[js[i] := if accepted then JobState(Submitted, transactionId)
                                    else states[js[i]].(phase := Failed)];
        }
        i := i + 1;
      }
    }

    /**
     fetch_job_result_async: waits for the submissions (_ensure_submitted raises when a job is unknown, in a
     wrong state, or its submission failed), then starts one fetch worker for each job.
     */
    method FetchJobResultAsync(js: seq<Job>) returns (raised: bool)
      modifies this`states
      ensures states.Keys == old(states.Keys) && Advanced(old(states), states)
      ensures forall j :: j in states.Keys && (j !in js || old(states)[j].phase != SubmittedAsync) ==>
        states[j] == old(states)[j]
      ensures !raised ==> forall j :: j in js ==> IsSubmitted(j)
      ensures (exists j :: j in js && (j !in states.Keys || Terminal(states[j].phase))) ==> raised
    {
      RunSubmissions(js);
      var i := 0;
      while i < |js|
        invariant 0 <= i <= |js|
        invariant forall j :: j in js[..i] ==> IsSubmitted(j)
      {
        if js[i] !in states || states[js[i]].phase != Submitted {
          return true;
        }
        assert js[..i + 1] == js[..i] + [js[i]];
        i := i + 1;
      }
      assert js[..|js|] == js;
      raised := *;
    }

    /** _fetch_job_result, the body of one fetch worker. */
    method FetchJobResult(j: Job) returns (o: FetchOutcome, ghost reply: Reply)
      modifies this
      ensures Advanced(old(states), states) && answers == Answer(old(answers), j, o)
      ensures forall k :: k != j ==> (k in states.Keys <==> k in old(states).Keys)
      ensures forall k :: k in states.Keys && k != j ==> states[k] == old(states)[k]
      ensures o.Fetched? ==>
        j in old(states) && old(states[j].phase) in {Submitted, SubmittedAsync} && states == old(states) - {j}
      ensures o.TimedOut? ==> states == old(states) && j in states && states[j].phase in {Submitted, SubmittedAsync}
      ensures old(Fetchable(states, j)) ==> Tells(reply, o)
      ensures !old(Fetchable(states, j)) ==> o.Raised?
      ensures o.Raised? ==>
        states == if old(j in states && states[j].phase in {Submitted, SubmittedAsync} && states[j].serverId == "")
                     || (old(Fetchable(states, j)) && !reply.RaisedHandled?)
                  then old(states)[j := old(states[j]).(phase := Failed)] else old(states)
    {
      reply := RaisedHandled;
      o := Raised("invalid state");
      if j in states && states[j].phase in {Submitted, SubmittedAsync} {
        if states[j].serverId == "" {
          states := states[j := states[j].(phase := Failed)];
          o := Raised("Server Job ID is missing");
        } else {
          o, reply := Receive(j);
        }
      }
      answers := Answer(answers, j, o);
    }

    /** The call of the broker, and what is made of its reply. */
    method Receive(j: Job) returns (o: FetchOutcome, ghost reply: Reply)
      requires Fetchable(states, j)
      modifies this`states
      ensures Tells(reply, o)
      ensures states == match reply
                        case Ready(_) => old(states) - {j}
                        case NotReady => old(states)
                        case RaisedHandled => old(states)
                        case _ => old(states)[j := old(states[j]).(phase := Failed)]
    {
      var received: Reply := *;
      reply := received;
      match received {
        case Ready(response) =>
          states := states[j := states[j].(phase := Processing)];
          states := states - {j};
          assert states == old(states) - {j};
          o := Fetched(response);
        case Undecodable =>
          states := states[j := states[j].(phase := Failed)];
          o := Raised("Error decoding job result JSON");
        case NotReady =>
          o := TimedOut;
        case TerminalCode =>
          states := states[j := states[j].(phase := Failed)];
          o := Raised("Terminal failure fetching result");
        case RaisedHandled =>
          o := Raised("ValueError or RuntimeError from the broker");
        case RaisedOther =>
          states := states[j := states[j].(phase := Failed)];
          o := Raised("Unexpected error during fetch process");
      }
    }
  }
}
