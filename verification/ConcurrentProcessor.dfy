/**
 The bounded in-flight scheduler of the client (_ConcurrentProcessor in client.py).  The local variables
 of its run loop are fields here, so that one turn of the loop can be a method with a contract.
 */
module ConcurrentProcessor {
  import opened Sequences
  import opened ClientJobs
  import opened PyStrings
  import opened TraceTimes
  import Scheduler

  /** check_ingest_result: the status is looked up as a substring of "failed", and a missing status reads as "". */
  predicate IsFailure(r: Response) {
    Contains("failed", if r.status.Some? then r.status.value else "")
  }

  /** A status counts as failed when it is a stretch of the word, so a missing one does too. */
  lemma FailureMeans(r: Response)
    ensures IsFailure(r) <==>
      r.status.None? || exists i, j :: 0 <= i <= j <= |"failed"| && "failed"[i..j] == r.status.value
    ensures r.status.None? || r.status == Some("") || r.status == Some("failed") ==> IsFailure(r)
    ensures r.status.Some? && |r.status.value| > 6 ==> !IsFailure(r)
  {
    hide Contains;
    var status := if r.status.Some? then r.status.value else "";
    ContainsMeans("failed", status);
    assert "failed"[0..0] == "" && "failed"[0..6] == "failed";
  }

  datatype Stored = JobOnly(job: Job) | Envelope(response: Response) | DataOnly(data: Option<string>)

  datatype Options = Options(streamToCallbackOnly: bool, returnFullResponse: bool, returnTraces: bool,
                             hasCallback: bool)

  datatype End = Returned | StillRunning | RaisedError

  /** Why a job is recorded as failed, from which the error message is made up. */
  datatype Reason =
    | NotStarted                        // its submission or the start of a fetch was refused
    | OutOfRetries                      // "Exceeded max fetch retries"
    | ErrorProcessing(message: string)  // a fetch raised
    | BadResult(description: string)    // the response says it failed
    | UnhandledError                    // handling the result raised after recording it

  /** The text under which a failed job is recorded. */
  function Label(j: Job, source: string): string {
    j + ":" + source
  }

  /** The recorded text determines the job, so failures can be told apart by it. */
  lemma LabelNamesJob(j: Job, s: string, j': Job, s': string)
    requires ':' !in j && ':' !in j'
    requires Label(j, s) == Label(j', s')
    ensures j == j' && s == s'
  {
    SplitPrefix(j, s, ":");
    SplitPrefix(j', s', ":");
    assert j == Split(Label(j, s), ":")[0] == j';
    assert s == Label(j, s)[|j| + 1..];
  }

  function StoredAs(o: Options, j: Job, r: Response): Stored {
    if o.streamToCallbackOnly then JobOnly(j) else if o.returnFullResponse then Envelope(r) else DataOnly(r.data)
  }

  /** An entry of traces; an empty trace counts as none. */
  function TraceOf(r: Response): Option<TraceField> {
    match r.trace
    case NoTrace => None
    case TraceMap(times) => if times == map[] then None else Some(TraceMap(ResidentTimes(times)))
    case OtherTrace(_) => Some(r.trace)
  }

  /**
   The handler computes resident times of a trace with times it cannot subtract: it raises after recording the result.
   */
  predicate LateFault(o: Options, r: Response) {
    o.returnTraces && r.trace.TraceMap? && Faulty(r.trace.times)
  }

  /** The three lists run returns and the calls of the completion callback, and whose jobs they are about. */
  datatype Ledger = Ledger(results: seq<Stored>, failures: seq<(string, Reason)>, traces: seq<Option<TraceField>>,
                           callbacks: seq<(Option<string>, Job)>)
  datatype History = History(succeeded: seq<Job>, failed: seq<Job>, late: seq<Job>, traced: seq<Job>, called: seq<Job>,
                             payloads: map<Job, Response>)

  ghost predicate ResultsAgree(o: Options, l: Ledger, h: History) {
    && |l.results| == |h.succeeded|
    && forall i :: 0 <= i < |h.succeeded| ==>
         h.succeeded[i] in h.payloads && !IsFailure(h.payloads[h.succeeded[i]])
         && l.results[i] == StoredAs(o, h.succeeded[i], h.payloads[h.succeeded[i]])
  }

  ghost predicate FailuresAgree(sources: map<Job, string>, l: Ledger, h: History) {
    && |l.failures| == |h.failed|
    && forall i :: 0 <= i < |h.failed| ==>
         h.failed[i] in sources && l.failures[i].0 == Label(h.failed[i], sources[h.failed[i]])
  }

  ghost predicate TracesAgree(o: Options, l: Ledger, h: History) {
    && |l.traces| == |h.traced|
    && (forall i :: 0 <= i < |h.traced| ==>
          h.traced[i] in h.succeeded && h.traced[i] in h.payloads && l.traces[i] == TraceOf(h.payloads[h.traced[i]]))
    && (if o.returnTraces then |h.traced| + |h.late| == |h.succeeded| && (h.late == [] ==> h.traced == h.succeeded)
        else h.traced == [])
    && (forall j :: j in h.late <==> j in h.succeeded && j in h.payloads && LateFault(o, h.payloads[j]))
  }

  /** Of the fetched responses exactly the good ones became results, and the failed ones failures. */
  ghost predicate PayloadsAgree(h: History) {
    forall j :: j in h.payloads ==>
      (j in h.succeeded <==> !IsFailure(h.payloads[j])) && (IsFailure(h.payloads[j]) ==> j in h.failed)
  }

  /**
   The callback is called once for every fetched response, failed ones included, unless its handling raised before.
   */
  ghost predicate CallbacksAgree(o: Options, l: Ledger, h: History) {
    && |l.callbacks| == |h.called| && Distinct(h.called)
    && (forall i :: 0 <= i < |h.called| ==>
          h.called[i] in h.payloads && l.callbacks[i] == (h.payloads[h.called[i]].data, h.called[i]))
    && (forall j :: j in h.called <==> o.hasCallback && j in h.payloads && Completes(o, h.payloads[j]))
  }

  /** The handler comes to its end. */
  predicate Completes(o: Options, r: Response) {
    IsFailure(r) || !LateFault(o, r)
  }

  ghost predicate Faithful(o: Options, sources: map<Job, string>, l: Ledger, h: History) {
    ResultsAgree(o, l, h) && FailuresAgree(sources, l, h) && TracesAgree(o, l, h) && PayloadsAgree(h) &&
    CallbacksAgree(o, l, h)
  }

  /** The books are right: the lists are faithful, and the failures are the refused jobs and the late ones. */
  ghost predicate BooksOk(jobs: seq<Job>, o: Options, sources: map<Job, string>, l: Ledger, h: History,
                          refused: seq<Job>) {
    && (forall j :: j in jobs ==> j in sources && ':' !in j)
    && Faithful(o, sources, l, h)
    && multiset(h.failed) == multiset(refused) + multiset(h.late)
  }

  lemma FailureKeepsFaithful(o: Options, sources: map<Job, string>, l: Ledger, h: History, j: Job, reason: Reason)
    requires Faithful(o, sources, l, h) && j in sources
    ensures Faithful(o, sources, l.(failures := l.failures + [(Label(j, sources[j]), reason)]),
                     h.(failed := h.failed + [j]))
  {
  }

  /** The lists after the handler of a fetched response is done with them. */
  function Recorded(o: Options, sources: map<Job, string>, l: Ledger, j: Job, r: Response): Ledger
    requires j in sources
  {
    var l' :=
      if IsFailure(r) then l.(failures := l.failures + [(Label(j, sources[j]), BadResult(r.description))])
      else if o.returnTraces && !LateFault(o, r) then
        l.(results := l.results + [StoredAs(o, j, r)], traces := l.traces + [TraceOf(r)])
      else l.(results := l.results + [StoredAs(o, j, r)]);
    if o.hasCallback && Completes(o, r) then l'.(callbacks := l.callbacks + [(r.data, j)]) else l'
  }

  function RecordedHistory(o: Options, h: History, j: Job, r: Response): History {
    var h' :=
      if IsFailure(r) then h.(failed := h.failed + [j], payloads := h.payloads[j := r])
      else if LateFault(o, r) then h.(succeeded := h.succeeded + [j], late := h.late + [j],
                                      payloads := h.payloads[j := r])
      else if o.returnTraces then h.(succeeded := h.succeeded + [j], traced := h.traced + [j],
                                     payloads := h.payloads[j := r])
      else h.(succeeded := h.succeeded + [j], payloads := h.payloads[j := r]);
    if o.hasCallback && Completes(o, r) then h'.(called := h.called + [j]) else h'
  }

  /** A failed response is a failure; another is a result, with its trace when wanted, or without when it is broken. */
  lemma RecordedKeepsFaithful(o: Options, sources: map<Job, string>, l: Ledger, h: History, j: Job, r: Response)
    requires Faithful(o, sources, l, h) && j in sources && j !in h.succeeded && j !in h.failed
    ensures Faithful(o, sources, Recorded(o, sources, l, j, r), RecordedHistory(o, h, j, r))
  {
    hide ResultsAgree, TracesAgree, PayloadsAgree, CallbacksAgree, IsFailure, LateFault, StoredAs, Completes;
    NoPayloadYet(h, j);
    RecordedCallbacks(o, sources, l, h, j, r);
    RecordedResults(o, sources, l, h, j, r);
    RecordedTraces(o, sources, l, h, j, r);
    RecordedPayloads(o, h, j, r);
  }

  lemma NoPayloadYet(h: History, j: Job)
    requires PayloadsAgree(h) && j !in h.succeeded && j !in h.failed
    ensures j !in h.payloads
  {
  }

  lemma RecordedCallbacks(o: Options, sources: map<Job, string>, l: Ledger, h: History, j: Job, r: Response)
    requires CallbacksAgree(o, l, h) && j in sources && j !in h.payloads
    ensures CallbacksAgree(o, Recorded(o, sources, l, j, r), RecordedHistory(o, h, j, r))
  {
    hide IsFailure, LateFault, StoredAs, TraceOf, Completes, CallbacksAgree;
    OneMoreCall(o, l, h, j, r, Recorded(o, sources, l, j, r), RecordedHistory(o, h, j, r));
  }

  lemma OneMoreCall(o: Options, l: Ledger, h: History, j: Job, r: Response, l': Ledger, h': History)
    requires CallbacksAgree(o, l, h) && j !in h.payloads && h'.payloads == h.payloads[j := r]
    requires if o.hasCallback && Completes(o, r) then
               h'.called == h.called + [j] && l'.callbacks == l.callbacks + [(r.data, j)]
             else h'.called == h.called && l'.callbacks == l.callbacks
    ensures CallbacksAgree(o, l', h')
  {
    hide Completes;
    assert forall i :: 0 <= i < |h.called| ==> h.called[i] != j && h.called[i] in h.called;
  }

  lemma RecordedResults(o: Options, sources: map<Job, string>, l: Ledger, h: History, j: Job, r: Response)
    requires ResultsAgree(o, l, h) && j in sources && j !in h.succeeded
    ensures ResultsAgree(o, Recorded(o, sources, l, j, r), RecordedHistory(o, h, j, r))
  {
    hide IsFailure, StoredAs, LateFault, TraceOf, Completes;
    assert forall i :: 0 <= i < |h.succeeded| ==> h.succeeded[i] != j;
  }

  lemma RecordedTraces(o: Options, sources: map<Job, string>, l: Ledger, h: History, j: Job, r: Response)
    requires TracesAgree(o, l, h) && j in sources && j !in h.succeeded
    ensures TracesAgree(o, Recorded(o, sources, l, j, r), RecordedHistory(o, h, j, r))
  {
    hide IsFailure, TraceOf, StoredAs, Faulty, Completes;
    var h' := RecordedHistory(o, h, j, r);
    assert forall k :: k in h.succeeded ==> k != j;
    forall k
      ensures k in h'.late <==> k in h'.succeeded && k in h'.payloads && LateFault(o, h'.payloads[k])
    {
      if k == j { assert j !in h.late; }
    }
  }

  lemma RecordedPayloads(o: Options, h: History, j: Job, r: Response)
    requires PayloadsAgree(h) && j !in h.succeeded
    ensures PayloadsAgree(RecordedHistory(o, h, j, r))
  {
    hide IsFailure, LateFault, Completes;
  }

  /** What handling a fetched response does to the lists and the history, the late failure included. */
  function Handled(o: Options, sources: map<Job, string>, l: Ledger, j: Job, r: Response): Ledger
    requires j in sources
  {
    var l' := Recorded(o, sources, l, j, r);
    if !IsFailure(r) && LateFault(o, r) then l'.(failures := l'.failures + [(Label(j, sources[j]), UnhandledError)])
    else l'
  }

  function HandledHistory(o: Options, h: History, j: Job, r: Response): History {
    var h' := RecordedHistory(o, h, j, r);
    if !IsFailure(r) && LateFault(o, r) then h'.(failed := h'.failed + [j]) else h'
  }

  lemma HandledKeepsBooks(jobs: seq<Job>, o: Options, sources: map<Job, string>, l: Ledger, h: History,
                          refused: seq<Job>, j: Job, r: Response)
    requires BooksOk(jobs, o, sources, l, h, refused) && j in jobs && j !in h.succeeded && j !in h.failed
    ensures BooksOk(jobs, o, sources, Handled(o, sources, l, j, r), HandledHistory(o, h, j, r),
                    if IsFailure(r) then refused + [j] else refused)
  {
    hide Faithful, Recorded, IsFailure, LateFault, Completes;
    RecordedKeepsFaithful(o, sources, l, h, j, r);
    if LateFault(o, r) {
      FailureKeepsFaithful(o, sources, Recorded(o, sources, l, j, r), RecordedHistory(o, h, j, r), j,
                           UnhandledError);
    }
  }

  /** A job that is neither a result nor refused is no failure either. */
  lemma NotFailedYet(jobs: seq<Job>, o: Options, sources: map<Job, string>, l: Ledger, h: History, refused: seq<Job>,
                     j: Job)
    requires BooksOk(jobs, o, sources, l, h, refused) && j !in h.succeeded && j !in refused
    ensures j !in h.failed
  {
    hide ResultsAgree, FailuresAgree, PayloadsAgree, CallbacksAgree;
    assert j !in h.late;
    assert multiset(h.failed)[j] == multiset(refused)[j] + multiset(h.late)[j];
    assert j in h.failed <==> multiset(h.failed)[j] > 0;
  }

  /** The "record only once" guard looks for the bare index among the recorded texts, and never finds it. */
  lemma BareIndexIsNoLabel(sources: map<Job, string>, l: Ledger, h: History, j: Job)
    requires FailuresAgree(sources, l, h) && ':' !in j
    ensures forall f :: f in l.failures ==> f.0 != j
  {
    forall i | 0 <= i < |l.failures|
      ensures l.failures[i].0 != j
    {
      var text := Label(h.failed[i], sources[h.failed[i]]);
      assert text[|h.failed[i]|] == ':' && ':' in text;
    }
  }

  /**
   The accounting of _log_final_status is exact just when no recorded result had a broken trace; in particular
   whenever traces are not asked for.
   */
  lemma AccountingExact(o: Options, sources: map<Job, string>, l: Ledger, h: History, total: nat)
    requires Faithful(o, sources, l, h) && |l.results| + |l.failures| == total + |h.late|
    ensures |l.results| + |l.failures| == total <==> forall j :: j in h.succeeded ==> !LateFault(o, h.payloads[j])
    ensures !o.returnTraces ==> |l.results| + |l.failures| == total
  {
    if h.late != [] {
      assert h.late[0] in h.late;
    }
    forall i | 0 <= i < |h.succeeded| && LateFault(o, h.payloads[h.succeeded[i]])
      ensures h.late != []
    {
      assert h.succeeded[i] in h.late;
    }
  }

  /** traces runs parallel to results, entry by entry, just when no recorded result had a broken trace. */
  lemma TracesParallel(o: Options, sources: map<Job, string>, l: Ledger, h: History)
    requires Faithful(o, sources, l, h) && o.returnTraces
    ensures |l.traces| == |l.results| <==> forall j :: j in h.succeeded ==> !LateFault(o, h.payloads[j])
    ensures |l.traces| == |l.results| ==> forall i :: 0 <= i < |l.results| ==>
        l.results[i] == StoredAs(o, h.succeeded[i], h.payloads[h.succeeded[i]])
        && l.traces[i] == TraceOf(h.payloads[h.succeeded[i]])
  {
    if h.late != [] {
      assert h.late[0] in h.late;
    }
    forall i | 0 <= i < |h.succeeded| && LateFault(o, h.payloads[h.succeeded[i]])
      ensures h.late != []
    {
      assert h.succeeded[i] in h.late;
    }
  }

  // --- what each job was told, and what became of it -----------------------------------------------------------

  /** Nothing but "not ready", and not too often yet to try again. */
  ghost predicate StillTrying(maxRetries: Option<int>, a: seq<FetchOutcome>) {
    && (forall i :: 0 <= i < |a| ==> a[i].TimedOut?)
    && (maxRetries.Some? ==> |a| <= Scheduler.Cap(maxRetries))
  }

  /** The last answer, after nothing but "not ready". */
  ghost predicate EndsWith(maxRetries: Option<int>, a: seq<FetchOutcome>, last: FetchOutcome) {
    exists before :: StillTrying(maxRetries, before) && a == before + [last]
  }

  /** The answers a job recorded as failed for this reason has had. */
  ghost predicate Explains(o: Options, maxRetries: Option<int>, a: seq<FetchOutcome>, reason: Reason) {
    match reason
    case NotStarted => StillTrying(maxRetries, a)
    case OutOfRetries =>
      && maxRetries.Some? && |a| == Scheduler.Cap(maxRetries) + 1
      && forall i :: 0 <= i < |a| ==> a[i].TimedOut?
    case ErrorProcessing(message) => EndsWith(maxRetries, a, Raised(message))
    case BadResult(description) =>
      exists r :: EndsWith(maxRetries, a, Fetched(r)) && IsFailure(r) && r.description == description
    case UnhandledError => exists r :: EndsWith(maxRetries, a, Fetched(r)) && !IsFailure(r) && LateFault(o, r)
  }

  /** A recorded job has had the answers that lead there, and no others; one that is not has only been put off. */
  ghost predicate Explained(o: Options, maxRetries: Option<int>, failures: seq<(string, Reason)>, h: History,
                            counts: map<Job, int>, answers: Answers) {
    && |failures| == |h.failed|
    && (forall i :: 0 <= i < |failures| ==>
          Explains(o, maxRetries, AnswersOf(answers, h.failed[i]), failures[i].1))
    && (forall j :: j in h.succeeded ==> SucceedsWith(maxRetries, h, AnswersOf(answers, j), j))
    && (forall j :: j !in h.succeeded && j !in h.failed ==> PutOff(maxRetries, counts, AnswersOf(answers, j), j))
  }

  ghost predicate SucceedsWith(maxRetries: Option<int>, h: History, a: seq<FetchOutcome>, j: Job) {
    j in h.payloads && EndsWith(maxRetries, a, Fetched(h.payloads[j])) && !IsFailure(h.payloads[j])
  }

  ghost predicate PutOff(maxRetries: Option<int>, counts: map<Job, int>, a: seq<FetchOutcome>, j: Job) {
    StillTrying(maxRetries, a) && Scheduler.Count(counts, j) == |a|
  }

  ghost predicate SameButFor(answers: Answers, answers': Answers, j: Job) {
    forall k :: k != j ==> AnswersOf(answers', k) == AnswersOf(answers, k)
  }

  /** The answers so far are those before and those of this run. */
  ghost predicate Continues(before: Answers, answers: Answers, all: Answers) {
    forall j :: AnswersOf(all, j) == AnswersOf(before, j) + AnswersOf(answers, j)
  }

  lemma AnswerContinues(before: Answers, answers: Answers, all: Answers, j: Job, o: FetchOutcome)
    requires Continues(before, answers, all)
    ensures Continues(before, Answer(answers, j, o), Answer(all, j, o))
  {
    var a, b, c := AnswersOf(before, j), AnswersOf(answers, j), AnswersOf(all, j);
    assert c == a + b && (a + b) + [o] == a + (b + [o]);
  }

  lemma AnswerIsLast(answers: Answers, j: Job, outcome: FetchOutcome)
    ensures SameButFor(answers, Answer(answers, j, outcome), j)
    ensures AnswersOf(Answer(answers, j, outcome), j) == AnswersOf(answers, j) + [outcome]
  {
  }

  lemma NothingToExplain(o: Options, maxRetries: Option<int>)
    ensures Explained(o, maxRetries, [], History([], [], [], [], [], map[]), map[], map[])
  {
  }

  lemma NothingRecorded(o: Options, sources: map<Job, string>)
    ensures Faithful(o, sources, Ledger([], [], [], []), History([], [], [], [], [], map[]))
  {
  }

  lemma FailureExplained(o: Options, maxRetries: Option<int>, failures: seq<(string, Reason)>, h: History,
                         counts: map<Job, int>, answers: Answers, j: Job, text: string, reason: Reason,
                         answers': Answers)
    requires Explained(o, maxRetries, failures, h, counts, answers) && j !in h.succeeded && j !in h.failed
    requires SameButFor(answers, answers', j) && Explains(o, maxRetries, AnswersOf(answers', j), reason)
    ensures Explained(o, maxRetries, failures + [(text, reason)], h.(failed := h.failed + [j]), counts - {j}, answers')
  {
    hide Explains, EndsWith, IsFailure, AnswersOf, StillTrying;
    var h' := h.(failed := h.failed + [j]);
    assert forall i :: 0 <= i < |h.failed| ==> h.failed[i] in h.failed;
    assert forall k :: k !in h'.failed ==> k != j && k !in h.failed;
  }

  lemma PutOffExplained(o: Options, maxRetries: Option<int>, failures: seq<(string, Reason)>, h: History,
                        counts: map<Job, int>, answers: Answers, j: Job)
    requires Explained(o, maxRetries, failures, h, counts, answers) && j !in h.succeeded && j !in h.failed
    requires maxRetries.None? || Scheduler.Count(counts, j) + 1 <= maxRetries.value
    ensures Explained(o, maxRetries, failures, h, counts[j := Scheduler.Count(counts, j) + 1],
                      Answer(answers, j, TimedOut))
  {
    hide Explains, SucceedsWith;
    assert PutOff(maxRetries, counts, AnswersOf(answers, j), j);
    assert forall i :: 0 <= i < |h.failed| ==> h.failed[i] in h.failed;
  }

  lemma OutOfRetriesExplained(o: Options, maxRetries: Option<int>, failures: seq<(string, Reason)>, h: History,
                              counts: map<Job, int>, answers: Answers, j: Job)
    requires Explained(o, maxRetries, failures, h, counts, answers) && j !in h.succeeded && j !in h.failed
    requires maxRetries.Some? && Scheduler.Count(counts, j) + 1 > maxRetries.value
    ensures Explains(o, maxRetries, AnswersOf(Answer(answers, j, TimedOut), j), OutOfRetries)
  {
    assert PutOff(maxRetries, counts, AnswersOf(answers, j), j);
  }

  lemma LastAnswer(o: Options, maxRetries: Option<int>, failures: seq<(string, Reason)>, h: History,
                   counts: map<Job, int>, answers: Answers, j: Job, last: FetchOutcome)
    requires Explained(o, maxRetries, failures, h, counts, answers) && j !in h.succeeded && j !in h.failed
    ensures StillTrying(maxRetries, AnswersOf(answers, j))
    ensures EndsWith(maxRetries, AnswersOf(Answer(answers, j, last), j), last)
  {
    assert PutOff(maxRetries, counts, AnswersOf(answers, j), j);
    AnswerIsLast(answers, j, last);
  }

  lemma HandledExplained(o: Options, maxRetries: Option<int>, sources: map<Job, string>, l: Ledger, h: History,
                         counts: map<Job, int>, answers: Answers, j: Job, r: Response)
    requires Explained(o, maxRetries, l.failures, h, counts, answers) && j !in h.succeeded && j !in h.failed
    requires j in sources
    ensures Explained(o, maxRetries, Handled(o, sources, l, j, r).failures, HandledHistory(o, h, j, r), counts - {j},
                      Answer(answers, j, Fetched(r)))
  {
    hide Explains, Explained, IsFailure, LateFault, EndsWith, Completes, StoredAs, TraceOf;
    var h', answers' := RecordedHistory(o, h, j, r), Answer(answers, j, Fetched(r));
    LastAnswer(o, maxRetries, l.failures, h, counts, answers, j, Fetched(r));
    AnswerIsLast(answers, j, Fetched(r));
    FetchedExplains(o, maxRetries, AnswersOf(answers', j), r);
    if IsFailure(r) {
      FailureExplained(o, maxRetries, l.failures, h, counts, answers, j, Label(j, sources[j]),
                       BadResult(r.description), answers');
      OtherPayload(o, maxRetries, Handled(o, sources, l, j, r).failures, h.(failed := h.failed + [j]),
                   HandledHistory(o, h, j, r), counts - {j}, answers', j);
    } else {
      SuccessExplained(o, maxRetries, l.failures, h, h', counts, answers, j, r);
      if LateFault(o, r) {
        LateExplained(o, maxRetries, l.failures, h', counts - {j}, answers', j, Label(j, sources[j]));
      }
    }
  }

  lemma FetchedExplains(o: Options, maxRetries: Option<int>, a: seq<FetchOutcome>, r: Response)
    requires EndsWith(maxRetries, a, Fetched(r))
    ensures IsFailure(r) ==> Explains(o, maxRetries, a, BadResult(r.description))
    ensures !IsFailure(r) && LateFault(o, r) ==> Explains(o, maxRetries, a, UnhandledError)
  {
    hide EndsWith, IsFailure, LateFault;
  }

  lemma NotStartedExplains(o: Options, maxRetries: Option<int>, failures: seq<(string, Reason)>, h: History,
                           counts: map<Job, int>, answers: Answers, j: Job)
    requires Explained(o, maxRetries, failures, h, counts, answers) && j !in h.succeeded && j !in h.failed
    ensures Explains(o, maxRetries, AnswersOf(answers, j), NotStarted) && SameButFor(answers, answers, j)
  {
    assert PutOff(maxRetries, counts, AnswersOf(answers, j), j);
  }

  lemma ErrorExplains(o: Options, maxRetries: Option<int>, a: seq<FetchOutcome>, message: string)
    requires EndsWith(maxRetries, a, Raised(message))
    ensures Explains(o, maxRetries, a, ErrorProcessing(message))
  {
  }

  /** A payload of a job that is no success explains nothing else. */
  lemma OtherPayload(o: Options, maxRetries: Option<int>, failures: seq<(string, Reason)>, h: History, h': History,
                     counts: map<Job, int>, answers: Answers, j: Job)
    requires Explained(o, maxRetries, failures, h, counts, answers)
    requires h'.failed == h.failed && h'.succeeded == h.succeeded && j !in h.succeeded
    requires forall k :: k in h.payloads && k != j ==> k in h'.payloads && h'.payloads[k] == h.payloads[k]
    ensures Explained(o, maxRetries, failures, h', counts, answers)
  {
    hide Explains, EndsWith, PutOff, AnswersOf;
  }

  lemma SuccessExplained(o: Options, maxRetries: Option<int>, failures: seq<(string, Reason)>, h: History, h': History,
                         counts: map<Job, int>, answers: Answers, j: Job, r: Response)
    requires Explained(o, maxRetries, failures, h, counts, answers) && j !in h.succeeded && j !in h.failed
    requires h'.failed == h.failed && h'.succeeded == h.succeeded + [j] && h'.payloads == h.payloads[j := r]
    requires !IsFailure(r) && EndsWith(maxRetries, AnswersOf(Answer(answers, j, Fetched(r)), j), Fetched(r))
    ensures Explained(o, maxRetries, failures, h', counts - {j}, Answer(answers, j, Fetched(r)))
  {
    hide Explains, EndsWith, AnswersOf, Answer, IsFailure, StillTrying;
    var answers' := Answer(answers, j, Fetched(r));
    AnswerIsLast(answers, j, Fetched(r));
    assert forall i :: 0 <= i < |h.failed| ==> h.failed[i] in h.failed;
    forall k | k in h'.succeeded
      ensures SucceedsWith(maxRetries, h', AnswersOf(answers', k), k)
    {
      if k != j { assert k in h.succeeded && SucceedsWith(maxRetries, h, AnswersOf(answers, k), k); }
    }
    forall k | k !in h'.succeeded && k !in h'.failed
      ensures PutOff(maxRetries, counts - {j}, AnswersOf(answers', k), k)
    {
      assert j in h'.succeeded && k !in h.succeeded;
      assert PutOff(maxRetries, counts, AnswersOf(answers, k), k);
    }
  }

  lemma LateExplained(o: Options, maxRetries: Option<int>, failures: seq<(string, Reason)>, h: History,
                      counts: map<Job, int>, answers: Answers, j: Job, text: string)
    requires Explained(o, maxRetries, failures, h, counts, answers) && j in h.succeeded
    requires Explains(o, maxRetries, AnswersOf(answers, j), UnhandledError)
    ensures Explained(o, maxRetries, failures + [(text, UnhandledError)], h.(failed := h.failed + [j]), counts, answers)
  {
    hide Explains, EndsWith, PutOff, AnswersOf, IsFailure;
    var h' := h.(failed := h.failed + [j]);
    assert forall k :: k in h.failed ==> k in h'.failed;
  }

  /** What the lists hold of each response: the form asked for, and its trace with the resident times. */
  lemma ListsHold(o: Options, l: Ledger, h: History, i: nat)
    requires ResultsAgree(o, l, h) && TracesAgree(o, l, h)
    ensures i < |l.results| ==>
      var (j, r) := (h.succeeded[i], h.payloads[h.succeeded[i]]);
      && (o.streamToCallbackOnly ==> l.results[i] == JobOnly(j))
      && (!o.streamToCallbackOnly && o.returnFullResponse ==> l.results[i] == Envelope(r))
      && (!o.streamToCallbackOnly && !o.returnFullResponse ==> l.results[i] == DataOnly(r.data))
    ensures i < |l.traces| ==>
      var trace := h.payloads[h.traced[i]].trace;
      && (l.traces[i].None? <==> trace.NoTrace? || trace == TraceMap(map[]))
      && (trace.OtherTrace? ==> l.traces[i] == Some(trace))
      && (trace.TraceMap? && trace.times != map[] ==> l.traces[i] == Some(TraceMap(ResidentTimes(trace.times))))
  {
  }

  class Processor {
    const client: NvIngestClient
    const jobs: seq<Job>
    const hasQueue: bool
    const batchSize: int
    const maxRetries: Option<int>
    const failOnSubmitError: bool
    const options: Options

    var retryJobs: seq<Job>
    var retryCounts: map<Job, int>
    var lists: Ledger               // results, failures and traces
    var submitted: nat
    var inflight: seq<Job>

    ghost var sched: Scheduler.Sched
    ghost var history: History
    ghost var slices: seq<seq<Job>>
    ghost var strayFetches: nat
    ghost var answers: Answers
    ghost const before: Answers      // of the client, before this run

    constructor (client: NvIngestClient, jobs: seq<Job>, hasQueue: bool, batchSize: int, maxRetries: Option<int>,
                 failOnSubmitError: bool, options: Options)
      requires Distinct(jobs)
      requires forall j :: j in jobs ==> j in client.sources && ':' !in j
      ensures this.client == client && this.jobs == jobs && this.hasQueue == hasQueue && this.batchSize == batchSize
      ensures this.maxRetries == maxRetries && this.failOnSubmitError == failOnSubmitError && this.options == options
      ensures Inv() && sched == Scheduler.Initial(jobs) && slices == [] && strayFetches == 0 && answers == map[]
      ensures before == client.answers
    {
      this.client := client;
      this.jobs := jobs;
      this.hasQueue := hasQueue;
      this.batchSize := batchSize;
      this.maxRetries := maxRetries;
      this.failOnSubmitError := failOnSubmitError;
      this.options := options;
      retryJobs, retryCounts, lists, submitted, inflight := [], map[], Ledger([], [], [], []), 0, [];
      sched, history, slices, strayFetches := Scheduler.Initial(jobs), History([], [], [], [], [], map[]), [], 0;
      answers, before := map[], client.answers;
      new;
      NothingToExplain(options, maxRetries);
      Scheduler.InvInitial(jobs, maxRetries);
    }

    /** The fields of the object are those of the abstract schedule. */
    ghost predicate Linked()
      reads this
    {
      && submitted <= |jobs|
      && sched.unsubmitted == jobs[submitted..] && sched.waiting == retryJobs && sched.inflight == inflight
      && sched.counts == retryCounts && sched.succeeded == history.succeeded && sched.late == history.late
    }

    ghost predicate Books()
      reads this
    {
      BooksOk(jobs, options, client.sources, lists, history, sched.refused)
    }

    /** Every record is explained by what the fetches came back with. */
    ghost predicate Accounted()
      reads this
    {
      Explained(options, maxRetries, lists.failures, history, retryCounts, answers)
    }

    /** Waiting and in-flight jobs are submitted, and not terminal, in the client's table. */
    ghost predicate ClientAgrees()
      reads this, client
    {
      && (forall j :: j in retryJobs ==> client.IsSubmitted(j))
      && (forall j :: j in inflight ==> client.IsSubmitted(j))
      && Continues(before, answers, client.answers)
    }

    ghost predicate Inv()
      reads this, client
    {
      Linked() && Books() && Accounted() && ClientAgrees() && Scheduler.Inv(jobs, sched, maxRetries)
    }

    /** The slices handed to submit_job_async are consecutive and cover what is no longer unsubmitted. */
    ghost predicate Submissions()
      reads this
    {
      submitted <= |jobs| && Flatten(slices) == if hasQueue then jobs[..submitted] else []
    }

    ghost predicate Bounded()
      reads this
    {
      |inflight| <= Max(batchSize, 0)
    }

    predicate Pending()
      reads this
    {
      submitted < |jobs| || retryJobs != [] || inflight != []
    }

    ghost function Work(): int
      reads this
    {
      Scheduler.Work(sched, Scheduler.Cap(maxRetries))
    }

    /** _handle_processing_failure, whose client._get_job_state_object does not exist: the table is left alone. */
    method HandleFailure(j: Job, reason: Reason)
      requires FailuresAgree(client.sources, lists, history)
      requires j in client.sources && ':' !in j
      modifies this`lists, this`history, this`retryCounts
      ensures lists == old(lists).(failures := old(lists.failures) + [(Label(j, client.sources[j]), reason)])
      ensures history == old(history).(failed := old(history.failed) + [j])
      ensures retryCounts == old(retryCounts) - {j}
    {
      BareIndexIsNoLabel(client.sources, lists, history, j);
      if !(exists f :: f in lists.failures && f.0 == j) {
        lists := lists.(failures := lists.failures + [(Label(j, client.sources[j]), reason)]);
      }
      history := history.(failed := history.failed + [j]);
      if j in retryCounts {
        retryCounts := retryCounts - {j};
      }
    }

    /** _handle_processing_success; it raises only after the result has been recorded. */
    method HandleSuccess(j: Job, r: Response) returns (raised: bool)
      requires j in client.sources
      modifies this`lists, this`history, this`retryCounts
      ensures raised <==> !IsFailure(r) && LateFault(options, r)
      ensures lists == Recorded(options, client.sources, old(lists), j, r)
      ensures history == RecordedHistory(options, old(history), j, r)
      ensures retryCounts == if raised then old(retryCounts) else old(retryCounts) - {j}
    {
      hide IsFailure, Faulty, ResidentTimes;
      EmptyTraceIsFine();
      var failed := IsFailure(r);
      history := RecordedHistory(options, history, j, r);
      if failed {
        lists := lists.(failures := lists.failures + [(Label(j, client.sources[j]), BadResult(r.description))]);
      } else {
        lists := lists.(results := lists.results + [StoredAs(options, j, r)]);
      }
      if options.returnTraces && !failed {
        var payload := TruthyTrace(r.trace);
        if payload.Some? && payload.value.TraceMap? {
          var times := ComputeResidentTimes(payload.value.times);
          if times.None? { return true; }
          payload := Some(TraceMap(times.value));
        }
        lists := lists.(traces := lists.traces + [payload]);
      }
      if j in retryCounts {
        retryCounts := retryCounts - {j};
      }
      if options.hasCallback {
        lists := lists.(callbacks := lists.callbacks + [(r.data, j)]);   // what the callback raises is only logged
      }
      return false;
    }

    /** "trace_payload if trace_payload else None" */
    function TruthyTrace(trace: TraceField): Option<TraceField> {
      if trace.NoTrace? || trace == TraceMap(map[]) then None else Some(trace)
    }

    lemma EmptyTraceIsFine()
      ensures !Faulty(map[])
    {
    }

    /** A job without a result is recorded as failed. */
    method RecordFailure(j: Job, reason: Reason, ghost next: Scheduler.Sched, ghost answered: Answers,
                         ghost counts: map<Job, int>)
      requires Books() && j in jobs && j !in history.succeeded && j !in history.failed
      requires Explained(options, maxRetries, lists.failures, history, counts, answers)
      requires retryCounts - {j} == counts - {j}
      requires next.refused == sched.refused + [j]
      requires SameButFor(answers, answered, j) && Explains(options, maxRetries, AnswersOf(answered, j), reason)
      modifies this`lists, this`history, this`retryCounts, this`sched, this`answers
      ensures Books() && Accounted() && sched == next && answers == answered
      ensures history == old(history).(failed := old(history.failed) + [j])
      ensures retryCounts == old(retryCounts) - {j}
      ensures lists.failures == old(lists.failures) + [(Label(j, client.sources[j]), reason)]
    {
      hide Explains, Explained, SameButFor;
      FailureKeepsFaithful(options, client.sources, lists, history, j, reason);
      FailureExplained(options, maxRetries, lists.failures, history, counts, answers, j,
                       Label(j, client.sources[j]), reason, answered);
      HandleFailure(j, reason);
      sched, answers := next, answered;
    }

    /** A fetched response is recorded; a late fault records its job a second time, as failed. */
    method RecordFetched(i: nat, j: Job, r: Response)
      requires Books() && Accounted() && j in jobs && i < |sched.inflight| && j == sched.inflight[i]
      requires j !in history.succeeded && j !in sched.refused
      requires sched.succeeded == history.succeeded && sched.late == history.late && sched.counts == retryCounts
      modifies this`lists, this`history, this`retryCounts, this`sched, this`answers
      ensures Books() && Accounted() && answers == Answer(old(answers), j, Fetched(r))
      ensures var event := if IsFailure(r) then Scheduler.Fail(i)
                           else if LateFault(options, r) then Scheduler.SucceedThenRaise(i) else Scheduler.Succeed(i);
              sched == Scheduler.Next(old(sched), event, maxRetries)
      ensures sched.succeeded == history.succeeded && sched.late == history.late && sched.counts == retryCounts
      ensures history.payloads == old(history.payloads)[j := r]
    {
      hide BooksOk, IsFailure, LateFault, Recorded, Completes, Explained, Answer;
      NotFailedYet(jobs, options, client.sources, lists, history, sched.refused, j);
      HandledKeepsBooks(jobs, options, client.sources, lists, history, sched.refused, j, r);
      FaultyBooks(j, r);
      HandledExplained(options, maxRetries, client.sources, lists, history, retryCounts, answers, j, r);
      answers := Answer(answers, j, Fetched(r));
      var raised := HandleSuccess(j, r);
      if raised {
        HandleFailure(j, UnhandledError);
        sched := Scheduler.Next(sched, Scheduler.SucceedThenRaise(i), maxRetries);
      } else if IsFailure(r) {
        sched := Scheduler.Next(sched, Scheduler.Fail(i), maxRetries);
      } else {
        sched := Scheduler.Next(sched, Scheduler.Succeed(i), maxRetries);
      }
    }

    /** The labels are in order for the failure handler after the success handler. */
    lemma FaultyBooks(j: Job, r: Response)
      requires Books() && j in jobs && j !in history.succeeded && j !in history.failed
      ensures j in client.sources && ':' !in j
      ensures FailuresAgree(client.sources, Recorded(options, client.sources, lists, j, r),
                            RecordedHistory(options, history, j, r))
    {
      hide ResultsAgree, TracesAgree, PayloadsAgree, CallbacksAgree, IsFailure, LateFault;
      RecordedKeepsFaithful(options, client.sources, lists, history, j, r);
    }

    /** An in-flight job is one of the jobs, in flight once, and nowhere else. */
    lemma InflightAlone(i: nat)
      requires Scheduler.Inv(jobs, sched, maxRetries) && i < |sched.inflight|
      ensures var j := sched.inflight[i];
              && j in jobs && j !in sched.waiting && j !in sched.succeeded && j !in sched.refused
              && j !in Scheduler.Without(sched.inflight, i)
    {
      var j := sched.inflight[i];
      assert Scheduler.Occurrences(sched.inflight, j) > 0;
      Scheduler.Alone(jobs, sched, j);
      Scheduler.Member(jobs, sched, j);
      Scheduler.WithoutCount(sched.inflight, i, j);
    }

    /** What the outcome of the i-th fetch in flight means for the schedule. */
    function EventOf(i: nat, outcome: FetchOutcome): Scheduler.Event {
      match outcome
      case Fetched(r) =>
        if IsFailure(r) then Scheduler.Fail(i) else if LateFault(options, r) then Scheduler.SucceedThenRaise(i)
        else Scheduler.Succeed(i)
      case TimedOut => Scheduler.NotReady(i)
      case Raised(_) => Scheduler.Fail(i)
    }

    /** A job that is not ready yet is retried at once, unless it is out of retries. */
    method PutOffOrGiveUp(i: nat, j: Job)
      requires Books() && Accounted() && j in jobs && j !in history.succeeded && j !in history.failed
      requires j !in retryJobs && i < |sched.inflight| && j == sched.inflight[i]
      requires sched.waiting == retryJobs && sched.counts == retryCounts
      modifies this`lists, this`history, this`retryCounts, this`retryJobs, this`sched, this`answers
      ensures Books() && Accounted() && answers == Answer(old(answers), j, TimedOut)
      ensures sched == Scheduler.Next(old(sched), Scheduler.NotReady(i), maxRetries)
      ensures sched.waiting == retryJobs && sched.counts == retryCounts
      ensures history.payloads == old(history.payloads) && history.succeeded == old(history.succeeded)
      ensures history.late == old(history.late)
      ensures retryJobs == old(retryJobs) || retryJobs == old(retryJobs) + [j]
    {
      hide BooksOk, Explained, Explains, Answer, SameButFor;
      AnswerIsLast(answers, j, TimedOut);
      ghost var next := Scheduler.Next(sched, Scheduler.NotReady(i), maxRetries);
      ghost var answered, counts := Answer(answers, j, TimedOut), retryCounts;
      var n := Scheduler.Count(retryCounts, j) + 1;
      retryCounts := retryCounts[j := n];
      if maxRetries.None? || n <= maxRetries.value {
        PutOffExplained(options, maxRetries, lists.failures, history, counts, answers, j);
        answers := answered;
        if j !in retryJobs {
          retryJobs := retryJobs + [j];
        }
        sched := next;
      } else {
        OutOfRetriesExplained(options, maxRetries, lists.failures, history, counts, answers, j);
        RecordFailure(j, OutOfRetries, next, answered, counts);
      }
    }

    /** What the outcome of a fetch does to the job that has just been taken out of inflight_futures. */
    method Settle(i: nat, j: Job, outcome: FetchOutcome)
      requires Books() && Accounted() && j in jobs && j !in history.succeeded && j !in sched.refused
      requires j !in retryJobs
      requires submitted <= |jobs| && i < |sched.inflight| && j == sched.inflight[i]
      requires inflight == Scheduler.Without(sched.inflight, i)
      requires sched.unsubmitted == jobs[submitted..] && sched.waiting == retryJobs
      requires sched.succeeded == history.succeeded && sched.late == history.late && sched.counts == retryCounts
      modifies this`lists, this`history, this`retryCounts, this`retryJobs, this`sched, this`answers
      ensures Books() && Linked() && Accounted() && answers == Answer(old(answers), j, outcome)
      ensures sched == Scheduler.Next(old(sched), EventOf(i, outcome), maxRetries)
      ensures history.payloads == if outcome.Fetched? then old(history.payloads)[j := outcome.response]
                                  else old(history.payloads)
      ensures retryJobs == old(retryJobs) || (outcome.TimedOut? && retryJobs == old(retryJobs) + [j])
      ensures sched.taken == old(sched.taken)
    {
      hide BooksOk, Explained, Explains, Answer, EndsWith, SameButFor;
      NotFailedYet(jobs, options, client.sources, lists, history, sched.refused, j);
      AnswerIsLast(answers, j, outcome);
      LastAnswer(options, maxRetries, lists.failures, history, retryCounts, answers, j, outcome);
      match outcome {
        case Fetched(response) =>
          RecordFetched(i, j, response);
        case TimedOut =>
          PutOffOrGiveUp(i, j);
        case Raised(message) =>
          ErrorExplains(options, maxRetries, AnswersOf(Answer(answers, j, outcome), j), message);
          RecordFailure(j, ErrorProcessing(message), Scheduler.Next(sched, Scheduler.Fail(i), maxRetries),
                        Answer(answers, j, outcome), retryCounts);
      }
    }

    /** The handling of one completed future, inside the "for future in done" loop. */
    method FinishOne(i: nat)
      requires Inv() && i < |inflight|
      modifies this, client
      ensures Inv() && |inflight| == |old(inflight)| - 1
      ensures Advanced(old(client.states), client.states)
      ensures maxRetries.Some? ==> Work() < old(Work())
      ensures sched.taken == old(sched.taken) && strayFetches == old(strayFetches) && slices == old(slices)
      ensures submitted == old(submitted)
    {
      hide Scheduler.Inv, BooksOk, Explained, Scheduler.Work, Scheduler.Next, Scheduler.Enabled, Scheduler.Finishes,
           Continues, Answer, AnswersOf, Advanced;
      InflightAlone(i);
      var j := inflight[i];
      ghost var was := sched;
      var outcome := Collect(i);
      Settle(i, j, outcome);
      EventFinishes(was, i, outcome);
      Scheduler.StepKeepsInv(jobs, was, EventOf(i, outcome), maxRetries);
      if maxRetries.Some? { Scheduler.FinishWork(jobs, was, EventOf(i, outcome), maxRetries); }
    }

    /** inflight_futures.pop and future.result() */
    method Collect(i: nat) returns (outcome: FetchOutcome)
      requires ClientAgrees() && i < |inflight|
      requires inflight[i] !in retryJobs && inflight[i] !in Scheduler.Without(inflight, i)
      modifies this`inflight, this`strayFetches, client
      ensures inflight == Scheduler.Without(old(inflight), i) && strayFetches == old(strayFetches)
      ensures Advanced(old(client.states), client.states)
      ensures forall k :: k in retryJobs || k in inflight ==> client.IsSubmitted(k)
      ensures outcome.TimedOut? ==> client.IsSubmitted(old(inflight[i]))
      ensures Continues(before, Answer(answers, old(inflight[i]), outcome), client.answers)
    {
      hide Continues, Answer, Advanced, Tells;
      var j := inflight[i];
      strayFetches := strayFetches + if client.IsSubmitted(j) then 0 else 1;
      inflight := inflight[..i] + inflight[i + 1..];
      assert forall k :: k in inflight ==> k in old(inflight) && k != j;
      ghost var told := client.answers;
      ghost var reply;
      outcome, reply := client.FetchJobResult(j);
      AnswerContinues(before, answers, told, j, outcome);
    }

    lemma EventFinishes(s: Scheduler.Sched, i: nat, outcome: FetchOutcome)
      requires i < |s.inflight|
      ensures Scheduler.Enabled(s, EventOf(i, outcome)) && Scheduler.Finishes(EventOf(i, outcome))
    {
    }

    /** One job taken into this turn is recorded as failed before any fetch of it was started. */
    method RefuseOne(j: Job, ghost k: nat)
      requires Inv() && k < |sched.taken| && sched.taken[k] == j
      modifies this`lists, this`history, this`retryCounts, this`sched, this`answers
      ensures Inv() && sched.taken == Scheduler.Without(old(sched.taken), k)
      ensures sched.refused == old(sched.refused) + [j]
      ensures maxRetries.Some? ==> Work() < old(Work())
    {
      hide Scheduler.Inv, BooksOk, Explained, Scheduler.Work;
      ghost var was, event := sched, Scheduler.Refuse(k);
      TakenIsJob(k);
      NotFailedYet(jobs, options, client.sources, lists, history, sched.refused, j);
      NotStartedExplains(options, maxRetries, lists.failures, history, retryCounts, answers, j);
      RecordFailure(j, NotStarted, Scheduler.Next(sched, event, maxRetries), answers, retryCounts);
      Scheduler.StepKeepsInv(jobs, was, event, maxRetries);
      if maxRetries.Some? { Scheduler.RefuseWork(jobs, was, k, maxRetries); }
    }

    lemma TakenIsJob(k: nat)
      requires Scheduler.Inv(jobs, sched, maxRetries) && k < |sched.taken|
      ensures sched.taken[k] in jobs && sched.taken[k] in sched.fetches
      ensures sched.taken[k] !in sched.succeeded && sched.taken[k] !in sched.refused
    {
      Scheduler.Member(jobs, sched, sched.taken[k]);
      assert Scheduler.Occurrences(sched.taken, sched.taken[k]) > 0;
      Scheduler.Alone(jobs, sched, sched.taken[k]);
    }

    /** The next n unsubmitted jobs join the turn. */
    method TakeNew(n: nat) returns (newJobs: seq<Job>)
      requires Inv() && Submissions() && n <= |jobs| - submitted
      modifies this`submitted, this`sched, this`slices
      ensures Inv() && Submissions() && submitted == old(submitted) + n && newJobs == jobs[old(submitted)..submitted]
      ensures sched.taken == old(sched.taken) + newJobs && sched.refused == old(sched.refused) && Work() == old(Work())
      ensures slices == if hasQueue then old(slices) + [newJobs] else old(slices)
    {
      hide Scheduler.Inv, BooksOk, Explained, Scheduler.Work;
      ghost var was := sched;
      newJobs := jobs[submitted..submitted + n];
      assert newJobs == was.unsubmitted[..n] && was.unsubmitted[n..] == jobs[submitted + n..];
      Scheduler.TakeNewMany(jobs, was, n, maxRetries);
      sched := was.(unsubmitted := was.unsubmitted[n..], taken := was.taken + was.unsubmitted[..n]);
      assert jobs[..submitted + n] == jobs[..submitted] + newJobs;
      FlattenAppend(slices, newJobs);
      submitted := submitted + n;
      if hasQueue {
        slices := slices + [newJobs];
      }
    }

    /** Step 2 of a turn: the next n unsubmitted jobs are submitted and join the turn, or all of them fail. */
    method SubmitNew(n: nat) returns (newJobs: seq<Job>, raised: bool)
      requires Inv() && Submissions() && 0 < n <= |jobs| - submitted
      modifies this`submitted, this`lists, this`history, this`retryCounts, this`sched, this`answers, this`slices, client
      ensures Inv() && Submissions() && Advanced(old(client.states), client.states)
      ensures raised ==> failOnSubmitError
      ensures submitted == old(submitted) + n && (newJobs == [] || newJobs == jobs[old(submitted)..submitted])
      ensures sched.taken == old(sched.taken) + newJobs
      ensures if newJobs == [] then |sched.refused| > |old(sched.refused)| else sched.refused == old(sched.refused)
      ensures maxRetries.Some? ==> Work() <= old(Work()) && (newJobs == [] ==> Work() < old(Work()))
    {
      hide Scheduler.Inv, BooksOk, Explained, Scheduler.Work;
      ghost var taken := sched.taken;
      newJobs := TakeNew(n);
      var refused := true;
      if hasQueue {
        refused := client.SubmitJobAsync(newJobs);
      }
      if refused {
        RefuseNew(newJobs, taken);
        newJobs := [];
      }
      raised := refused && failOnSubmitError;
    }

    /** The loop that fails every job of a refused submission. */
    method RefuseNew(newJobs: seq<Job>, ghost taken: seq<Job>)
      requires Inv() && sched.taken == taken + newJobs && newJobs != []
      modifies this`lists, this`history, this`retryCounts, this`sched, this`answers
      ensures Inv() && sched.taken == taken && |sched.refused| == |old(sched.refused)| + |newJobs|
      ensures maxRetries.Some? ==> Work() < old(Work())
    {
      hide Scheduler.Inv, BooksOk, Explained, Scheduler.Work;
      var i := 0;
      while i < |newJobs|
        invariant 0 <= i <= |newJobs|
        invariant Inv() && sched.taken == taken + newJobs[i..] && |sched.refused| == |old(sched.refused)| + i
        invariant maxRetries.Some? ==> Work() <= old(Work()) && (i > 0 ==> Work() < old(Work()))
      {
        RefuseOne(newJobs[i], |taken|);
        assert Scheduler.Without(taken + newJobs[i..], |taken|) == taken + newJobs[i + 1..];
        i := i + 1;
      }
    }

    /** Step 3 of a turn: a fetch is started for every job of the turn, or all of them fail. */
    method LaunchFetches(toFetch: seq<Job>) returns (raised: bool)
      requires Inv() && sched.taken == toFetch && toFetch != []
      modifies this`inflight, this`lists, this`history, this`retryCounts, this`sched, this`answers, client
      ensures Inv() && Advanced(old(client.states), client.states) && sched.taken == []
      ensures raised ==> failOnSubmitError
      ensures maxRetries.Some? ==> Work() <= old(Work()) && (inflight == old(inflight) ==> Work() < old(Work()))
      ensures if inflight == old(inflight) then |sched.refused| > |old(sched.refused)|
              else !raised && inflight == old(inflight) + toFetch && sched.refused == old(sched.refused)
    {
      var refused := client.FetchJobResultAsync(toFetch);
      assert ClientAgrees();
      if refused {
        assert [] + toFetch == toFetch;
        RefuseNew(toFetch, []);
        return failOnSubmitError;
      }
      Launch(toFetch);
      raised := false;
    }

    /** inflight_futures.update(new_futures) */
    method Launch(toFetch: seq<Job>)
      requires Inv() && sched.taken == toFetch
      requires forall j :: j in toFetch ==> client.IsSubmitted(j)
      modifies this`inflight, this`sched
      ensures Inv() && sched.taken == [] && inflight == old(inflight) + toFetch && sched.refused == old(sched.refused)
      ensures Work() == old(Work())
    {
      hide Scheduler.Inv, BooksOk, Explained, Scheduler.Work;
      var i := 0;
      while i < |toFetch|
        invariant 0 <= i <= |toFetch|
        invariant Inv() && sched.taken == toFetch[i..] && inflight == old(inflight) + toFetch[..i]
        invariant sched.refused == old(sched.refused) && Work() == old(Work())
      {
        ghost var was := sched;
        TakenIsJob(0);
        inflight := inflight + [toFetch[i]];
        sched := Scheduler.Next(was, Scheduler.Launch, maxRetries);
        Scheduler.StepKeepsInv(jobs, was, Scheduler.Launch, maxRetries);
        Scheduler.TakenWork(jobs, was, Scheduler.Launch, maxRetries);
        i := i + 1;
      }
    }

    /** Step 1 of a turn: the first waiting jobs join the turn. */
    method TakeRetries(n: nat) returns (retryNow: seq<Job>)
      requires Inv() && n <= |retryJobs| && sched.taken == []
      modifies this`retryJobs, this`sched
      ensures Inv() && retryNow == old(retryJobs[..n]) && retryJobs == old(retryJobs[n..])
      ensures sched.taken == retryNow && sched.refused == old(sched.refused) && Work() == old(Work())
    {
      hide Scheduler.Inv, BooksOk, Explained, Scheduler.Work;
      ghost var was := sched;
      retryNow := retryJobs[..n];
      retryJobs := retryJobs[n..];
      Scheduler.TakeWaitingMany(jobs, was, n, maxRetries);
      assert was.taken + was.waiting[..n] == retryNow;
      sched := was.(waiting := was.waiting[n..], taken := was.taken + was.waiting[..n]);
    }

    /** Step 5 of a turn: some in-flight futures, at least one, have completed and are handled in any order. */
    method ProcessDone()
      requires Inv() && inflight != [] && sched.taken == []
      modifies this, client
      ensures Inv() && sched.taken == [] && |inflight| < |old(inflight)|
      ensures Advanced(old(client.states), client.states)
      ensures maxRetries.Some? ==> Work() < old(Work())
      ensures strayFetches == old(strayFetches) && slices == old(slices) && submitted == old(submitted)
    {
      hide Scheduler.Inv, BooksOk, Explained, Scheduler.Work;
      var completed: nat :| 1 <= completed <= |inflight|;
      var k := 0;
      while k < completed
        invariant 0 <= k <= completed && |inflight| == |old(inflight)| - k
        invariant Inv() && sched.taken == [] && Advanced(old(client.states), client.states)
        invariant maxRetries.Some? ==> Work() <= old(Work()) - k
        invariant strayFetches == old(strayFetches) && slices == old(slices) && submitted == old(submitted)
      {
        ghost var states := client.states;
        var i: nat :| i < |inflight|;
        FinishOne(i);
        AdvancedTransitive(old(client.states), states, client.states);
        k := k + 1;
      }
    }

    /** The jobs that are in flight or could be. */
    ghost function Open(): nat
      requires submitted <= |jobs|
      reads this
    {
      |inflight| + |retryJobs| + (|jobs| - submitted)
    }

    /** Steps 1 and 2 of a turn: retries first, then new jobs, as many as there is room for. */
    method TakeJobs() returns (toFetch: seq<Job>, raised: bool)
      requires Inv() && Submissions() && Bounded() && sched.taken == []
      modifies this, client
      ensures Inv() && Submissions() && Advanced(old(client.states), client.states) && inflight == old(inflight)
      ensures raised ==> failOnSubmitError
      ensures sched.taken == toFetch && |inflight| + |toFetch| <= Max(batchSize, |inflight|)
      ensures maxRetries.Some? ==>
        Work() <= old(Work()) && (sched.refused != old(sched.refused) ==> Work() < old(Work()))
      ensures sched.refused == old(sched.refused) ==>
        |inflight| + |toFetch| == Max(|inflight|, Min(batchSize, old(Open())))
      ensures submitted > old(submitted) ==> retryJobs == []
      ensures batchSize < 1 ==> !raised && submitted == old(submitted) && retryJobs == old(retryJobs)
      ensures strayFetches == old(strayFetches) && |sched.refused| >= |old(sched.refused)|
    {
      hide Scheduler.Inv, BooksOk, Explained, Scheduler.Work;
      var capacity := Max(0, batchSize - |inflight|);
      toFetch, raised := [], false;
      if capacity > 0 && retryJobs != [] {
        toFetch := TakeRetries(Min(capacity, |retryJobs|));
        capacity := capacity - |toFetch|;
      }
      if capacity > 0 && submitted < |jobs| {
        var newJobs;
        newJobs, raised := SubmitNew(Min(capacity, |jobs| - submitted));
        toFetch := toFetch + newJobs;
      }
    }

    /**
     Steps 1 to 3 of a turn. Unless some submission or fetch is refused, no place stays empty while a job waits for
     one; and retries go first, as new jobs are submitted only when no retry is left waiting.
     */
    method Fill() returns (raised: bool)
      requires Inv() && Submissions() && Bounded() && sched.taken == []
      modifies this, client
      ensures Inv() && Submissions() && Bounded() && Advanced(old(client.states), client.states)
      ensures raised ==> failOnSubmitError
      ensures !raised ==> sched.taken == []
      ensures maxRetries.Some? ==>
        Work() <= old(Work()) && (sched.refused != old(sched.refused) ==> Work() < old(Work()))
      ensures !raised && batchSize >= 1 && sched.refused == old(sched.refused) ==>
        |inflight| == Min(batchSize, old(Open()))
      ensures submitted > old(submitted) ==> retryJobs == []
      ensures batchSize < 1 ==>
        !raised && submitted == old(submitted) && retryJobs == old(retryJobs) && inflight == old(inflight)
      ensures strayFetches == old(strayFetches)
    {
      hide Scheduler.Inv, BooksOk, Explained, Scheduler.Work;
      ghost var states := client.states;
      var toFetch;
      toFetch, raised := TakeJobs();
      if !raised && toFetch != [] {
        ghost var between := client.states;
        raised := LaunchFetches(toFetch);
        AdvancedTransitive(states, between, client.states);
      }
    }

    /** One turn of the while loop of run. */
    method Turn() returns (raised: bool)
      requires Inv() && Submissions() && Bounded() && sched.taken == [] && Pending()
      modifies this, client
      ensures Inv() && Submissions() && Bounded() && Advanced(old(client.states), client.states)
      ensures raised ==> failOnSubmitError
      ensures !raised ==> sched.taken == []
      ensures !raised && maxRetries.Some? && batchSize >= 1 ==> Work() < old(Work())
      ensures batchSize < 1 ==> !raised && submitted == old(submitted) && retryJobs == old(retryJobs)
      ensures strayFetches == old(strayFetches)
    {
      hide Scheduler.Inv, BooksOk, Explained, Scheduler.Work;
      ghost var states := client.states;
      raised := Fill();
      if raised { return; }
      if inflight != [] {
        ghost var between := client.states;
        ProcessDone();
        AdvancedTransitive(states, between, client.states);
      }
    }

    /**
     run, followed for at most the given number of turns.  A normal return has recorded every job once, except
     that each late fault has added one failure for a job that already had its result.
     */
    method Run(turns: nat) returns (end: End)
      requires Inv() && sched == Scheduler.Initial(jobs) && slices == [] && strayFetches == 0 && answers == map[]
      modifies this, client
      ensures Inv() && Submissions() && strayFetches == 0 && Advanced(old(client.states), client.states)
      ensures end.Returned? ==>
          && multiset(jobs) == multiset(history.succeeded) + multiset(sched.refused)
          && multiset(history.failed) == multiset(sched.refused) + multiset(history.late)
          && Faithful(options, client.sources, lists, history)
          && (hasQueue ==> Flatten(slices) == jobs)
          && |lists.results| + |lists.failures| == |jobs| + |history.late|
      ensures Explained(options, maxRetries, lists.failures, history, retryCounts, answers)
      ensures end.RaisedError? ==> failOnSubmitError
      ensures maxRetries.Some? && batchSize >= 1 && turns >= |jobs| * (Scheduler.Cap(maxRetries) + 1) ==>
        !end.StillRunning?
      ensures batchSize < 1 && jobs != [] ==> end.StillRunning?
      ensures maxRetries.Some? ==> forall j :: j in jobs ==>
        j in sched.fetches && sched.fetches[j] <= Scheduler.Cap(maxRetries) + 1
    {
      hide Scheduler.Inv, BooksOk, Scheduler.Work, Faithful;
      var left := turns;
      Scheduler.WorkInitial(jobs, Scheduler.Cap(maxRetries));
      end := StillRunning;
      while left > 0 && Pending()
        invariant 0 <= left <= turns
        invariant Inv() && Submissions() && Bounded() && sched.taken == [] && strayFetches == 0
        invariant Advanced(old(client.states), client.states)
        invariant maxRetries.Some? && batchSize >= 1 ==>
          Work() <= |jobs| * (Scheduler.Cap(maxRetries) + 1) - (turns - left)
        invariant batchSize < 1 ==> submitted == 0 && retryJobs == []
        decreases left
      {
        ghost var states := client.states;
        var raised := Turn();
        AdvancedTransitive(old(client.states), states, client.states);
        if raised {
          end := RaisedError;
          break;
        }
        left := left - 1;
      }
      FetchBound();
      if end.StillRunning? && !Pending() {
        end := Returned;
        Settled();
      } else if end.StillRunning? && maxRetries.Some? && batchSize >= 1 {
        Scheduler.WorkCoversPending(jobs, sched, maxRetries);
      }
    }

    lemma FetchBound()
      requires Scheduler.Inv(jobs, sched, maxRetries)
      ensures maxRetries.Some? ==> forall j :: j in jobs ==>
        j in sched.fetches && sched.fetches[j] <= Scheduler.Cap(maxRetries) + 1
    {
      forall j | j in jobs && maxRetries.Some?
        ensures j in sched.fetches && sched.fetches[j] <= Scheduler.Cap(maxRetries) + 1
      {
        assert Scheduler.BudgetOf(sched, maxRetries, j);
      }
    }

    /** With nothing pending, the lists account for every job. */
    lemma Settled()
      requires Inv() && sched.taken == [] && !Pending()
      ensures multiset(jobs) == multiset(history.succeeded) + multiset(sched.refused)
      ensures multiset(history.failed) == multiset(sched.refused) + multiset(history.late)
      ensures Faithful(options, client.sources, lists, history)
      ensures |lists.results| + |lists.failures| == |jobs| + |history.late|
    {
      Scheduler.Drained(jobs, sched, maxRetries);
      assert |multiset(history.failed)| == |history.failed|;
      assert |multiset(sched.refused) + multiset(sched.late)| == |sched.refused| + |sched.late|;
    }
  }

  /** _validate_batch_size: the requested size, else the one of the environment, else 32; 32 for anything below 1. */
  function ValidateBatchSize(requested: Option<int>, environment: Option<int>): (size: int)
    ensures size >= 1
    ensures requested.Some? && requested.value >= 1 ==> size == requested.value
    ensures requested.None? && environment.Some? && environment.value >= 1 ==> size == environment.value
    ensures size != 32 ==> requested == Some(size) || (requested.None? && environment == Some(size))
  {
    var wanted := if requested.Some? then requested.value else if environment.Some? then environment.value else 32;
    if wanted < 1 then 32 else wanted
  }

  /** process_jobs_concurrently, followed for at most the given number of turns. */
  method ProcessJobsConcurrently(client: NvIngestClient, jobs: seq<Job>, hasQueue: bool, batchSize: Option<int>,
                                 environment: Option<int>, maxRetries: Option<int>, failOnSubmitError: bool,
                                 options: Options, turns: nat)
    returns (end: End, lists: Ledger, ghost h: History, ghost answers: Answers)
    requires Distinct(jobs)
    requires forall j :: j in jobs ==> j in client.sources && ':' !in j
    modifies client
    ensures Advanced(old(client.states), client.states)
    ensures end.Returned? ==>
        && Faithful(options, client.sources, lists, h)
        && (forall j :: j in jobs <==> j in h.succeeded || j in h.failed)
        && (forall j :: j in h.succeeded && j in h.failed <==> j in h.succeeded && LateFault(options, h.payloads[j]))
        && |lists.results| + |lists.failures| == |jobs| + |h.late|
    ensures exists counts :: Explained(options, maxRetries, lists.failures, h, counts, answers)
    ensures Continues(old(client.answers), answers, client.answers)
    ensures end.RaisedError? ==> failOnSubmitError
    ensures maxRetries.Some? && turns >= |jobs| * (Scheduler.Cap(maxRetries) + 1) ==> !end.StillRunning?
  {
    hide Explained, Faithful, Scheduler.Inv, BooksOk;
    if jobs == [] {
      NothingToExplain(options, maxRetries);
      NothingRecorded(options, client.sources);
      return Returned, Ledger([], [], [], []), History([], [], [], [], [], map[]), map[];
    }
    var p := new Processor(client, jobs, hasQueue, ValidateBatchSize(batchSize, environment), maxRetries,
                           failOnSubmitError, options);
    end := p.Run(turns);
    lists, h, answers := p.lists, p.history, p.answers;
    if end.Returned? {
      EachJobOnce(jobs, options, client.sources, lists, h, p.sched.refused);
    }
  }

  /**
   The recorded jobs are the given ones; a job has both a result and a failure just when its result was a late fault.
   */
  lemma EachJobOnce(jobs: seq<Job>, o: Options, sources: map<Job, string>, l: Ledger, h: History, refused: seq<Job>)
    requires Distinct(jobs) && Faithful(o, sources, l, h)
    requires multiset(jobs) == multiset(h.succeeded) + multiset(refused)
    requires multiset(h.failed) == multiset(refused) + multiset(h.late)
    ensures forall j :: j in jobs <==> j in h.succeeded || j in h.failed
    ensures forall j :: j in h.succeeded ==> j in h.payloads
    ensures forall j :: j in h.succeeded && j in h.failed <==> j in h.succeeded && LateFault(o, h.payloads[j])
  {
    forall j | j in h.succeeded
      ensures j in h.payloads
    {
      var i :| 0 <= i < |h.succeeded| && h.succeeded[i] == j;
    }
    forall j
      ensures j in jobs <==> j in h.succeeded || j in h.failed
      ensures j in h.succeeded && j in h.failed <==> j in h.succeeded && LateFault(o, h.payloads[j])
    {
      DistinctCount(jobs, j);
      assert j in jobs <==> multiset(jobs)[j] > 0;
      assert j in h.failed <==> multiset(h.failed)[j] > 0;
      assert multiset(h.failed)[j] == multiset(refused)[j] + multiset(h.late)[j];
      assert multiset(jobs)[j] == multiset(h.succeeded)[j] + multiset(refused)[j];
    }
  }
}
