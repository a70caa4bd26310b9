/**
 The job life cycle behind _ConcurrentProcessor.run (client.py), on values: every job is unsubmitted,
 waiting for a retry, taken into the current turn, in flight, or recorded; events move jobs one at a time.
 */
module Scheduler {
  import opened Sequences
  import opened ClientJobs

  /**
   late holds the jobs recorded as a success and then, because handling the success raised afterwards, as a
   failure too; refused holds the other failures.  counts is retry_counts, fetches the fetches launched.
   */
  datatype Sched = Sched(unsubmitted: seq<Job>, waiting: seq<Job>, taken: seq<Job>, inflight: seq<Job>,
                         succeeded: seq<Job>, refused: seq<Job>, late: seq<Job>,
                         counts: map<Job, int>, fetches: map<Job, nat>)

  datatype Event =
    | TakeWaiting                 // the first waiting job joins this turn
    | TakeNew                     // the first unsubmitted job joins this turn
    | Refuse(i: nat)              // the i-th taken job is recorded as failed before any fetch
    | Launch                      // a fetch is started for the first taken job
    | Succeed(i: nat)             // the i-th in-flight job finishes, with a result
    | SucceedThenRaise(i: nat)    // ... with a result whose handling raises after recording it
    | Fail(i: nat)                // ... with an error or a failed result
    | NotReady(i: nat)            // ... with "not ready": retried, or failed when out of retries

  function Count(counts: map<Job, int>, j: Job): int {
    if j in counts then counts[j] else 0
  }

  predicate Enabled(s: Sched, e: Event) {
    match e
    case TakeWaiting => s.waiting != []
    case TakeNew => s.unsubmitted != []
    case Refuse(i) => i < |s.taken|
    case Launch => s.taken != [] && s.taken[0] in s.fetches
    case Succeed(i) => i < |s.inflight|
    case SucceedThenRaise(i) => i < |s.inflight|
    case Fail(i) => i < |s.inflight|
    case NotReady(i) => i < |s.inflight|
  }

  function Without(s: seq<Job>, i: nat): seq<Job>
    requires i < |s|
  {
    s[..i] + s[i + 1..]
  }

  function Next(s: Sched, e: Event, maxRetries: Option<int>): Sched
    requires Enabled(s, e)
  {
    match e
    case TakeWaiting => s.(waiting := s.waiting[1..], taken := s.taken + [s.waiting[0]])
    case TakeNew => s.(unsubmitted := s.unsubmitted[1..], taken := s.taken + [s.unsubmitted[0]])
    case Refuse(i) =>
      s.(taken := Without(s.taken, i), refused := s.refused + [s.taken[i]], counts := s.counts - {s.taken[i]})
    case Launch =>
      var j := s.taken[0];
      s.(taken := s.taken[1..], inflight := s.inflight + [j], fetches := s.fetches[j := s.fetches[j] + 1])
    case Succeed(i) =>
      s.(inflight := Without(s.inflight, i), succeeded := s.succeeded + [s.inflight[i]],
         counts := s.counts - {s.inflight[i]})
    case SucceedThenRaise(i) =>
      s.(inflight := Without(s.inflight, i), succeeded := s.succeeded + [s.inflight[i]],
         late := s.late + [s.inflight[i]],
         counts := s.counts - {s.inflight[i]})
    case Fail(i) =>
      s.(inflight := Without(s.inflight, i), refused := s.refused + [s.inflight[i]],
         counts := s.counts - {s.inflight[i]})
    case NotReady(i) =>
      var j := s.inflight[i];
      var n := Count(s.counts, j) + 1;
      if maxRetries.None? || n <= maxRetries.value then
        s.(inflight := Without(s.inflight, i), waiting := s.waiting + [j], counts := s.counts[j := n])
      else
        s.(inflight := Without(s.inflight, i), refused := s.refused + [j], counts := s.counts - {j})
  }

  /** Every job of the list is in exactly one place, exactly once. */
  ghost predicate Partition(jobs: seq<Job>, s: Sched) {
    forall j :: Places(s, j) == Occurrences(jobs, j)
  }

  ghost function Occurrences(s: seq<Job>, j: Job): nat {
    multiset(s)[j]
  }

  /** In how many places a job is. */
  ghost function Places(s: Sched, j: Job): nat {
    Occurrences(s.unsubmitted, j) + Occurrences(s.waiting, j) + Occurrences(s.taken, j) + Occurrences(s.inflight, j)
    + Occurrences(s.succeeded, j) + Occurrences(s.refused, j)
  }

  function Cap(maxRetries: Option<int>): nat {
    if maxRetries.Some? && maxRetries.value > 0 then maxRetries.value else 0
  }

  ghost predicate Done(s: Sched, j: Job) {
    j in s.succeeded || j in s.refused
  }

  /** A job that is not recorded yet has had one fetch for each counted retry, and one more while in flight. */
  ghost predicate BudgetOf(s: Sched, maxRetries: Option<int>, j: Job) {
    && (j in s.fetches && !Done(s, j) ==> s.fetches[j] == Count(s.counts, j) + if j in s.inflight then 1 else 0)
    && (j in s.unsubmitted ==> j !in s.counts)
    && (j in s.counts ==> s.counts[j] >= 0)
    && (maxRetries.Some? && j in s.fetches ==>
          s.fetches[j] <= Cap(maxRetries) + 1 && Count(s.counts, j) <= Cap(maxRetries))
  }

  ghost predicate Budget(s: Sched, maxRetries: Option<int>) {
    forall j :: BudgetOf(s, maxRetries, j)
  }

  ghost predicate Inv(jobs: seq<Job>, s: Sched, maxRetries: Option<int>) {
    && Distinct(jobs) && s.fetches.Keys == SetOf(jobs)
    && Partition(jobs, s)
    && (forall j :: Occurrences(s.late, j) <= Occurrences(s.succeeded, j))
    && Budget(s, maxRetries)
  }

  function Initial(jobs: seq<Job>): Sched {
    Sched(jobs, [], [], [], [], [], [], map[], map j | j in jobs :: 0)
  }

  /** The fetches that the jobs of s may still use up, when each may be tried cap + 1 times. */
  ghost function Remaining(s: seq<Job>, counts: map<Job, int>, cap: nat): int {
    if s == [] then 0
    else Remaining(s[1..], counts, cap) + cap + 1 - Count(counts, s[0])
  }

  ghost function Work(s: Sched, cap: nat): int {
    |s.unsubmitted| * (cap + 1) + Remaining(s.waiting, s.counts, cap) + Remaining(s.taken, s.counts, cap)
    + Remaining(s.inflight, s.counts, cap)
  }

  // --- each job has one place -------------------------------------------------------------------

  lemma Member(jobs: seq<Job>, s: Sched, j: Job)
    requires Partition(jobs, s)
    ensures j in s.unsubmitted || j in s.waiting || j in s.taken || j in s.inflight || Done(s, j) <==> j in jobs
  {
    assert Places(s, j) == Occurrences(jobs, j);
    assert j in jobs <==> Occurrences(jobs, j) > 0;
  }

  /** A job found in one place is in no other, and there only once. */
  lemma Alone(jobs: seq<Job>, s: Sched, j: Job)
    requires Distinct(jobs) && Partition(jobs, s)
    ensures Places(s, j) <= 1
  {
    DistinctCount(jobs, j);
    assert Places(s, j) == Occurrences(jobs, j);
  }

  lemma WithoutCount(s: seq<Job>, i: nat, j: Job)
    requires i < |s|
    ensures Occurrences(s, j) == Occurrences(Without(s, i), j) + if j == s[i] then 1 else 0
  {
    RemoveAt(s, i);
    assert multiset(s) == multiset(Without(s, i)) + multiset{s[i]};
  }

  lemma HeadCount(s: seq<Job>, j: Job)
    requires s != []
    ensures Occurrences(s, j) == Occurrences(s[1..], j) + if j == s[0] then 1 else 0
  {
    assert s == [s[0]] + s[1..];
  }

  lemma AppendCount(s: seq<Job>, x: Job, j: Job)
    ensures Occurrences(s + [x], j) == Occurrences(s, j) + if j == x then 1 else 0
  {
  }

  lemma StepKeepsPartition(jobs: seq<Job>, s: Sched, e: Event, maxRetries: Option<int>)
    requires Partition(jobs, s) && Enabled(s, e)
    ensures Partition(jobs, Next(s, e, maxRetries))
  {
    hide Occurrences, Without;
    var t := Next(s, e, maxRetries);
    forall j
      ensures Places(t, j) == Occurrences(jobs, j)
    {
      assert Places(s, j) == Occurrences(jobs, j);
      match e {
        case TakeWaiting => HeadCount(s.waiting, j); AppendCount(s.taken, s.waiting[0], j);
        case TakeNew => HeadCount(s.unsubmitted, j); AppendCount(s.taken, s.unsubmitted[0], j);
        case Refuse(i) => WithoutCount(s.taken, i, j); AppendCount(s.refused, s.taken[i], j);
        case Launch => HeadCount(s.taken, j); AppendCount(s.inflight, s.taken[0], j);
        case Succeed(i) => WithoutCount(s.inflight, i, j); AppendCount(s.succeeded, s.inflight[i], j);
        case SucceedThenRaise(i) => WithoutCount(s.inflight, i, j); AppendCount(s.succeeded, s.inflight[i], j);
        case Fail(i) => WithoutCount(s.inflight, i, j); AppendCount(s.refused, s.inflight[i], j);
        case NotReady(i) =>
          WithoutCount(s.inflight, i, j);
          AppendCount(s.refused, s.inflight[i], j);
          AppendCount(s.waiting, s.inflight[i], j);
      }
    }
  }

  lemma StepKeepsLate(s: Sched, e: Event, maxRetries: Option<int>, j: Job)
    requires Enabled(s, e) && Occurrences(s.late, j) <= Occurrences(s.succeeded, j)
    ensures Occurrences(Next(s, e, maxRetries).late, j) <= Occurrences(Next(s, e, maxRetries).succeeded, j)
  {
  }

  function Moved(s: Sched, e: Event): Job
    requires Enabled(s, e)
  {
    match e
    case TakeWaiting => s.waiting[0]
    case TakeNew => s.unsubmitted[0]
    case Refuse(i) => s.taken[i]
    case Launch => s.taken[0]
    case Succeed(i) => s.inflight[i]
    case SucceedThenRaise(i) => s.inflight[i]
    case Fail(i) => s.inflight[i]
    case NotReady(i) => s.inflight[i]
  }

  predicate Finishes(e: Event) {
    e.Succeed? || e.SucceedThenRaise? || e.Fail? || e.NotReady?
  }

  /** A step changes nothing about the jobs it does not move. */
  lemma StepKeepsOthers(s: Sched, e: Event, maxRetries: Option<int>, j: Job)
    requires Enabled(s, e) && j != Moved(s, e)
    ensures var t := Next(s, e, maxRetries);
            && Count(t.counts, j) == Count(s.counts, j) && (j in t.counts <==> j in s.counts)
            && (j in t.fetches <==> j in s.fetches) && (j in s.fetches ==> t.fetches[j] == s.fetches[j])
            && (j in t.inflight <==> j in s.inflight) && (j in t.unsubmitted ==> j in s.unsubmitted)
            && (Done(t, j) <==> Done(s, j))
  {
    if Finishes(e) {
      WithoutCount(s.inflight, e.i, j);
      assert j in s.inflight <==> Occurrences(s.inflight, j) > 0;
      assert j in Without(s.inflight, e.i) <==> Occurrences(Without(s.inflight, e.i), j) > 0;
    }
  }

  lemma StepKeepsBudget(jobs: seq<Job>, s: Sched, e: Event, maxRetries: Option<int>)
    requires Inv(jobs, s, maxRetries) && Enabled(s, e)
    ensures Budget(Next(s, e, maxRetries), maxRetries)
  {
    var m := Moved(s, e);
    var t := Next(s, e, maxRetries);
    forall j
      ensures BudgetOf(t, maxRetries, j)
    {
      assert BudgetOf(s, maxRetries, j);
      if j != m {
        StepKeepsOthers(s, e, maxRetries, j);
      } else if Finishes(e) {
        FinishKeepsMoved(jobs, s, e, maxRetries);
      } else {
        TakenKeepsMoved(jobs, s, e, maxRetries);
      }
    }
  }

  lemma TakenKeepsMoved(jobs: seq<Job>, s: Sched, e: Event, maxRetries: Option<int>)
    requires Inv(jobs, s, maxRetries) && Enabled(s, e) && !Finishes(e)
    ensures BudgetOf(Next(s, e, maxRetries), maxRetries, Moved(s, e))
  {
    var m := Moved(s, e);
    assert BudgetOf(s, maxRetries, m);
    Alone(jobs, s, m);
    StepKeepsPartition(jobs, s, e, maxRetries);
    Alone(jobs, Next(s, e, maxRetries), m);
  }

  lemma FinishKeepsMoved(jobs: seq<Job>, s: Sched, e: Event, maxRetries: Option<int>)
    requires Inv(jobs, s, maxRetries) && Enabled(s, e) && Finishes(e)
    ensures BudgetOf(Next(s, e, maxRetries), maxRetries, Moved(s, e))
  {
    var m := Moved(s, e);
    assert BudgetOf(s, maxRetries, m);
    Alone(jobs, s, m);
    StepKeepsPartition(jobs, s, e, maxRetries);
    Alone(jobs, Next(s, e, maxRetries), m);
    assert Occurrences(s.inflight, m) > 0;
  }

  lemma StepKeepsInv(jobs: seq<Job>, s: Sched, e: Event, maxRetries: Option<int>)
    requires Inv(jobs, s, maxRetries) && Enabled(s, e)
    ensures Inv(jobs, Next(s, e, maxRetries), maxRetries)
  {
    StepKeepsPartition(jobs, s, e, maxRetries);
    StepKeepsBudget(jobs, s, e, maxRetries);
    forall j {
      StepKeepsLate(s, e, maxRetries, j);
    }
    var t := Next(s, e, maxRetries);
    if e.Launch? {
      assert t.fetches.Keys == s.fetches.Keys + {s.taken[0]};
    }
  }

  // --- every run ends -----------------------------------------------------------------------------

  lemma {:induction false} RemainingConcat(a: seq<Job>, b: seq<Job>, counts: map<Job, int>, cap: nat)
    ensures Remaining(a + b, counts, cap) == Remaining(a, counts, cap) + Remaining(b, counts, cap)
  {
    if a == [] {
      assert a + b == b;
    } else {
      assert (a + b)[1..] == a[1..] + b;
      RemainingConcat(a[1..], b, counts, cap);
    }
  }

  lemma RemainingAppend(s: seq<Job>, j: Job, counts: map<Job, int>, cap: nat)
    ensures Remaining(s + [j], counts, cap) == Remaining(s, counts, cap) + cap + 1 - Count(counts, j)
  {
    RemainingConcat(s, [j], counts, cap);
    assert [j][1..] == [];
  }

  lemma RemainingWithout(s: seq<Job>, i: nat, counts: map<Job, int>, cap: nat)
    requires i < |s|
    ensures Remaining(s, counts, cap) == Remaining(Without(s, i), counts, cap) + cap + 1 - Count(counts, s[i])
  {
    assert s == s[..i] + s[i..];
    assert s[i..][1..] == s[i + 1..];
    RemainingConcat(s[..i], s[i..], counts, cap);
    RemainingConcat(s[..i], s[i + 1..], counts, cap);
  }

  lemma {:induction false} RemainingFrame(s: seq<Job>, counts: map<Job, int>, counts': map<Job, int>, cap: nat)
    requires forall j :: j in s ==> Count(counts, j) == Count(counts', j)
    ensures Remaining(s, counts, cap) == Remaining(s, counts', cap)
  {
    if s != [] {
      assert s[0] in s;
      RemainingFrame(s[1..], counts, counts', cap);
    }
  }

  lemma {:induction false} RemainingAtLeast(s: seq<Job>, counts: map<Job, int>, cap: nat)
    requires forall j :: j in s ==> Count(counts, j) <= cap
    ensures Remaining(s, counts, cap) >= |s|
  {
    if s != [] {
      assert s[0] in s;
      RemainingAtLeast(s[1..], counts, cap);
    }
  }

  /** Taking and launching keep the work; recording a job or counting a retry uses some up. */
  lemma TakenWork(jobs: seq<Job>, s: Sched, e: Event, maxRetries: Option<int>)
    requires Inv(jobs, s, maxRetries) && Enabled(s, e) && !Finishes(e) && !e.Refuse?
    ensures Work(Next(s, e, maxRetries), Cap(maxRetries)) == Work(s, Cap(maxRetries))
  {
    var m, cap, t := Moved(s, e), Cap(maxRetries), Next(s, e, maxRetries);
    assert BudgetOf(s, maxRetries, m);
    match e {
      case TakeWaiting => RemainingAppend(s.taken, m, s.counts, cap);
      case TakeNew =>
        RemainingAppend(s.taken, m, s.counts, cap);
        assert |s.unsubmitted| * (cap + 1) == |t.unsubmitted| * (cap + 1) + (cap + 1);
      case Launch => RemainingAppend(s.inflight, m, s.counts, cap);
    }
  }

  lemma RefuseWork(jobs: seq<Job>, s: Sched, i: nat, maxRetries: Option<int>)
    requires Inv(jobs, s, maxRetries) && i < |s.taken| && maxRetries.Some?
    ensures Work(Next(s, Refuse(i), maxRetries), Cap(maxRetries)) < Work(s, Cap(maxRetries))
  {
    var m, cap, t := s.taken[i], Cap(maxRetries), Next(s, Refuse(i), maxRetries);
    assert Occurrences(s.taken, m) > 0;
    Alone(jobs, s, m);
    Member(jobs, s, m);
    assert BudgetOf(s, maxRetries, m);
    WithoutCount(s.taken, i, m);
    assert m !in t.taken;
    RemainingWithout(s.taken, i, s.counts, cap);
    RemainingFrame(t.taken, t.counts, s.counts, cap);
    RemainingFrame(s.waiting, t.counts, s.counts, cap);
    RemainingFrame(s.inflight, t.counts, s.counts, cap);
  }

  lemma FinishWork(jobs: seq<Job>, s: Sched, e: Event, maxRetries: Option<int>)
    requires Inv(jobs, s, maxRetries) && Enabled(s, e) && Finishes(e) && maxRetries.Some?
    ensures Work(Next(s, e, maxRetries), Cap(maxRetries)) < Work(s, Cap(maxRetries))
  {
    var m, cap, t := Moved(s, e), Cap(maxRetries), Next(s, e, maxRetries);
    assert Occurrences(s.inflight, m) > 0;
    Alone(jobs, s, m);
    Member(jobs, s, m);
    assert BudgetOf(s, maxRetries, m);
    FinishFrames(s, e.i, t.counts, cap);
    if t.waiting != s.waiting {
      RemainingAppend(s.waiting, m, t.counts, cap);
    }
  }

  lemma FinishFrames(s: Sched, i: nat, counts: map<Job, int>, cap: nat)
    requires i < |s.inflight| && Places(s, s.inflight[i]) <= 1
    requires forall j :: j != s.inflight[i] ==> Count(counts, j) == Count(s.counts, j)
    ensures Remaining(s.inflight, s.counts, cap)
         == Remaining(Without(s.inflight, i), counts, cap) + cap + 1 - Count(s.counts, s.inflight[i])
    ensures Remaining(s.taken, s.counts, cap) == Remaining(s.taken, counts, cap)
    ensures Remaining(s.waiting, s.counts, cap) == Remaining(s.waiting, counts, cap)
  {
    var m := s.inflight[i];
    assert Occurrences(s.inflight, m) > 0;
    WithoutCount(s.inflight, i, m);
    assert m !in Without(s.inflight, i);
    RemainingWithout(s.inflight, i, s.counts, cap);
    RemainingFrame(Without(s.inflight, i), counts, s.counts, cap);
    RemainingFrame(s.taken, counts, s.counts, cap);
    RemainingFrame(s.waiting, counts, s.counts, cap);
  }

  /** With a finite number of retries, the work left is at least the number of jobs not recorded yet. */
  lemma WorkCoversPending(jobs: seq<Job>, s: Sched, maxRetries: Option<int>)
    requires Inv(jobs, s, maxRetries) && maxRetries.Some?
    ensures Work(s, Cap(maxRetries)) >= |s.unsubmitted| + |s.waiting| + |s.taken| + |s.inflight|
  {
    var cap := Cap(maxRetries);
    forall j | j in s.waiting || j in s.taken || j in s.inflight
      ensures Count(s.counts, j) <= cap
    {
      Member(jobs, s, j);
      assert BudgetOf(s, maxRetries, j);
    }
    RemainingAtLeast(s.waiting, s.counts, cap);
    RemainingAtLeast(s.taken, s.counts, cap);
    RemainingAtLeast(s.inflight, s.counts, cap);
    assert |s.unsubmitted| * (cap + 1) >= |s.unsubmitted|;
  }

  lemma WorkInitial(jobs: seq<Job>, cap: nat)
    ensures Work(Initial(jobs), cap) == |jobs| * (cap + 1)
  {
  }

  lemma InvInitial(jobs: seq<Job>, maxRetries: Option<int>)
    requires Distinct(jobs)
    ensures Inv(jobs, Initial(jobs), maxRetries)
  {
    var s := Initial(jobs);
    forall j
      ensures Places(s, j) == Occurrences(jobs, j) && BudgetOf(s, maxRetries, j)
    {
    }
  }

  /** t is reached from s by the events of es. */
  ghost predicate Reaches(s: Sched, es: seq<Event>, t: Sched, maxRetries: Option<int>)
    decreases |es|
  {
    if es == [] then s == t
    else Enabled(s, es[0]) && Reaches(Next(s, es[0], maxRetries), es[1..], t, maxRetries)
  }

  /** The events that record a job or count a retry. */
  function Progress(es: seq<Event>): nat {
    if es == [] then 0 else Progress(es[1..]) + if Finishes(es[0]) || es[0].Refuse? then 1 else 0
  }

  predicate Reports(e: Event) {
    e.Succeed? || e.SucceedThenRaise? || e.Fail? || e.NotReady? || e.Refuse?
  }

  /** The places of these events. */
  ghost function Reported(es: seq<Event>): set<nat> {
    set i: nat | i < |es| && Reports(es[i])
  }

  ghost function Shifted(places: set<nat>): set<nat> {
    set i: nat | i in places :: i + 1
  }

  /** These are counted one by one. */
  lemma {:induction false} ProgressCounts(es: seq<Event>)
    ensures Progress(es) == |Reported(es)|
  {
    if es == [] {
      assert Reported(es) == {};
    } else {
      ProgressCounts(es[1..]);
      ShiftedSize(Reported(es[1..]));
      forall i: nat
        ensures i in Reported(es) <==> i in Shifted(Reported(es[1..])) + if Reports(es[0]) then {0} else {}
      {
        if i > 0 {
          assert i - 1 in Reported(es[1..]) <==> i in Reported(es);
          assert i in Shifted(Reported(es[1..])) <==> i - 1 in Reported(es[1..]);
        }
      }
      assert Reported(es) == Shifted(Reported(es[1..])) + if Reports(es[0]) then {0} else {};
    }
  }

  lemma {:induction false} ShiftedSize(places: set<nat>)
    ensures |Shifted(places)| == |places|
  {
    if places != {} {
      var x :| x in places;
      var less := places - {x};
      forall i: nat
        ensures i in Shifted(places) <==> i in Shifted(less) + {x + 1}
      {
        assert i in Shifted(places) <==> i >= 1 && i - 1 in places;
        assert i in Shifted(less) <==> i >= 1 && i - 1 in less;
      }
      assert Shifted(places) == Shifted(less) + {x + 1} && x + 1 !in Shifted(less);
      ShiftedSize(less);
    }
  }

  /** Whatever the environment does, every reachable state keeps the invariant and uses up the work it reports. */
  lemma {:induction false} RunInvariant(jobs: seq<Job>, s: Sched, es: seq<Event>, t: Sched, maxRetries: Option<int>)
    requires Inv(jobs, s, maxRetries) && Reaches(s, es, t, maxRetries)
    ensures Inv(jobs, t, maxRetries)
    ensures maxRetries.Some? ==> Progress(es) + Work(t, Cap(maxRetries)) <= Work(s, Cap(maxRetries))
    decreases |es|
  {
    if es != [] {
      var e := es[0];
      StepKeepsInv(jobs, s, e, maxRetries);
      if Finishes(e) {
        if maxRetries.Some? { FinishWork(jobs, s, e, maxRetries); }
      } else if e.Refuse? {
        if maxRetries.Some? { RefuseWork(jobs, s, e.i, maxRetries); }
      } else {
        TakenWork(jobs, s, e, maxRetries);
      }
      RunInvariant(jobs, Next(s, e, maxRetries), es[1..], t, maxRetries);
    }
  }

  /**
   No run finishes futures and refuses jobs more than jobs * (retries + 1) times, or fetches a job more than retries + 1
   times.
   */
  lemma RunsAreBounded(jobs: seq<Job>, es: seq<Event>, t: Sched, maxRetries: Option<int>)
    requires Distinct(jobs) && maxRetries.Some? && Reaches(Initial(jobs), es, t, maxRetries)
    ensures |Reported(es)| <= |jobs| * (Cap(maxRetries) + 1)
    ensures forall j :: j in jobs ==> j in t.fetches && t.fetches[j] <= Cap(maxRetries) + 1
  {
    InvInitial(jobs, maxRetries);
    ProgressCounts(es);
    RunInvariant(jobs, Initial(jobs), es, t, maxRetries);
    WorkInitial(jobs, Cap(maxRetries));
    WorkCoversPending(jobs, t, maxRetries);
    forall j | j in jobs
      ensures j in t.fetches && t.fetches[j] <= Cap(maxRetries) + 1
    {
      assert BudgetOf(t, maxRetries, j);
    }
  }

  /** Along these events the job is never refused before a fetch, and no fetch of it brings anything but "not ready". */
  ghost predicate OnlyPutOff(s: Sched, es: seq<Event>, j: Job, maxRetries: Option<int>)
    decreases |es|
  {
    || es == []
    || (&& Enabled(s, es[0])
        && (Moved(s, es[0]) == j ==> !es[0].Refuse? && (Finishes(es[0]) ==> es[0].NotReady?))
        && OnlyPutOff(Next(s, es[0], maxRetries), es[1..], j, maxRetries))
  }

  /** How often a fetch of the job came back "not ready". */
  ghost function PutOffs(s: Sched, es: seq<Event>, j: Job, maxRetries: Option<int>): nat
    requires OnlyPutOff(s, es, j, maxRetries)
    decreases |es|
  {
    if es == [] then 0
    else
      PutOffs(Next(s, es[0], maxRetries), es[1..], j, maxRetries)
      + if Moved(s, es[0]) == j && es[0].NotReady? then 1 else 0
  }

  /** A job that is only put off is waiting again after each time, until the limit is used up. */
  lemma NotReadyRetries(jobs: seq<Job>, s: Sched, i: nat, maxRetries: Option<int>)
    requires Inv(jobs, s, maxRetries) && i < |s.inflight|
    ensures var j, t := s.inflight[i], Next(s, Event.NotReady(i), maxRetries);
            && j in jobs && s.fetches[j] >= 1 && !Done(s, j) && t.fetches == s.fetches
            && (j in t.waiting <==> maxRetries.None? || s.fetches[j] <= Cap(maxRetries))
            && (j in t.refused <==> maxRetries.Some? && s.fetches[j] == Cap(maxRetries) + 1) && j !in t.succeeded
            && s.fetches[j] == Count(s.counts, j) + 1
            && (j in t.waiting ==> Count(t.counts, j) == s.fetches[j])
  {
    var j := s.inflight[i];
    assert Occurrences(s.inflight, j) > 0;
    Alone(jobs, s, j);
    Member(jobs, s, j);
    assert BudgetOf(s, maxRetries, j);
  }

  lemma {:induction false} PutOffUpTo(jobs: seq<Job>, s: Sched, es: seq<Event>, t: Sched, j: Job,
                                      maxRetries: Option<int>)
    requires Inv(jobs, s, maxRetries) && Reaches(s, es, t, maxRetries) && j in jobs && j !in s.succeeded
    requires OnlyPutOff(s, es, j, maxRetries)
    ensures j !in t.succeeded && j in t.fetches
    ensures j in s.refused ==> j in t.refused && PutOffs(s, es, j, maxRetries) == 0
    ensures j !in s.refused ==>
      var n := Count(s.counts, j) + PutOffs(s, es, j, maxRetries);
      if j in t.refused then maxRetries.Some? && n == t.fetches[j] == Cap(maxRetries) + 1
      else maxRetries.Some? ==> n <= Cap(maxRetries)
    decreases |es|
  {
    assert BudgetOf(s, maxRetries, j);
    if es != [] {
      var e, s1 := es[0], Next(s, es[0], maxRetries);
      StepKeepsInv(jobs, s, e, maxRetries);
      PutOffStep(jobs, s, e, j, maxRetries);
      PutOffUpTo(jobs, s1, es[1..], t, j, maxRetries);
      if j in s1.refused && j !in s.refused { RefusedStays(jobs, s1, es[1..], t, j, maxRetries); }
    }
  }

  lemma PutOffStep(jobs: seq<Job>, s: Sched, e: Event, j: Job, maxRetries: Option<int>)
    requires Inv(jobs, s, maxRetries) && Enabled(s, e) && j in jobs && j !in s.succeeded
    requires Moved(s, e) == j ==> !e.Refuse? && (Finishes(e) ==> e.NotReady?)
    ensures var t := Next(s, e, maxRetries);
            && j !in t.succeeded && (j in s.refused ==> j in t.refused && Moved(s, e) != j)
            && (j !in s.refused ==>
                  var n := Count(s.counts, j) + if Moved(s, e) == j && e.NotReady? then 1 else 0;
                  if j in t.refused then maxRetries.Some? && n == t.fetches[j] == Cap(maxRetries) + 1
                  else Count(t.counts, j) == n)
  {
    Member(jobs, s, j);
    if j == Moved(s, e) {
      MovedIsPending(jobs, s, e);
      if e.NotReady? { NotReadyRetries(jobs, s, e.i, maxRetries); }
    } else {
      StepKeepsOthers(s, e, maxRetries, j);
      var t := Next(s, e, maxRetries);
      assert t.refused == s.refused || t.refused == s.refused + [Moved(s, e)];
      assert t.succeeded == s.succeeded || t.succeeded == s.succeeded + [Moved(s, e)];
    }
  }

  lemma MovedIsPending(jobs: seq<Job>, s: Sched, e: Event)
    requires Distinct(jobs) && Partition(jobs, s) && Enabled(s, e)
    ensures !Done(s, Moved(s, e))
  {
    var m := Moved(s, e);
    Alone(jobs, s, m);
    assert m in s.waiting || m in s.unsubmitted || m in s.taken || m in s.inflight;
  }

  /** A refused job is not fetched again. */
  lemma {:induction false} RefusedStays(jobs: seq<Job>, s: Sched, es: seq<Event>, t: Sched, j: Job,
                                        maxRetries: Option<int>)
    requires Inv(jobs, s, maxRetries) && Reaches(s, es, t, maxRetries) && j in s.refused && j in s.fetches
    ensures j in t.refused && j in t.fetches && t.fetches[j] == s.fetches[j]
    decreases |es|
  {
    if es != [] {
      StepKeepsInv(jobs, s, es[0], maxRetries);
      MovedIsPending(jobs, s, es[0]);
      StepKeepsOthers(s, es[0], maxRetries, j);
      RefusedStays(jobs, Next(s, es[0], maxRetries), es[1..], t, j, maxRetries);
    }
  }

  /**
   A job that is only ever put off is given up exactly when it has been put off once more often than the limit allows,
   with as many fetches; without a limit it never is.
   */
  lemma RetriedToTheLimit(jobs: seq<Job>, es: seq<Event>, t: Sched, j: Job, maxRetries: Option<int>)
    requires Distinct(jobs) && Reaches(Initial(jobs), es, t, maxRetries) && j in jobs
    requires OnlyPutOff(Initial(jobs), es, j, maxRetries)
    ensures j in t.refused <==> maxRetries.Some? && PutOffs(Initial(jobs), es, j, maxRetries) == Cap(maxRetries) + 1
    ensures j in t.refused ==> j in t.fetches && t.fetches[j] == Cap(maxRetries) + 1
    ensures j !in t.succeeded
  {
    InvInitial(jobs, maxRetries);
    PutOffUpTo(jobs, Initial(jobs), es, t, j, maxRetries);
  }

  /** When nothing is pending, every job has been recorded, once: as a success or as a refusal. */
  lemma Drained(jobs: seq<Job>, s: Sched, maxRetries: Option<int>)
    requires Inv(jobs, s, maxRetries)
    requires s.unsubmitted == [] && s.waiting == [] && s.taken == [] && s.inflight == []
    ensures multiset(jobs) == multiset(s.succeeded) + multiset(s.refused)
    ensures |s.succeeded| + |s.refused| == |jobs|
  {
    forall j
      ensures multiset(jobs)[j] == multiset(s.succeeded)[j] + multiset(s.refused)[j]
    {
      assert Places(s, j) == Occurrences(jobs, j);
    }
    assert multiset(jobs) == multiset(s.succeeded) + multiset(s.refused);
    assert |multiset(jobs)| == |jobs|;
  }

  // --- slices of the lists, as the code takes them ---------------------------------------------------

  lemma {:induction false} TakeWaitingMany(jobs: seq<Job>, s: Sched, n: nat, maxRetries: Option<int>)
    requires Inv(jobs, s, maxRetries) && n <= |s.waiting|
    ensures var t := s.(waiting := s.waiting[n..], taken := s.taken + s.waiting[..n]);
            Inv(jobs, t, maxRetries) && Work(t, Cap(maxRetries)) == Work(s, Cap(maxRetries))
    decreases n
  {
    hide Inv, Work;
    if n == 0 {
      assert s.(waiting := s.waiting[0..], taken := s.taken + s.waiting[..0]) == s;
    } else {
      var s1 := Next(s, TakeWaiting, maxRetries);
      StepKeepsInv(jobs, s, TakeWaiting, maxRetries);
      TakenWork(jobs, s, TakeWaiting, maxRetries);
      TakeWaitingMany(jobs, s1, n - 1, maxRetries);
      assert s1.waiting[n - 1..] == s.waiting[n..];
      assert s1.taken + s1.waiting[..n - 1] == s.taken + s.waiting[..n];
    }
  }

  lemma {:induction false} TakeNewMany(jobs: seq<Job>, s: Sched, n: nat, maxRetries: Option<int>)
    requires Inv(jobs, s, maxRetries) && n <= |s.unsubmitted|
    ensures var t := s.(unsubmitted := s.unsubmitted[n..], taken := s.taken + s.unsubmitted[..n]);
            Inv(jobs, t, maxRetries) && Work(t, Cap(maxRetries)) == Work(s, Cap(maxRetries))
    decreases n
  {
    hide Inv, Work;
    if n == 0 {
      assert s.(unsubmitted := s.unsubmitted[0..], taken := s.taken + s.unsubmitted[..0]) == s;
    } else {
      var s1 := Next(s, TakeNew, maxRetries);
      StepKeepsInv(jobs, s, TakeNew, maxRetries);
      TakenWork(jobs, s, TakeNew, maxRetries);
      TakeNewMany(jobs, s1, n - 1, maxRetries);
      assert s1.unsubmitted[n - 1..] == s.unsubmitted[n..];
      assert s1.taken + s1.unsubmitted[..n - 1] == s.taken + s.unsubmitted[..n];
    }
  }
}
