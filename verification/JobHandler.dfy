/** Processing files in rounds of at most batch_size jobs (client/ingest_job_handler.py). */
module JobHandler {
  import opened Sequences

  /** How waiting for one job ends: a result, a timeout (the job is retried), or an error. */
  datatype Waited = Result | TimedOut | Error

  /** Job indices come from a counter of the client. */
  function Indices(lo: nat, hi: nat): (s: seq<nat>)
    requires lo <= hi
    ensures |s| == hi - lo && forall i :: 0 <= i < |s| ==> s[i] == lo + i
  {
    seq(hi - lo, i requires 0 <= i => lo + i)
  }

  lemma IndicesConcat(a: nat, b: nat)
    requires a <= b
    ensures Indices(0, b) == Indices(0, a) + Indices(a, b)
  {
  }

  lemma {:induction false} EachIndexOnce(n: nat, x: nat)
    ensures multiset(Indices(0, n))[x] == if x < n then 1 else 0
  {
    if n > 0 {
      EachIndexOnce(n - 1, x);
      assert Indices(0, n) == Indices(0, n - 1) + [n - 1];
    }
  }

  /** The positions from lo up to hi of files for which a job spec could be made. */
  function Readable(readable: nat -> bool, lo: nat, hi: nat): (s: seq<nat>)
    requires lo <= hi
    ensures |s| <= hi - lo
    ensures forall i :: 0 <= i < |s| ==> lo <= s[i] < hi && readable(s[i])
    decreases hi - lo
  {
    if lo == hi then []
    else (if readable(lo) then [lo] else []) + Readable(readable, lo + 1, hi)
  }

  ghost predicate SomeUnreadable(readable: nat -> bool, lo: nat, hi: nat) {
    exists p :: lo <= p < hi && !readable(p)
  }

  ghost predicate SomeReadable(readable: nat -> bool, lo: nat, hi: nat) {
    exists p :: lo <= p < hi && readable(p)
  }

  lemma {:induction false} ReadableCount(readable: nat -> bool, lo: nat, hi: nat)
    requires lo <= hi
    ensures |Readable(readable, lo, hi)| == hi - lo <==> !SomeUnreadable(readable, lo, hi)
    ensures |Readable(readable, lo, hi)| > 0 <==> SomeReadable(readable, lo, hi)
    decreases hi - lo
  {
    if lo < hi { ReadableCount(readable, lo + 1, hi); }
  }

  /** No unreadable file comes before a readable one. */
  predicate UnreadableLast(readable: nat -> bool, lo: nat, hi: nat) {
    forall p, q :: lo <= p < q < hi && readable(q) ==> readable(p)
  }

  predicate InPlace(s: seq<nat>, lo: nat) {
    forall k :: 0 <= k < |s| ==> s[k] == lo + k
  }

  /**
   The k-th job of a round is entered under the k-th file of the slice: its own file exactly when no unreadable
   file comes before a readable one.
   */
  lemma {:induction false} NamesMatchFiles(readable: nat -> bool, lo: nat, hi: nat)
    requires lo <= hi
    ensures InPlace(Readable(readable, lo, hi), lo) <==> UnreadableLast(readable, lo, hi)
    decreases hi - lo
  {
    if lo < hi {
      var s, rest := Readable(readable, lo, hi), Readable(readable, lo + 1, hi);
      if readable(lo) {
        NamesMatchFiles(readable, lo + 1, hi);
        hide InPlace, UnreadableLast;
        InPlaceStep(rest, lo);
        UnreadableStep(readable, lo, hi);
        assert s == [lo] + rest;
      } else if s == [] {
        NoneReadable(readable, lo, hi);
      } else {
        var q := s[0];
        assert s == rest && readable(q) && lo < q < hi;
        assert !InPlace(s, lo) && !UnreadableLast(readable, lo, hi);
      }
    }
  }

  lemma UnreadableStep(readable: nat -> bool, lo: nat, hi: nat)
    requires lo < hi && readable(lo)
    ensures UnreadableLast(readable, lo, hi) <==> UnreadableLast(readable, lo + 1, hi)
  {
  }

  lemma InPlaceStep(rest: seq<nat>, lo: nat)
    ensures InPlace([lo] + rest, lo) <==> InPlace(rest, lo + 1)
  {
    var s := [lo] + rest;
    assert forall k :: 0 <= k < |rest| ==> rest[k] == s[k + 1];
  }

  lemma {:induction false} NoneReadable(readable: nat -> bool, lo: nat, hi: nat)
    requires lo <= hi && Readable(readable, lo, hi) == []
    ensures forall p :: lo <= p < hi ==> !readable(p)
    decreases hi - lo
  {
    if lo < hi { NoneReadable(readable, lo + 1, hi); }
  }

  /** The dictionary over zip(keys, values). */
  function Zip(keys: seq<nat>, values: seq<string>): map<nat, string>
    requires |keys| <= |values|
  {
    if keys == [] then map[]
    else var n := |keys| - 1; Zip(keys[..n], values)[keys[n] := values[n]]
  }

  /** The jobs of a round and the names they are given. */
  ghost predicate NamesFrom(m: map<nat, string>, lo: nat, count: nat, values: seq<string>)
    requires count <= |values|
  {
    && (forall k: nat :: k in m <==> lo <= k < lo + count)
    && (forall k: nat :: k in m && lo <= k < lo + count ==> m[k] == values[k - lo])
  }

  lemma {:induction false} ZipIndices(lo: nat, count: nat, values: seq<string>)
    requires count <= |values|
    ensures NamesFrom(Zip(Indices(lo, lo + count), values), lo, count, values)
  {
    var keys := Indices(lo, lo + count);
    if count > 0 {
      ZipIndices(lo, count - 1, values);
      assert keys[..count - 1] == Indices(lo, lo + count - 1) && keys[count - 1] == lo + count - 1;
      var before := Zip(keys[..count - 1], values);
      assert Zip(keys, values) == before[lo + count - 1 := values[count - 1]];
    } else {
      assert keys == [];
    }
  }

  // --- the books ---------------------------------------------------------------------------------------------

  /** Every job made is waiting, to be retried, succeeded or failed, once. */
  ghost predicate Partition(waiting: seq<nat>, retry: seq<nat>, succeeded: seq<nat>, failed: seq<nat>, made: nat) {
    multiset(waiting) + multiset(retry) + multiset(succeeded) + multiset(failed) == multiset(Indices(0, made))
  }

  lemma Settle(waiting: seq<nat>, k: nat, retry: seq<nat>, succeeded: seq<nat>, failed: seq<nat>, made: nat)
    requires k < |waiting| && Partition(waiting, retry, succeeded, failed, made)
    ensures var rest := waiting[..k] + waiting[k + 1..];
            && Partition(rest, retry + [waiting[k]], succeeded, failed, made)
            && Partition(rest, retry, succeeded + [waiting[k]], failed, made)
            && Partition(rest, retry, succeeded, failed + [waiting[k]], made)
  {
    hide Indices;
    RemoveAt(waiting, k);
  }

  lemma StartRound(retry: seq<nat>, succeeded: seq<nat>, failed: seq<nat>, before: nat, made: nat)
    requires before <= made && Partition([], retry, succeeded, failed, before)
    ensures Partition(retry + Indices(before, made), [], succeeded, failed, made)
  {
    IndicesConcat(before, made);
  }

  lemma PartitionEmpty(made: nat, succeeded: seq<nat>, failed: seq<nat>)
    ensures Partition([], [], [], [], 0)
    ensures Partition([], [], succeeded, failed, made) ==>
      multiset(succeeded) + multiset(failed) == multiset(Indices(0, made))
  {
  }

  /** Where a job goes that ends like this. */
  ghost predicate SettledAs(x: nat, w: Waited, retry: seq<nat>, succeeded: seq<nat>, failed: seq<nat>) {
    match w
    case Result => x in succeeded
    case TimedOut => x in retry
    case Error => x in failed
  }

  /** The wait for this job ended like this in one of the rounds. */
  ghost predicate EndedAs(wait: (nat, nat) -> Waited, rounds: nat, x: nat, w: Waited) {
    exists r: nat :: r < rounds && wait(r, x) == w
  }

  /** Every job made is named. */
  ghost predicate Named(names: map<nat, string>, made: nat) {
    forall x: nat :: x < made ==> x in names
  }

  lemma NamedMore(names: map<nat, string>, lo: nat, count: nat, values: seq<string>)
    requires Named(names, lo) && count <= |values|
    ensures Named(names + Zip(Indices(lo, lo + count), values), lo + count)
  {
    hide Indices, Zip;
    ZipIndices(lo, count, values);
  }

  /** The waits of one round for these jobs. */
  ghost function InRound(jobs: seq<nat>, round: nat): set<(nat, nat)> {
    set x | x in jobs :: (round, x)
  }

  lemma {:induction false} InRoundSize(jobs: seq<nat>, round: nat)
    requires Distinct(jobs)
    ensures |InRound(jobs, round)| == |jobs|
  {
    if jobs != [] {
      InRoundSize(jobs[1..], round);
      assert jobs == [jobs[0]] + jobs[1..];
      assert InRound(jobs, round) == InRound(jobs[1..], round) + {(round, jobs[0])};
    }
  }

  lemma RetriesOnce(retry: seq<nat>, succeeded: seq<nat>, failed: seq<nat>, made: nat)
    requires Partition([], retry, succeeded, failed, made)
    ensures Distinct(retry) && forall x :: x in retry ==> x < made
  {
    hide Indices;
    forall x | x in retry
      ensures x < made && multiset(retry)[x] <= 1
    {
      EachIndexOnce(made, x);
      assert multiset(retry)[x] <= multiset(Indices(0, made))[x] && x in multiset(retry);
    }
    OnceIsDistinct(retry);
  }

  /** Waits of earlier rounds that timed out. */
  ghost predicate AreTimeouts(timeouts: set<(nat, nat)>, wait: (nat, nat) -> Waited, rounds: nat) {
    forall t :: t in timeouts ==> t.0 < rounds && wait(t.0, t.1).TimedOut?
  }

  lemma MoreTimeouts(timeouts: set<(nat, nat)>, wait: (nat, nat) -> Waited, round: nat, made: nat, retry: seq<nat>,
                     succeeded: seq<nat>, failed: seq<nat>)
    requires AreTimeouts(timeouts, wait, round) && Partition([], retry, succeeded, failed, made)
    requires forall x :: x in retry ==> wait(round, x).TimedOut?
    ensures AreTimeouts(timeouts + InRound(retry, round), wait, round + 1)
    ensures |timeouts + InRound(retry, round)| == |timeouts| + |retry|
  {
    RetriesOnce(retry, succeeded, failed, made);
    InRoundSize(retry, round);
    assert timeouts !! InRound(retry, round);
  }

  lemma NoTimeouts(wait: (nat, nat) -> Waited)
    ensures AreTimeouts({}, wait, 0)
  {
  }

  lemma LaterTimeouts(timeouts: set<(nat, nat)>, wait: (nat, nat) -> Waited, rounds: nat, horizon: nat)
    requires AreTimeouts(timeouts, wait, rounds) && rounds <= horizon
    ensures AreTimeouts(timeouts, wait, horizon)
  {
  }

  lemma OneMoreRound(wait: (nat, nat) -> Waited, round: nat)
    ensures forall x, w :: EndedAs(wait, round, x, w) || wait(round, x) == w ==> EndedAs(wait, round + 1, x, w)
  {
  }

  class IngestJobHandler {
    const files: seq<string>
    const batchSize: int
    const failOnError: bool
    var processed: nat
    var retryJobIds: seq<nat>
    var jobIdsBatch: seq<nat>
    var jobIdMap: map<nat, string>
    /** The progress bar's count. */
    var progress: nat
    /** The client's next job index. */
    var nextIndex: nat
    var succeeded: seq<nat>
    var failed: seq<nat>

    constructor (files: seq<string>, batchSize: int, failOnError: bool)
      ensures this.files == files && this.batchSize == batchSize && this.failOnError == failOnError
      ensures Balanced([]) && processed == 0 && retryJobIds == [] && progress == 0 && nextIndex == 0
      ensures succeeded == [] && failed == []
    {
      this.files, this.batchSize, this.failOnError := files, batchSize, failOnError;
      processed, retryJobIds, jobIdsBatch, jobIdMap, progress := 0, [], [], map[], 0;
      nextIndex, succeeded, failed := 0, [], [];
      new;
      PartitionEmpty(0, [], []);
    }

    /**
     Each job is accounted for once and has a name, so looking a name up never fails; and the progress counts the
     files attempted whose jobs are neither waiting nor to be retried.
     */
    ghost predicate Balanced(waiting: seq<nat>)
      reads this
    {
      && Partition(waiting, retryJobIds, succeeded, failed, nextIndex) && Named(jobIdMap, nextIndex)
      && progress + |waiting| + |retryJobIds| == processed <= |files|
    }

    /** The files the next round attempts. */
    ghost function NewJobCount(): (n: nat)
      requires processed <= |files|
      reads this
      ensures processed + n <= |files|
    {
      if |retryJobIds| < batchSize then Min(batchSize - |retryJobIds|, |files| - processed) else 0
    }

    /** As many as there is room for beside the retries. */
    lemma RoomIsFilled()
      requires processed <= |files|
      ensures processed + NewJobCount() == Min(processed + Max(0, batchSize - |retryJobIds|), |files|)
    {
    }

    /**
     _generate_job_batch_for_iteration: raises when a spec is missing and fail_on_error is set, or when submitting does.
     */
    method GenerateJobBatch(readable: nat -> bool, submitRaises: bool) returns (raised: bool)
      requires Balanced([])
      modifies this
      ensures var hi := old(processed) + old(NewJobCount());
              raised <==>
                || (failOnError && SomeUnreadable(readable, old(processed), hi))
                || (submitRaises && SomeReadable(readable, old(processed), hi))
      ensures !raised ==>
        && processed == old(processed) + old(NewJobCount()) <= |files|
        && nextIndex == old(nextIndex) + |Readable(readable, old(processed), processed)|
        && jobIdsBatch == old(retryJobIds) + Indices(old(nextIndex), nextIndex)
        && succeeded == old(succeeded) && failed == old(failed)
        && jobIdMap == old(jobIdMap) + Zip(Indices(old(nextIndex), nextIndex), files[old(processed)..processed])
        && (|old(retryJobIds)| <= batchSize ==> |jobIdsBatch| <= batchSize)
        && Partition(jobIdsBatch, [], succeeded, failed, nextIndex) && Named(jobIdMap, nextIndex)
        && progress + |jobIdsBatch| == processed
    {
      hide Indices, Partition, Named, Readable, Zip, SomeReadable, SomeUnreadable;
      var jobIndices, count: nat := retryJobIds, 0;
      if |retryJobIds| < batchSize && processed < |files| {
        count := Min(batchSize - |retryJobIds|, |files| - processed);
      }
      assert count == NewJobCount();
      var batchFiles := files[processed..processed + count];
      var made := |Readable(readable, processed, processed + count)|;
      ReadableCount(readable, processed, processed + count);
      hide NewJobCount;
      var (next, added) := (nextIndex + made, Indices(nextIndex, nextIndex + made));
      var batch, names := jobIndices + added, jobIdMap + Zip(added, batchFiles);
      StartRound(retryJobIds, succeeded, failed, nextIndex, next);
      NamedMore(jobIdMap, nextIndex, made, batchFiles);
      assert Partition(batch, [], succeeded, failed, next) && Named(names, next);
      if made != count && failOnError {
        nextIndex := next;
        return true;
      }
      nextIndex, progress, processed := next, progress + (count - made), processed + count;
      if submitRaises && made > 0 { return true; }
      jobIdsBatch, jobIdMap := batch, names;
      return false;
    }

    /** The inner loop of run: the futures of one round, in whatever order they complete. */
    method CollectRound(wait: nat -> Waited)
      requires retryJobIds == [] && Balanced(jobIdsBatch)
      modifies this
      ensures Balanced([]) && |retryJobIds| <= |jobIdsBatch|
      ensures processed == old(processed) && nextIndex == old(nextIndex) && jobIdsBatch == old(jobIdsBatch)
      ensures forall x :: x in jobIdsBatch ==> SettledAs(x, wait(x), retryJobIds, succeeded, failed)
      ensures forall x, w :: SettledAs(x, w, retryJobIds, succeeded, failed) ==>
        SettledAs(x, w, [], old(succeeded), old(failed)) || (x in jobIdsBatch && wait(x) == w)
    {
      hide Partition, Named;
      var waiting := jobIdsBatch;
      while waiting != []
        invariant Balanced(waiting) && |retryJobIds| + |waiting| <= |jobIdsBatch|
        invariant processed == old(processed) && nextIndex == old(nextIndex) && jobIdsBatch == old(jobIdsBatch)
        invariant forall x :: x in waiting ==> x in jobIdsBatch
        invariant forall x :: x in jobIdsBatch ==> x in waiting || SettledAs(x, wait(x), retryJobIds, succeeded, failed)
        invariant forall x, w :: SettledAs(x, w, retryJobIds, succeeded, failed) ==>
          SettledAs(x, w, [], old(succeeded), old(failed)) || (x in jobIdsBatch && wait(x) == w)
        decreases |waiting|
      {
        var k: nat :| k < |waiting|;
        var job := waiting[k];
        Settle(waiting, k, retryJobIds, succeeded, failed, nextIndex);
        waiting := waiting[..k] + waiting[k + 1..];
        if wait(job).TimedOut? {
          retryJobIds := retryJobIds + [job];
        } else {
          if wait(job).Result? { succeeded := succeeded + [job]; } else { failed := failed + [job]; }
          progress := progress + 1;
        }
      }
    }

    /**
     run, for at most horizon rounds: when it ends, the progress counts every file once and every job made is in
     succeeded or failed, once. It takes at most one round for each file and one for each timeout; with a batch size
     below one it never ends.
     */
    method Run(readable: nat -> bool, wait: (nat, nat) -> Waited, submitRaises: nat -> bool, fetchRaises: nat -> bool,
               horizon: nat)
      returns (end: End, ghost timeouts: set<(nat, nat)>, ghost attempted: seq<nat>)
      requires Balanced([]) && processed == 0 && retryJobIds == [] && nextIndex == 0 && succeeded == [] && failed == []
      modifies this
      ensures end.Finished? ==>
        && processed == |files| == progress && retryJobIds == [] && attempted == Indices(0, |files|)
        && multiset(succeeded) + multiset(failed) == multiset(Indices(0, nextIndex))
        && (forall x :: x in succeeded ==> EndedAs(wait, horizon, x, Result))
        && (forall x :: x in failed ==> EndedAs(wait, horizon, x, Error))
      ensures end.Raised? ==>
        || (failOnError && exists p :: 0 <= p < |files| && !readable(p))
        || (exists round: nat :: round < horizon && (submitRaises(round) || fetchRaises(round)))
      ensures end.Finished? && failOnError ==> forall p :: 0 <= p < |files| ==> readable(p)
      ensures end.Running? && batchSize >= 1 ==> horizon <= |files| + |timeouts|
      ensures AreTimeouts(timeouts, wait, horizon)
      ensures batchSize < 1 && files != [] ==> end.Running?
    {
      hide Indices, Partition, Named, Readable, Zip, AreTimeouts, InRound;
      NoTimeouts(wait);
      timeouts, attempted := {}, Indices(0, 0);
      var rounds: nat := 0;
      while (processed < |files| || retryJobIds != []) && rounds < horizon
        invariant Balanced([]) && rounds <= horizon && attempted == Indices(0, processed)
        invariant |retryJobIds| <= Max(0, batchSize)
        invariant batchSize >= 1 ==> rounds + |retryJobIds| <= processed + |timeouts|
        invariant AreTimeouts(timeouts, wait, rounds)
        invariant batchSize < 1 ==> processed == 0
        invariant failOnError ==> forall p :: 0 <= p < processed ==> readable(p)
        invariant forall x :: x in succeeded ==> EndedAs(wait, rounds, x, Result)
        invariant forall x :: x in failed ==> EndedAs(wait, rounds, x, Error)
        decreases horizon - rounds
      {
        LaterTimeouts(timeouts, wait, rounds, horizon);
        ghost var before := processed;
        var raised := GenerateJobBatch(readable, submitRaises(rounds));
        if raised { return Raised, timeouts, attempted; }
        if jobIdsBatch != [] && fetchRaises(rounds) { return Raised, timeouts, attempted; }
        IndicesConcat(before, processed);
        attempted := attempted + Indices(before, processed);
        retryJobIds := [];
        var round := rounds;
        CollectRound((job: nat) => wait(round, job));
        OneMoreRound(wait, round);
        forall x | x in succeeded
          ensures EndedAs(wait, round + 1, x, Result)
        {
          assert SettledAs(x, Result, retryJobIds, succeeded, failed);
        }
        forall x | x in failed
          ensures EndedAs(wait, round + 1, x, Error)
        {
          assert SettledAs(x, Error, retryJobIds, succeeded, failed);
        }
        forall x | x in retryJobIds
          ensures wait(round, x).TimedOut?
        {
          assert SettledAs(x, TimedOut, retryJobIds, succeeded, failed);
        }
        MoreTimeouts(timeouts, wait, round, nextIndex, retryJobIds, succeeded, failed);
        timeouts := timeouts + InRound(retryJobIds, round);
        rounds := rounds + 1;
      }
      PartitionEmpty(nextIndex, succeeded, failed);
      LaterTimeouts(timeouts, wait, rounds, horizon);
      end := if processed < |files| || retryJobIds != [] then Running else Finished;
    }
  }

  datatype End = Finished | Raised | Running
}
