/**
 The client's own resident times (client.py) beside the parent trace the server makes of a single chunk (v2/ingest.py).
 */
module TraceClient {
  import opened Sequences
  import opened PyStrings
  import opened TraceTimes
  import opened TraceKeys
  import opened TraceStages
  import opened TraceAggregation

  /** Reading a stage name off its entry key takes the prefix out of the name as well. */
  lemma StageNameRead(stage: string)
    ensures RemoveAll(ENTRY + stage, ENTRY) == RemoveAll(stage, ENTRY)
    ensures !Contains(stage, ENTRY) ==> RemoveAll(ENTRY + stage, ENTRY) == stage
  {
    assert (ENTRY + stage)[|ENTRY|..] == stage;
    if !Contains(stage, ENTRY) { RemoveAllAbsent(stage, ENTRY); }
  }

  /** Some entry key is read as this stage. */
  ghost predicate Named(t: Trace, stage: string) {
    exists other :: ENTRY + other in t && RemoveAll(other, ENTRY) == stage
  }

  lemma NamedIsRead(t: Trace, stage: string)
    ensures stage in StageNames(t.Keys) <==> Named(t, stage)
  {
    if stage in StageNames(t.Keys) {
      var k :| k in t && ENTRY <= k && RemoveAll(k, ENTRY) == stage;
      var other := k[|ENTRY|..];
      assert k == ENTRY + other;
      StageNameRead(other);
    }
    if other :| ENTRY + other in t && RemoveAll(other, ENTRY) == stage {
      StageNameRead(other);
      assert ENTRY <= ENTRY + other;
    }
  }

  /**
   The client adds the resident time of a stage exactly when the stage has both times and some entry key is read as it.
   */
  lemma ClientAddsNamed(t: Trace, stage: string)
    requires !HasResident(t)
    ensures ResidentKey(stage) in ResidentTimes(t) <==> NumericPair(t, stage) && Named(t, stage)
    ensures NumericPair(t, stage) && Named(t, stage) ==> ResidentTimes(t)[ResidentKey(stage)] == Elapsed(t, stage)
  {
    hide NumericPair, Named, StageNames;
    NamedIsRead(t, stage);
    ResidentTimesAt(t, stage);
  }

  /** A stage with an entry is read as itself when its name does not hold the prefix. */
  lemma PlainNamesAreRead(t: Trace, stage: string)
    requires ENTRY + stage in t && !Contains(stage, ENTRY)
    ensures Named(t, stage)
  {
    RemoveAllAbsent(stage, ENTRY);
  }

  /** On a trace of one stage nothing else can be read as it, so a name that holds the prefix is missed. */
  lemma ClientMissesNestedPrefix(t: Trace, stage: string, from: int, to: int)
    requires t == map[ENTRY + stage := Number(from), EXIT + stage := Number(to)]
    ensures ResidentKey(stage) in ResidentTimes(t) <==> !Contains(stage, ENTRY)
  {
    hide Named, NumericPair, HasResident, ResidentTimes, ResidentKey, Contains;
    PairOfOneStage(t, stage, from, to);
    ClientAddsNamed(t, stage);
    if Contains(stage, ENTRY) {
      NestedIsMissed(t, stage, from, to);
    } else {
      PlainNamesAreRead(t, stage);
    }
  }

  lemma PairOfOneStage(t: Trace, stage: string, from: int, to: int)
    requires t == map[ENTRY + stage := Number(from), EXIT + stage := Number(to)]
    ensures !HasResident(t) && NumericPair(t, stage)
    ensures forall other :: ENTRY + other in t ==> other == stage
  {
    forall k | k in t
      ensures !IsResident(k)
    {
      assert k[7] == 'e';
    }
    assert (EXIT + stage)[8] == 'x';
    forall other | ENTRY + other in t
      ensures other == stage
    {
      assert (ENTRY + other)[8] == 'n';
      assert other == (ENTRY + other)[|ENTRY|..] == (ENTRY + stage)[|ENTRY|..] == stage;
    }
  }

  lemma NestedIsMissed(t: Trace, stage: string, from: int, to: int)
    requires t == map[ENTRY + stage := Number(from), EXIT + stage := Number(to)] && Contains(stage, ENTRY)
    ensures !Named(t, stage)
  {
    hide Contains, RemoveAll;
    PairOfOneStage(t, stage, from, to);
    RemoveAllShrinks(stage, ENTRY);
  }

  /** Client and server give the same entry, exit and resident time for the stage. */
  ghost predicate AgreeOn(t: Trace, parent: Trace, stage: string) {
    forall m :: MetricsAgree(t, parent, stage, m)
  }

  ghost predicate MetricsAgree(t: Trace, parent: Trace, stage: string, m: Metric) {
    var k := MetricKey(m, stage);
    k in parent && k in ResidentTimes(t) && parent[k] == ResidentTimes(t)[k]
  }

  /** What the server makes of one chunk: its entry, exit and their difference. */
  lemma ServerTimes(chunk: nat, t: Trace, parent: Trace, stage: string)
    requires IsParentTrace([Segment(chunk, t)], parent) && NumericPair(t, stage)
    ensures forall m :: HasMetric(parent, m, stage)
    ensures ENTRY + stage in parent && parent[ENTRY + stage] == t[ENTRY + stage]
    ensures EXIT + stage in parent && parent[EXIT + stage] == t[EXIT + stage]
    ensures ResidentKey(stage) in parent && parent[ResidentKey(stage)] == Elapsed(t, stage)
  {
    var segments := [Segment(chunk, t)];
    var times := Times(Some(t[ENTRY + stage]), Some(t[EXIT + stage]));
    OneSegment(chunk, t, stage);
    assert ParentStage(segments, parent, stage);
    assert StageAggregate(map[chunk := times], parent, stage);
    OneChunk(chunk, times, MetricOf(parent, First, stage), MetricOf(parent, Last, stage),
             MetricOf(parent, Busy, stage));
    assert HasMetric(parent, First, stage) && HasMetric(parent, Last, stage) && HasMetric(parent, Busy, stage);
  }

  lemma OneSegment(chunk: nat, t: Trace, stage: string)
    requires NumericPair(t, stage)
    ensures var times := Times(Some(t[ENTRY + stage]), Some(t[EXIT + stage]));
            ChunkTimes([Segment(chunk, t)], stage) == map[chunk := times] &&
            CompleteChunks(map[chunk := times]) == {chunk}
  {
    var segments := [Segment(chunk, t)];
    var times := OwnTimes(segments[0], stage);
    assert segments[..0] == [];
    assert ChunkTimes(segments, stage) == map[chunk := times];
    assert CompleteChunks(map[chunk := times]) == {chunk};
  }

  lemma OneChunk(chunk: nat, times: Times, entry: int, exit: int, resident: int)
    requires times.Complete() && Summarizes(map[chunk := times], entry, exit, resident)
    ensures entry == Ticks(times.entry) && exit == Ticks(times.exit) && resident == exit - entry
  {
    hide Ticks, Present;
    var chunks := map[chunk := times];
    assert CompleteChunks(chunks) == {chunk};
    assert chunk in CompleteChunks(chunks);
    TotalAny(Durations(chunks), chunk);
    assert Durations(chunks) - {chunk} == map[];
  }

  /**
   For a document of one chunk, client and server agree on a stage with both times exactly when some key is read as it.
   */
  lemma ClientAgreesExactly(chunk: nat, t: Trace, parent: Trace, stage: string)
    requires IsParentTrace([Segment(chunk, t)], parent) && !HasResident(t) && NumericPair(t, stage)
    ensures AgreeOn(t, parent, stage) <==> Named(t, stage)
  {
    ClientAddsNamed(t, stage);
    ServerTimes(chunk, t, parent, stage);
    ResidentTimesAt(t, stage);
    hide IsParentTrace, Named, NumericPair, HasResident, ResidentTimes, Elapsed;
    MetricKeyIs(First, stage);
    MetricKeyIs(Last, stage);
    MetricKeyIs(Busy, stage);
    hide MetricKey;
    if Named(t, stage) {
      forall m
        ensures MetricsAgree(t, parent, stage, m)
      {
        AllMetrics(m);
        assert HasMetric(parent, m, stage);
        PairIn(t, stage);
      }
    } else {
      assert !MetricsAgree(t, parent, stage, Busy);
    }
  }

  lemma PairIn(t: Trace, stage: string)
    requires NumericPair(t, stage)
    ensures ENTRY + stage in t && EXIT + stage in t
  {
  }

  lemma MetricKeyIs(m: Metric, stage: string)
    ensures MetricKey(m, stage)
        == match m case First => ENTRY + stage case Last => EXIT + stage case Busy => ResidentKey(stage)
  {
  }

  /** They agree on all stages with both times exactly when each of them is read off some key. */
  lemma ClientAgreesOnAll(chunk: nat, t: Trace, parent: Trace)
    requires IsParentTrace([Segment(chunk, t)], parent) && !HasResident(t)
    ensures (forall stage :: NumericPair(t, stage) ==> AgreeOn(t, parent, stage))
            <==> forall stage :: NumericPair(t, stage) ==> Named(t, stage)
  {
    hide IsParentTrace, NumericPair, AgreeOn, Named;
    forall stage | NumericPair(t, stage)
      ensures AgreeOn(t, parent, stage) <==> Named(t, stage)
    {
      ClientAgreesExactly(chunk, t, parent, stage);
    }
  }

  /** In particular they agree on every stage whose name does not hold the prefix. */
  lemma ClientAgreesWithServer(chunk: nat, t: Trace, parent: Trace, stage: string)
    requires IsParentTrace([Segment(chunk, t)], parent) && !HasResident(t)
    requires NumericPair(t, stage) && !Contains(stage, ENTRY)
    ensures AgreeOn(t, parent, stage)
  {
    PlainNamesAreRead(t, stage);
    ClientAgreesExactly(chunk, t, parent, stage);
  }
}
