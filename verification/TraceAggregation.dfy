/**
 Parent-level trace metrics out of chunk traces (_aggregate_parent_traces and the trace part of
 _build_aggregated_response in v2/ingest.py).
 */
module TraceAggregation {
  import opened Sequences
  import opened TraceTimes
  import opened TraceKeys
  import opened TraceStages

  datatype Segment = Segment(chunk: nat, trace: Trace)

  // --- reference definition -------------------------------------------------------------------------

  datatype Metric = First | Last | Busy

  function MetricKey(m: Metric, stage: string): string {
    match m
    case First => ENTRY + stage
    case Last => EXIT + stage
    case Busy => ResidentKey(stage)
  }

  predicate HasMetric(parent: Trace, m: Metric, stage: string) {
    MetricKey(m, stage) in parent && parent[MetricKey(m, stage)].Number?
  }

  function MetricOf(parent: Trace, m: Metric, stage: string): int {
    if HasMetric(parent, m, stage) then parent[MetricKey(m, stage)].n else 0
  }

  /** k is a metric of a stage with a complete chunk. */
  ghost predicate IsMetric(data: StageData, m: Metric, stage: string, k: string) {
    stage in data && CompleteChunks(data[stage]) != {} && k == MetricKey(m, stage)
  }

  /** The parent trace has the three metrics of each stage with a complete chunk, and nothing else. */
  ghost predicate IsAggregate(data: StageData, parent: Trace) {
    && (forall k :: k in parent ==> exists m, s :: IsMetric(data, m, s, k))
    && (forall s :: s in data && CompleteChunks(data[s]) != {} ==> StageAggregate(data[s], parent, s))
  }

  ghost predicate StageAggregate(chunks: map<nat, Times>, parent: Trace, s: string) {
    && (forall m :: HasMetric(parent, m, s))
    && Summarizes(chunks, MetricOf(parent, First, s), MetricOf(parent, Last, s), MetricOf(parent, Busy, s))
  }

  // --- _aggregate_parent_traces ---------------------------------------------------------------------------

  /** Some chunk has an entry and an exit that cannot be subtracted. */
  ghost predicate BrokenData(data: StageData) {
    exists s :: s in data && SomeBroken(data[s])
  }

  /** The outcome for a table of stages: None when a difference cannot be taken. */
  ghost predicate IsOutcome(data: StageData, parent: Option<Trace>) {
    if parent.None? then BrokenData(data) else !BrokenData(data) && IsAggregate(data, parent.value)
  }

  /** The outcome for a table that holds what the trace tells. */
  ghost predicate IsOutcomeOf(t: Trace, parent: Option<Trace>) {
    exists data :: Matches(data, t) && IsOutcome(data, parent)
  }

  method AggregateParentTraces(t: Trace) returns (parent: Option<Trace>)
    ensures IsOutcomeOf(t, parent)
  {
    hide Summarizes, CompleteChunks, SomeBroken, Matches, IsAggregate, Extended;
    NothingAggregated();
    var stages := CollectStages(t);
    var metrics: Trace := map[];
    var todo := stages.Keys;
    ghost var done: StageData := map[];
    while todo != {}
      invariant todo <= stages.Keys && done.Keys == stages.Keys - todo
      invariant forall s :: s in done ==> done[s] == stages[s] && !SomeBroken(stages[s])
      invariant IsAggregate(done, metrics)
      decreases |todo|
    {
      var s :| s in todo;
      todo := todo - {s};
      var raised, found, entry, exit, resident := SummarizeStage(stages[s]);
      if raised { return None; }
      if found {
        AggregateGrows(done, metrics, s, stages[s], entry, exit, resident);
        metrics := Extended(metrics, s, entry, exit, resident);
      } else {
        AggregateSkips(done, metrics, s, stages[s]);
      }
      done := done[s := stages[s]];
    }
    assert done == stages;
    parent := Some(metrics);
    assert IsOutcome(stages, parent);
  }

  lemma NothingAggregated()
    ensures IsAggregate(map[], map[])
  {
  }

  /** A metric key determines the stage and the metric. */
  lemma MetricKeyInjective(m: Metric, s: string, m': Metric, s': string)
    requires MetricKey(m, s) == MetricKey(m', s')
    ensures m == m' && s == s'
  {
    var k := MetricKey(m, s);
    assert k[7] == (if m.Busy? then 'r' else 'e') && k[8] == (if m.First? then 'n' else if m.Last? then 'x' else 'e');
    assert k[7] == (if m'.Busy? then 'r' else 'e');
    assert k[8] == (if m'.First? then 'n' else if m'.Last? then 'x' else 'e');
    var n := |MetricKey(m, "")|;
    assert s == k[n..] == s';
  }

  lemma MetricStays(done: StageData, s: string, chunks: map<nat, Times>, m: Metric, x: string, k: string)
    requires IsMetric(done, m, x, k) && s !in done
    ensures IsMetric(done[s := chunks], m, x, k)
  {
    hide CompleteChunks, MetricKey;
    assert done[s := chunks][x] == done[x];
  }

  function Extended(parent: Trace, s: string, entry: int, exit: int, resident: int): Trace {
    parent[MetricKey(First, s) := Number(entry)][MetricKey(Last, s) := Number(exit)]
      [MetricKey(Busy, s) := Number(resident)]
  }

  /** Writing the metrics of one stage leaves those of another. */
  lemma StageStays(chunks: map<nat, Times>, parent: Trace, s: string, x: string, entry: int, exit: int, resident: int)
    requires x != s && StageAggregate(chunks, parent, x)
    ensures StageAggregate(chunks, Extended(parent, s, entry, exit, resident), x)
  {
    hide Summarizes, MetricKey, CompleteChunks;
    forall m, m'
      ensures MetricKey(m, x) != MetricKey(m', s)
    {
      if MetricKey(m, x) == MetricKey(m', s) { MetricKeyInjective(m, x, m', s); }
    }
    forall m
      ensures HasMetric(Extended(parent, s, entry, exit, resident), m, x)
      ensures MetricOf(Extended(parent, s, entry, exit, resident), m, x) == MetricOf(parent, m, x)
    {
      assert HasMetric(parent, m, x);
    }
  }

  lemma ExtendedHas(parent: Trace, s: string, chunks: map<nat, Times>, entry: int, exit: int, resident: int)
    requires Summarizes(chunks, entry, exit, resident)
    ensures StageAggregate(chunks, Extended(parent, s, entry, exit, resident), s)
  {
    hide Summarizes, MetricKey;
    forall m, m' | m != m'
      ensures MetricKey(m, s) != MetricKey(m', s)
    {
      if MetricKey(m, s) == MetricKey(m', s) { MetricKeyInjective(m, s, m', s); }
    }
  }

  lemma NewMetric(done: StageData, s: string, parent: Trace, entry: int, exit: int, resident: int, k: string)
    requires s in done && CompleteChunks(done[s]) != {} && k in Extended(parent, s, entry, exit, resident)
    requires k !in parent
    ensures exists m, x :: IsMetric(done, m, x, k)
  {
    hide MetricKey, CompleteChunks;
    var m :| k == MetricKey(m, s);
    assert IsMetric(done, m, s, k);
  }

  lemma AggregateGrows(done: StageData, parent: Trace, s: string, chunks: map<nat, Times>, entry: int, exit: int,
                       resident: int)
    requires IsAggregate(done, parent) && s !in done
    requires CompleteChunks(chunks) != {} && Summarizes(chunks, entry, exit, resident)
    ensures IsAggregate(done[s := chunks], Extended(parent, s, entry, exit, resident))
  {
    hide Summarizes, MetricKey, CompleteChunks, IsMetric, StageAggregate, Extended;
    var done', parent' := done[s := chunks], Extended(parent, s, entry, exit, resident);
    forall k | k in parent'
      ensures exists m, x :: IsMetric(done', m, x, k)
    {
      if k in parent {
        var m, x :| IsMetric(done, m, x, k);
        MetricStays(done, s, chunks, m, x, k);
      } else {
        NewMetric(done', s, parent, entry, exit, resident, k);
      }
    }
    forall x | x in done' && CompleteChunks(done'[x]) != {}
      ensures StageAggregate(done'[x], parent', x)
    {
      if x == s {
        ExtendedHas(parent, s, chunks, entry, exit, resident);
      } else {
        UpdateElsewhere(done, s, chunks, x);
        StageStays(done[x], parent, s, x, entry, exit, resident);
      }
    }
  }

  lemma AggregateSkips(done: StageData, parent: Trace, s: string, chunks: map<nat, Times>)
    requires IsAggregate(done, parent) && s !in done && CompleteChunks(chunks) == {}
    ensures IsAggregate(done[s := chunks], parent)
  {
    hide MetricKey, CompleteChunks, IsMetric, StageAggregate;
    var done' := done[s := chunks];
    forall k | k in parent
      ensures exists m, x :: IsMetric(done', m, x, k)
    {
      var m, x :| IsMetric(done, m, x, k);
      MetricStays(done, s, chunks, m, x, k);
    }
    forall x | x in done' && CompleteChunks(done'[x]) != {}
      ensures StageAggregate(done'[x], parent, x)
    {
      if x != s { UpdateElsewhere(done, s, chunks, x); }
    }
  }

  // --- from the segments of the response to the parent trace -------------------------------------------------

  /** One segment's keys, prefixed with its chunk. */
  function WithPrefix(chunk: nat, trace: Trace): Trace {
    assert forall k, k' :: ChunkKey(chunk, k) == ChunkKey(chunk, k') ==> k == k' by {
      forall k, k' | ChunkKey(chunk, k) == ChunkKey(chunk, k') { ChunkKeyInjective(chunk, k, chunk, k'); }
    }
    map k | k in trace :: ChunkKey(chunk, k) := trace[k]
  }

  /** The merged dictionary of all segments. */
  function Merged(segments: seq<Segment>): Trace {
    if segments == [] then map[]
    else
      var last := segments[|segments| - 1];
      Merged(segments[..|segments| - 1]) + WithPrefix(last.chunk, last.trace)
  }

  lemma PrefixOneMore(chunk: nat, trace: Trace, key: string, value: Time)
    ensures WithPrefix(chunk, trace[key := value]) == WithPrefix(chunk, trace)[ChunkKey(chunk, key) := value]
  {
    forall k | k in trace && ChunkKey(chunk, k) == ChunkKey(chunk, key)
      ensures k == key
    {
      ChunkKeyInjective(chunk, k, chunk, key);
    }
    var a, b := WithPrefix(chunk, trace[key := value]), WithPrefix(chunk, trace)[ChunkKey(chunk, key) := value];
    forall k | k in b
      ensures k in a
    {
      if k != ChunkKey(chunk, key) {
        var x :| x in trace && ChunkKey(chunk, x) == k;
        assert x in trace[key := value];
      } else {
        assert key in trace[key := value];
      }
    }
    assert a.Keys == b.Keys;
  }

  ghost predicate DistinctChunks(segments: seq<Segment>) {
    forall i, j :: 0 <= i < j < |segments| ==> segments[i].chunk != segments[j].chunk
  }

  lemma {:induction false} MergedKeys(segments: seq<Segment>, k: string)
    requires k in Merged(segments)
    ensures exists i, key :: 0 <= i < |segments| && key in segments[i].trace && k == ChunkKey(segments[i].chunk, key)
  {
    var n := |segments| - 1;
    if k in Merged(segments[..n]) {
      MergedKeys(segments[..n], k);
      var i, key :| 0 <= i < n && key in segments[i].trace && k == ChunkKey(segments[i].chunk, key);
    } else {
      var key :| key in segments[n].trace && k == ChunkKey(segments[n].chunk, key);
    }
  }

  lemma {:induction false} MergedValue(segments: seq<Segment>, i: nat, key: string)
    requires DistinctChunks(segments) && i < |segments| && key in segments[i].trace
    ensures var k := ChunkKey(segments[i].chunk, key);
            k in Merged(segments) && Merged(segments)[k] == segments[i].trace[key]
  {
    var n, k := |segments| - 1, ChunkKey(segments[i].chunk, key);
    if i < n {
      MergedValue(segments[..n], i, key);
      forall other | other in segments[n].trace
        ensures ChunkKey(segments[n].chunk, other) != k
      {
        if ChunkKey(segments[n].chunk, other) == k {
          ChunkKeyInjective(segments[n].chunk, other, segments[i].chunk, key);
        }
      }
    } else {
      forall other | other in segments[n].trace && ChunkKey(segments[n].chunk, other) == k
        ensures other == key
      {
        ChunkKeyInjective(segments[n].chunk, other, segments[n].chunk, key);
      }
    }
  }

  /** Merged keys never collide, whatever the traces hold. */
  lemma MergedUnambiguous(segments: seq<Segment>)
    ensures Unambiguous(Merged(segments))
  {
    forall k, k' | k in Merged(segments) && k' in Merged(segments) && ParseKey(k).Hit? && ParseKey(k) == ParseKey(k')
      ensures k == k'
    {
      MergedKeys(segments, k);
      MergedKeys(segments, k');
      var i, key :| 0 <= i < |segments| && key in segments[i].trace && k == ChunkKey(segments[i].chunk, key);
      var i', key' :| 0 <= i' < |segments| && key' in segments[i'].trace && k' == ChunkKey(segments[i'].chunk, key');
      ParsedKeyIsPrinted(segments[i].chunk, key);
      ParsedKeyIsPrinted(segments[i'].chunk, key');
    }
  }

  function At(t: Trace, key: string): Option<Time> {
    if key in t then Some(t[key]) else None
  }

  function OwnTimes(segment: Segment, stage: string): Times {
    Times(At(segment.trace, EventKey(true, stage)), At(segment.trace, EventKey(false, stage)))
  }

  /** The entry and exit that each chunk's own trace gives for a stage. */
  function ChunkTimes(segments: seq<Segment>, stage: string): map<nat, Times> {
    if segments == [] then map[]
    else
      var last := segments[|segments| - 1];
      ChunkTimes(segments[..|segments| - 1], stage)[last.chunk := OwnTimes(last, stage)]
  }

  lemma {:induction false} ChunkTimesFrom(segments: seq<Segment>, stage: string, c: nat) returns (i: nat)
    requires c in ChunkTimes(segments, stage)
    ensures i < |segments| && segments[i].chunk == c
  {
    hide OwnTimes;
    var n := |segments| - 1;
    if c == segments[n].chunk {
      i := n;
    } else {
      i := ChunkTimesFrom(segments[..n], stage, c);
    }
  }

  lemma {:induction false} ChunkTimesOf(segments: seq<Segment>, stage: string, i: nat)
    requires DistinctChunks(segments) && i < |segments|
    ensures segments[i].chunk in ChunkTimes(segments, stage)
    ensures ChunkTimes(segments, stage)[segments[i].chunk] == OwnTimes(segments[i], stage)
  {
    hide OwnTimes;
    var n := |segments| - 1;
    if i < n {
      ChunkTimesOf(segments[..n], stage, i);
      assert segments[i].chunk != segments[n].chunk;
    }
  }

  lemma ChunkTimesAt(segments: seq<Segment>, stage: string)
    requires DistinctChunks(segments)
    ensures forall c :: c in ChunkTimes(segments, stage) <==> exists i :: 0 <= i < |segments| && segments[i].chunk == c
    ensures forall i :: 0 <= i < |segments| ==>
        && segments[i].chunk in ChunkTimes(segments, stage)
        && ChunkTimes(segments, stage)[segments[i].chunk] == OwnTimes(segments[i], stage)
  {
    hide OwnTimes, ChunkTimes;
    forall i | 0 <= i < |segments|
      ensures segments[i].chunk in ChunkTimes(segments, stage)
      ensures ChunkTimes(segments, stage)[segments[i].chunk] == OwnTimes(segments[i], stage)
    {
      ChunkTimesOf(segments, stage, i);
    }
    forall c | c in ChunkTimes(segments, stage)
      ensures exists i :: 0 <= i < |segments| && segments[i].chunk == c
    {
      var i := ChunkTimesFrom(segments, stage, c);
    }
  }

  lemma MergedHit(segments: seq<Segment>, i: nat, entry: bool, stage: string, k: string)
    requires DistinctChunks(segments) && i < |segments|
    requires k in Merged(segments) && ParseKey(k) == Hit(segments[i].chunk, entry, stage)
    ensures EventKey(entry, stage) in segments[i].trace && k == ChunkKey(segments[i].chunk, EventKey(entry, stage))
  {
    MergedKeys(segments, k);
    var j, other :| 0 <= j < |segments| && other in segments[j].trace && k == ChunkKey(segments[j].chunk, other);
    ParsedKeyIsPrinted(segments[j].chunk, other);
    assert i == j;
  }

  /** The merged dictionary tells, for a chunk, what that chunk's own trace says. */
  lemma MergedTells(segments: seq<Segment>, i: nat, entry: bool, stage: string, time: Option<Time>)
    requires DistinctChunks(segments) && i < |segments|
    requires Tells(Merged(segments), Hit(segments[i].chunk, entry, stage), time)
    ensures time == At(segments[i].trace, EventKey(entry, stage))
  {
    hide ParseKey, Merged, EventKey, ChunkKey;
    var h, key := Hit(segments[i].chunk, entry, stage), EventKey(entry, stage);
    PrintedKeyParses(segments[i].chunk, entry, stage);
    if key in segments[i].trace {
      MergedValue(segments, i, key);
    }
    if time.Some? {
      var k :| k in Merged(segments) && ParseKey(k) == h && Merged(segments)[k] == time.value;
      MergedHit(segments, i, entry, stage, k);
    }
  }

  /** And nothing of other chunks. */
  lemma MergedSilent(segments: seq<Segment>, chunk: nat, entry: bool, stage: string, time: Option<Time>)
    requires Tells(Merged(segments), Hit(chunk, entry, stage), time) && time.Some?
    ensures exists i :: 0 <= i < |segments| && segments[i].chunk == chunk
  {
    hide ParseKey, Merged, EventKey, ChunkKey;
    var k :| k in Merged(segments) && ParseKey(k) == Hit(chunk, entry, stage) && Merged(segments)[k] == time.value;
    MergedKeys(segments, k);
    var n, key :| 0 <= n < |segments| && key in segments[n].trace && k == ChunkKey(segments[n].chunk, key);
    ParsedKeyIsPrinted(segments[n].chunk, key);
  }

  /** What the parent trace has to be, in terms of the chunk traces. */
  ghost predicate IsParentTrace(segments: seq<Segment>, parent: Trace) {
    && (forall k :: k in parent ==> exists m, s :: k == MetricKey(m, s))
    && (forall s :: ParentStage(segments, parent, s))
  }

  ghost predicate ParentStage(segments: seq<Segment>, parent: Trace, s: string) {
    if CompleteChunks(ChunkTimes(segments, s)) == {} then forall m :: MetricKey(m, s) !in parent
    else StageAggregate(ChunkTimes(segments, s), parent, s)
  }

  /**
   What a table made of the merged dictionary holds of a stage is what the chunks' own traces say, but for empty
   entries.
   */
  lemma StageFromData(segments: seq<Segment>, data: StageData, s: string, i: nat)
    requires DistinctChunks(segments) && Matches(data, Merged(segments))
    ensures i in ChunkTimes(segments, s) ==> TimesIn(data, s, i) == ChunkTimes(segments, s)[i]
    ensures i !in ChunkTimes(segments, s) ==> TimesIn(data, s, i) == Times(None, None)
  {
    hide Tells, ChunkTimes, Merged;
    ChunkTimesAt(segments, s);
    var times := TimesIn(data, s, i);
    assert TellsTimes(Merged(segments), s, i, times);
    if i in ChunkTimes(segments, s) {
      var n :| 0 <= n < |segments| && segments[n].chunk == i;
      MergedTells(segments, n, true, s, times.entry);
      MergedTells(segments, n, false, s, times.exit);
    } else {
      if times.entry.Some? { MergedSilent(segments, i, true, s, times.entry); }
      if times.exit.Some? { MergedSilent(segments, i, false, s, times.exit); }
    }
  }

  function ChunksOf(data: StageData, s: string): map<nat, Times> {
    if s in data then data[s] else map[]
  }

  lemma SameComplete(segments: seq<Segment>, data: StageData, s: string)
    requires DistinctChunks(segments) && Matches(data, Merged(segments))
    ensures var (chunks, times) := (ChunksOf(data, s), ChunkTimes(segments, s));
            && CompleteChunks(chunks) == CompleteChunks(times)
            && (forall i :: i in CompleteChunks(chunks) ==> chunks[i] == times[i])
            && (SomeBroken(chunks) <==> SomeBroken(times))
  {
    hide Matches, ChunkTimes, Merged, Present;
    var (chunks, times) := (ChunksOf(data, s), ChunkTimes(segments, s));
    forall i: nat
      ensures TimesIn(data, s, i) == (if i in chunks then chunks[i] else Times(None, None))
      ensures TimesIn(data, s, i) == (if i in times then times[i] else Times(None, None))
    {
      StageFromData(segments, data, s, i);
    }
    NoTimes();
    forall i: nat
      ensures (i in chunks && chunks[i].Complete()) <==> (i in times && times[i].Complete())
      ensures i in chunks && chunks[i].Complete() ==> chunks[i] == times[i]
    {
      assert TimesIn(data, s, i) == (if i in chunks then chunks[i] else Times(None, None));
    }
    SameBroken(chunks, times);
  }

  lemma NoTimes()
    ensures !Times(None, None).Complete()
  {
  }

  lemma SameBroken(a: map<nat, Times>, b: map<nat, Times>)
    requires CompleteChunks(a) == CompleteChunks(b) && forall i :: i in CompleteChunks(a) ==> a[i] == b[i]
    ensures SomeBroken(a) <==> SomeBroken(b)
  {
    hide Present;
    forall i | i in a && a[i].Broken()
      ensures SomeBroken(b)
    {
      assert i in CompleteChunks(a);
    }
    forall i | i in b && b[i].Broken()
      ensures SomeBroken(a)
    {
      assert i in CompleteChunks(b);
    }
  }

  lemma AbsentStage(data: StageData, parent: Trace, s: string)
    requires IsAggregate(data, parent) && (s in data ==> CompleteChunks(data[s]) == {})
    ensures forall m :: MetricKey(m, s) !in parent
  {
    hide MetricKey, Summarizes, CompleteChunks;
    forall m
      ensures MetricKey(m, s) !in parent
    {
      if MetricKey(m, s) in parent {
        var m', s' :| IsMetric(data, m', s', MetricKey(m, s));
        MetricKeyInjective(m, s, m', s');
      }
    }
  }

  lemma StageOfParent(segments: seq<Segment>, data: StageData, parent: Trace, s: string)
    requires DistinctChunks(segments) && Matches(data, Merged(segments)) && IsAggregate(data, parent)
    ensures ParentStage(segments, parent, s)
  {
    hide Matches, MetricKey, Summarizes, CompleteChunks;
    SameComplete(segments, data, s);
    if s in data && CompleteChunks(data[s]) != {} {
      assert StageAggregate(data[s], parent, s);
      SummarySame(data[s], ChunkTimes(segments, s),
                  MetricOf(parent, First, s), MetricOf(parent, Last, s), MetricOf(parent, Busy, s));
    } else {
      EmptyIncomplete();
      AbsentStage(data, parent, s);
    }
  }

  lemma ParentFromData(segments: seq<Segment>, data: StageData, parent: Trace)
    requires DistinctChunks(segments) && Matches(data, Merged(segments)) && IsAggregate(data, parent)
    ensures IsParentTrace(segments, parent)
  {
    hide Matches, MetricKey, StageAggregate, CompleteChunks, ParentStage;
    forall k | k in parent
      ensures exists m, s :: k == MetricKey(m, s)
    {
      var m, s :| IsMetric(data, m, s, k);
    }
    forall s
      ensures ParentStage(segments, parent, s)
    {
      StageOfParent(segments, data, parent, s);
    }
  }

  lemma EmptyIncomplete()
    ensures CompleteChunks(map[]) == {}
  {
  }

  /** The inner loop that copies one segment's trace under prefixed keys. */
  method MergeSegment(before: Trace, segment: Segment) returns (merged: Trace)
    ensures merged == before + WithPrefix(segment.chunk, segment.trace)
  {
    hide WithPrefix, ChunkKey;
    merged := before;
    var todo := segment.trace.Keys;
    ghost var done: Trace := map[];
    NoPrefix(before, segment.chunk);
    while todo != {}
      invariant todo <= segment.trace.Keys && done.Keys == segment.trace.Keys - todo
      invariant forall k :: k in done ==> done[k] == segment.trace[k]
      invariant merged == before + WithPrefix(segment.chunk, done)
      decreases |todo|
    {
      var key :| key in todo;
      todo := todo - {key};
      CopyOne(before, segment.chunk, done, key, segment.trace[key]);
      done := done[key := segment.trace[key]];
      merged := merged[ChunkKey(segment.chunk, key) := segment.trace[key]];
    }
    assert done == segment.trace;
  }

  lemma CopyOne(before: Trace, chunk: nat, done: Trace, key: string, value: Time)
    ensures before + WithPrefix(chunk, done[key := value])
         == (before + WithPrefix(chunk, done))[ChunkKey(chunk, key) := value]
  {
    hide WithPrefix, ChunkKey;
    PrefixOneMore(chunk, done, key, value);
    UnionUpdate(before, WithPrefix(chunk, done), ChunkKey(chunk, key), value);
  }

  lemma NoPrefix(before: Trace, chunk: nat)
    ensures before + WithPrefix(chunk, map[]) == before
  {
  }

  /** Some chunk has, in some stage, an entry and an exit that cannot be subtracted. */
  ghost predicate BrokenSegments(segments: seq<Segment>) {
    exists s :: SomeBroken(ChunkTimes(segments, s))
  }

  /** The segment's own trace has such times. */
  ghost predicate OwnBroken(segment: Segment) {
    exists s :: OwnTimes(segment, s).Broken()
  }

  lemma BrokenSegment(segments: seq<Segment>)
    requires DistinctChunks(segments)
    ensures BrokenSegments(segments) <==> exists i :: 0 <= i < |segments| && OwnBroken(segments[i])
  {
    hide OwnTimes, ChunkTimes;
    forall s, c | c in ChunkTimes(segments, s) && ChunkTimes(segments, s)[c].Broken()
      ensures exists i :: 0 <= i < |segments| && OwnBroken(segments[i])
    {
      ChunkTimesAt(segments, s);
      var i :| 0 <= i < |segments| && segments[i].chunk == c;
      assert OwnBroken(segments[i]);
    }
    forall i, s | 0 <= i < |segments| && OwnTimes(segments[i], s).Broken()
      ensures SomeBroken(ChunkTimes(segments, s))
    {
      ChunkTimesAt(segments, s);
      assert segments[i].chunk in ChunkTimes(segments, s);
    }
    if i :| 0 <= i < |segments| && OwnBroken(segments[i]) {
      var s :| OwnTimes(segments[i], s).Broken();
      assert SomeBroken(ChunkTimes(segments, s));
    }
  }

  lemma BrokenFromData(segments: seq<Segment>, data: StageData)
    requires DistinctChunks(segments) && Matches(data, Merged(segments))
    ensures BrokenData(data) <==> BrokenSegments(segments)
  {
    hide Matches, ChunkTimes, Merged, SomeBroken;
    NoneBroken();
    forall s
      ensures (s in data && SomeBroken(data[s])) <==> SomeBroken(ChunkTimes(segments, s))
    {
      SameComplete(segments, data, s);
    }
  }

  lemma BrokenIsMerged(segments: seq<Segment>)
    requires DistinctChunks(segments)
    ensures MergedBroken(segments) <==> BrokenSegments(segments)
  {
    hide Matches, BrokenData, BrokenSegments, Merged;
    forall data | Matches(data, Merged(segments))
      ensures BrokenData(data) <==> BrokenSegments(segments)
    {
      BrokenFromData(segments, data);
    }
    var data := MergedTable(segments);
  }

  /** There is a table that holds what the merged dictionary tells. */
  lemma MergedTable(segments: seq<Segment>) returns (data: StageData)
    ensures Matches(data, Merged(segments))
  {
    data := Table(Merged(segments));
  }

  lemma {:induction false} Table(t: Trace) returns (data: StageData)
    ensures Matches(data, t)
    decreases |t|
  {
    if t == map[] {
      data := map[];
    } else {
      hide Matches, ParseKey;
      var k :| k in t;
      var rest := t - {k};
      var before := Table(rest);
      SeenGrows(before, rest, k, t[k]);
      data := if ParseKey(k).Hit? then AddEvent(before, ParseKey(k), t[k]) else before;
      assert rest[k := t[k]] == t;
    }
  }

  lemma NoneBroken()
    ensures !SomeBroken(map[])
  {
  }

  /** The merged dictionary has such times. */
  ghost predicate MergedBroken(segments: seq<Segment>) {
    exists data :: Matches(data, Merged(segments)) && BrokenData(data)
  }

  lemma BrokenTimes(data: StageData)
    ensures BrokenData(data) <==> exists s, i: nat :: TimesIn(data, s, i).Broken()
  {
    hide Present;
    NoTimes();
    if BrokenData(data) {
      var s :| s in data && SomeBroken(data[s]);
      var i :| i in data[s] && data[s][i].Broken();
      assert TimesIn(data, s, i).Broken();
    }
    if s, i: nat :| TimesIn(data, s, i).Broken() {
      assert SomeBroken(data[s]);
    }
  }

  /** The merged dictionary decides: all tables that hold what it tells are broken, or none. */
  lemma BrokenUnique(segments: seq<Segment>, data: StageData, other: StageData)
    requires Matches(data, Merged(segments)) && Matches(other, Merged(segments))
    ensures BrokenData(data) <==> BrokenData(other)
  {
    hide Tells, Unambiguous, BrokenData, Merged;
    MergedUnambiguous(segments);
    BrokenTimes(data);
    BrokenTimes(other);
    forall s, i
      ensures TimesIn(data, s, i) == TimesIn(other, s, i)
    {
      var a, b := TimesIn(data, s, i), TimesIn(other, s, i);
      assert TellsTimes(Merged(segments), s, i, a) && TellsTimes(Merged(segments), s, i, b);
      TellsOnce(Merged(segments), Hit(i, true, s), a.entry, b.entry);
      TellsOnce(Merged(segments), Hit(i, false, s), a.exit, b.exit);
    }
  }

  /**
   The last part of _build_aggregated_response: the segments merged and aggregated; no segments, no trace; None when a
   difference cannot be taken. With distinct chunk indices each chunk's own trace decides.
   */
  method ParentTraces(segments: seq<Segment>) returns (parent: Option<Trace>)
    ensures parent.None? <==> MergedBroken(segments)
    ensures DistinctChunks(segments) ==>
      (parent.None? <==> BrokenSegments(segments)) && (parent.Some? ==> IsParentTrace(segments, parent.value))
  {
    hide IsParentTrace, IsAggregate, Matches, WithPrefix, BrokenData, BrokenSegments;
    var merged: Trace := map[];
    for n := 0 to |segments|
      invariant merged == Merged(segments[..n])
    {
      assert segments[..n + 1][..n] == segments[..n];
      merged := MergeSegment(merged, segments[n]);
    }
    assert segments[..|segments|] == segments;
    parent := AggregateParentTraces(merged);
    OutcomeIsBroken(segments, parent);
    if DistinctChunks(segments) { OutcomeOfSegments(segments, parent); }
  }

  lemma OutcomeIsBroken(segments: seq<Segment>, parent: Option<Trace>)
    requires IsOutcomeOf(Merged(segments), parent)
    ensures parent.None? <==> MergedBroken(segments)
  {
    hide IsAggregate, Matches, BrokenData, Merged;
    var data :| Matches(data, Merged(segments)) && IsOutcome(data, parent);
    forall other | Matches(other, Merged(segments))
      ensures BrokenData(data) <==> BrokenData(other)
    {
      BrokenUnique(segments, data, other);
    }
  }

  /** For distinct chunks the outcome is that of the chunks' own traces. */
  lemma OutcomeOfSegments(segments: seq<Segment>, parent: Option<Trace>)
    requires DistinctChunks(segments) && IsOutcomeOf(Merged(segments), parent)
    ensures (parent.None? <==> BrokenSegments(segments)) && (parent.Some? ==> IsParentTrace(segments, parent.value))
  {
    hide IsParentTrace, IsAggregate, Matches, BrokenData, BrokenSegments, Merged;
    ghost var data :| Matches(data, Merged(segments)) && IsOutcome(data, parent);
    BrokenFromData(segments, data);
    if parent.Some? { ParentFromData(segments, data, parent.value); }
  }

  // --- what follows for the parent trace --------------------------------------------------------------------

  lemma AllMetrics(m: Metric)
    ensures m.First? || m.Last? || m.Busy?
  {
  }

  lemma MetricsUnique(chunks: map<nat, Times>, p: Trace, p': Trace, s: string, m: Metric)
    requires StageAggregate(chunks, p, s) && StageAggregate(chunks, p', s)
    ensures HasMetric(p, m, s) && HasMetric(p', m, s) && p[MetricKey(m, s)] == p'[MetricKey(m, s)]
  {
    hide MetricKey, Summarizes;
    SummaryUnique(chunks, MetricOf(p, First, s), MetricOf(p, Last, s), MetricOf(p, Busy, s),
                  MetricOf(p', First, s), MetricOf(p', Last, s), MetricOf(p', Busy, s));
    AllMetrics(m);
  }

  /** The chunk traces determine the parent trace. */
  lemma ParentTraceUnique(segments: seq<Segment>, p: Trace, p': Trace)
    requires IsParentTrace(segments, p) && IsParentTrace(segments, p')
    ensures p == p'
  {
    hide MetricKey, StageAggregate, CompleteChunks, ChunkTimes;
    forall m, s
      ensures MetricKey(m, s) in p <==> MetricKey(m, s) in p'
      ensures MetricKey(m, s) in p ==> p[MetricKey(m, s)] == p'[MetricKey(m, s)]
    {
      assert ParentStage(segments, p, s) && ParentStage(segments, p', s);
      var chunks := ChunkTimes(segments, s);
      if CompleteChunks(chunks) != {} { MetricsUnique(chunks, p, p', s, m); }
    }
    assert forall k :: k in p <==> k in p';
  }

  /** The parent trace does not depend on the order of the segments. */
  lemma OrderIrrelevant(segments: seq<Segment>, reordered: seq<Segment>, parent: Trace)
    requires DistinctChunks(segments) && DistinctChunks(reordered)
    requires multiset(segments) == multiset(reordered) && IsParentTrace(segments, parent)
    ensures IsParentTrace(reordered, parent) && (BrokenSegments(segments) <==> BrokenSegments(reordered))
  {
    hide ChunkTimes, SomeBroken, StageAggregate, CompleteChunks, MetricKey;
    forall s
      ensures ParentStage(reordered, parent, s) && ChunkTimes(segments, s) == ChunkTimes(reordered, s)
    {
      assert ParentStage(segments, parent, s);
      SameChunkTimes(segments, reordered, s);
    }
  }

  lemma SameChunkTimes(segments: seq<Segment>, reordered: seq<Segment>, s: string)
    requires DistinctChunks(segments) && DistinctChunks(reordered) && multiset(segments) == multiset(reordered)
    ensures ChunkTimes(segments, s) == ChunkTimes(reordered, s)
  {
    hide ChunkTimes, OwnTimes;
    ChunkTimesAt(segments, s);
    ChunkTimesAt(reordered, s);
    var a, b := ChunkTimes(segments, s), ChunkTimes(reordered, s);
    forall c
      ensures c in a <==> c in b
      ensures c in a ==> a[c] == b[c]
    {
      if c in a {
        var i :| 0 <= i < |segments| && segments[i].chunk == c;
        assert segments[i] in multiset(reordered);
        var j :| 0 <= j < |reordered| && reordered[j] == segments[i];
      }
      if c in b {
        var j :| 0 <= j < |reordered| && reordered[j].chunk == c;
        assert reordered[j] in multiset(segments);
        var i :| 0 <= i < |segments| && segments[i] == reordered[j];
      }
    }
  }
}
