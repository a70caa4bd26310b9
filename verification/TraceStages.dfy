/**
 The events of chunk traces grouped by stage and chunk, and the metrics of one stage (the two passes of
 _aggregate_parent_traces in v2/ingest.py).
 */
module TraceStages {
  import opened Sequences
  import opened PyStrings
  import opened TraceTimes
  import opened TraceKeys

  /** Neither missing nor null. */
  predicate Present(time: Option<Time>) {
    time.Some? && !time.value.Null?
  }

  function Ticks(time: Option<Time>): int {
    if time.Some? && time.value.Number? then time.value.n else 0
  }

  /** The entry and the exit of a chunk in a stage. */
  datatype Times = Times(entry: Option<Time>, exit: Option<Time>)
  {
    predicate Complete() { Present(entry) && Present(exit) }

    /** Complete, but no difference can be taken. */
    predicate Broken() { Complete() && !(entry.value.Number? && exit.value.Number?) }
  }

  /** A chunk counts in a stage when neither time is missing or null, and fails it when one is no number then. */
  lemma TimesMean(times: Times)
    ensures times.Complete() <==>
      times.entry != None && times.entry != Some(Null) && times.exit != None && times.exit != Some(Null)
    ensures times.Broken() <==> times.Complete() && !(times.entry.value.Number? && times.exit.value.Number?)
  {
  }

  type StageData = map<string, map<nat, Times>>

  // --- grouping ---------------------------------------------------------------------------------------------

  /** No two keys report the same event of the same chunk in the same stage. */
  ghost predicate Unambiguous(t: Trace) {
    forall k, k' :: k in t && k' in t && ParseKey(k).Hit? && ParseKey(k) == ParseKey(k') ==> k == k'
  }

  /** time is what a key of t says of this event, or nothing when no key speaks of it. */
  ghost predicate Tells(t: Trace, h: Parsed, time: Option<Time>) {
    if time.None? then forall k :: k in t ==> ParseKey(k) != h
    else exists k :: k in t && ParseKey(k) == h && t[k] == time.value
  }

  ghost predicate TellsTimes(t: Trace, stage: string, chunk: nat, times: Times) {
    Tells(t, Hit(chunk, true, stage), times.entry) && Tells(t, Hit(chunk, false, stage), times.exit)
  }

  function TimesIn(data: StageData, stage: string, chunk: nat): Times {
    if stage in data && chunk in data[stage] then data[stage][chunk] else Times(None, None)
  }

  /** The table holds, for every stage and chunk, what the trace tells. */
  ghost predicate Matches(data: StageData, t: Trace) {
    forall s, i :: TellsTimes(t, s, i, TimesIn(data, s, i))
  }

  lemma TellsOnce(t: Trace, h: Parsed, time: Option<Time>, other: Option<Time>)
    requires Unambiguous(t) && h.Hit? && Tells(t, h, time) && Tells(t, h, other)
    ensures time == other
  {
  }

  lemma TellsMore(seen: Trace, k: string, time: Time, h: Parsed, told: Option<Time>)
    requires k !in seen && Tells(seen, h, told)
    ensures Tells(seen[k := time], h, if ParseKey(k) == h then Some(time) else told)
  {
    hide ParseKey;
    var grown := seen[k := time];
    if ParseKey(k) == h {
      assert k in grown;
    } else if told.Some? {
      var x :| x in seen && ParseKey(x) == h && seen[x] == told.value;
      assert x in grown && grown[x] == told.value;
    }
  }

  /** One event noted under its stage and chunk. */
  function AddEvent(data: StageData, h: Parsed, time: Time): StageData
    requires h.Hit?
  {
    var chunks := if h.stage in data then data[h.stage] else map[];
    var times := if h.chunk in chunks then chunks[h.chunk] else Times(None, None);
    data[h.stage := chunks[h.chunk := if h.entry then times.(entry := Some(time)) else times.(exit := Some(time))]]
  }

  lemma AddEventTimes(data: StageData, h: Parsed, time: Time, s: string, i: nat)
    requires h.Hit?
    ensures var times := TimesIn(data, s, i);
            TimesIn(AddEvent(data, h, time), s, i)
            == if s != h.stage || i != h.chunk then times
               else if h.entry then times.(entry := Some(time)) else times.(exit := Some(time))
  {
    if s != h.stage && s in data { UpdateElsewhere(data, h.stage, AddEvent(data, h, time)[h.stage], s); }
  }

  lemma SeenGrows(data: StageData, seen: Trace, k: string, time: Time)
    requires k !in seen && Matches(data, seen)
    ensures Matches(if ParseKey(k).Hit? then AddEvent(data, ParseKey(k), time) else data, seen[k := time])
  {
    hide ParseKey, Tells, AddEvent;
    var h := ParseKey(k);
    var grown := if h.Hit? then AddEvent(data, h, time) else data;
    forall s, i
      ensures TellsTimes(seen[k := time], s, i, TimesIn(grown, s, i))
    {
      assert TellsTimes(seen, s, i, TimesIn(data, s, i));
      TellsMore(seen, k, time, Hit(i, true, s), TimesIn(data, s, i).entry);
      TellsMore(seen, k, time, Hit(i, false, s), TimesIn(data, s, i).exit);
      if h.Hit? { AddEventTimes(data, h, time, s, i); }
    }
  }

  /**
   The first pass: the events grouped by stage and chunk, in whatever order the keys come; the last of an event stays.
   */
  method CollectStages(t: Trace) returns (data: StageData)
    ensures Matches(data, t)
  {
    hide Matches, ParseKey, AddEvent;
    data := map[];
    var todo := t.Keys;
    ghost var seen: Trace := map[];
    NothingSeen();
    while todo != {}
      invariant todo <= t.Keys && seen.Keys == t.Keys - todo
      invariant forall k :: k in seen ==> seen[k] == t[k]
      invariant Matches(data, seen)
      decreases |todo|
    {
      var key :| key in todo;
      todo := todo - {key};
      SeenGrows(data, seen, key, t[key]);
      var h := ParseKey(key);
      if h.Hit? {
        data := AddEvent(data, h, t[key]);
      }
      seen := seen[key := t[key]];
    }
    assert seen == t;
  }

  lemma NothingSeen()
    ensures Matches(map[], map[])
  {
  }

  // --- the metrics of one stage -------------------------------------------------------------------------------

  function CompleteChunks(chunks: map<nat, Times>): set<nat> {
    set i | i in chunks && chunks[i].Complete()
  }

  ghost predicate SomeBroken(chunks: map<nat, Times>) {
    exists i :: i in chunks && chunks[i].Broken()
  }

  ghost function Durations(chunks: map<nat, Times>): map<nat, int> {
    map i | i in CompleteChunks(chunks) :: Ticks(chunks[i].exit) - Ticks(chunks[i].entry)
  }

  ghost function Total(m: map<nat, int>): int {
    if m == map[] then 0 else
      var i :| i in m;
      m[i] + Total(m - {i})
  }

  lemma {:induction false} TotalAny(m: map<nat, int>, i: nat)
    requires i in m
    ensures Total(m) == m[i] + Total(m - {i})
  {
    var j :| j in m && Total(m) == m[j] + Total(m - {j});
    if i != j {
      TotalAny(m - {j}, i);
      TotalAny(m - {i}, j);
      assert m - {i} - {j} == m - {j} - {i};
    }
  }

  /** Earliest entry, latest exit and summed durations of the complete chunks. */
  ghost predicate Summarizes(chunks: map<nat, Times>, entry: int, exit: int, resident: int) {
    && (exists i :: i in CompleteChunks(chunks) && Ticks(chunks[i].entry) == entry)
    && (forall i :: i in CompleteChunks(chunks) ==> entry <= Ticks(chunks[i].entry))
    && (exists i :: i in CompleteChunks(chunks) && Ticks(chunks[i].exit) == exit)
    && (forall i :: i in CompleteChunks(chunks) ==> Ticks(chunks[i].exit) <= exit)
    && resident == Total(Durations(chunks))
  }

  /** One more complete chunk, folded into the metrics of the others. */
  lemma SummaryGrows(before: map<nat, Times>, after: map<nat, Times>, i: nat, entry: int, exit: int, resident: int)
    requires i in after && i !in before && before == after - {i} && after[i].Complete()
    requires CompleteChunks(before) != {} ==> Summarizes(before, entry, exit, resident)
    requires CompleteChunks(before) == {} ==>
      entry == Ticks(after[i].entry) && exit == Ticks(after[i].exit) && resident == 0
    ensures Summarizes(after, Min(entry, Ticks(after[i].entry)), Max(exit, Ticks(after[i].exit)),
                       resident + Ticks(after[i].exit) - Ticks(after[i].entry))
  {
    hide Ticks, Present;
    assert CompleteChunks(after) == CompleteChunks(before) + {i};
    TotalAny(Durations(after), i);
    hide Total;
    assert Durations(after) - {i} == Durations(before);
    if CompleteChunks(before) == {} {
      assert Durations(before) == map[];
      EmptyTotal();
    }
  }

  lemma EmptyTotal()
    ensures Total(map[]) == 0
  {
  }

  /**
   The inner loop of the second pass: the metrics of one stage; it raises when some chunk's times cannot be subtracted.
   */
  method SummarizeStage(chunks: map<nat, Times>) returns (raised: bool, found: bool, entry: int, exit: int,
                                                          resident: int)
    ensures raised <==> SomeBroken(chunks)
    ensures !raised ==> (found <==> CompleteChunks(chunks) != {})
    ensures !raised && found ==> Summarizes(chunks, entry, exit, resident)
  {
    hide Summarizes, Durations, Total, Present;
    raised, found, entry, exit, resident := false, false, 0, 0, 0;
    var todo := chunks.Keys;
    ghost var done: map<nat, Times> := map[];
    while todo != {}
      invariant todo <= chunks.Keys && done.Keys == chunks.Keys - todo
      invariant forall i :: i in done ==> done[i] == chunks[i] && !chunks[i].Broken()
      invariant found <==> CompleteChunks(done) != {}
      invariant if found then Summarizes(done, entry, exit, resident) else resident == 0
      decreases |todo|
    {
      var i :| i in todo;
      todo := todo - {i};
      ghost var before := done;
      done := done[i := chunks[i]];
      assert before == done - {i};
      var times := chunks[i];
      if times.Complete() {
        if times.Broken() { return true, found, entry, exit, resident; }
        var from, to := Ticks(times.entry), Ticks(times.exit);
        if !found {
          entry, exit := from, to;
        }
        SummaryGrows(before, done, i, entry, exit, resident);
        assert i in CompleteChunks(done);
        entry, exit, resident := Min(entry, from), Max(exit, to), resident + to - from;
        found := true;
      } else {
        SummaryIgnores(before, done, i);
        if found { SummarySame(before, done, entry, exit, resident); }
      }
    }
    assert done == chunks;
  }

  lemma SummaryIgnores(before: map<nat, Times>, after: map<nat, Times>, i: nat)
    requires i in after && i !in before && before == after - {i} && !after[i].Complete()
    ensures CompleteChunks(after) == CompleteChunks(before)
  {
  }

  /** The metrics depend on the complete chunks only. */
  lemma SummarySame(a: map<nat, Times>, b: map<nat, Times>, entry: int, exit: int, resident: int)
    requires CompleteChunks(a) == CompleteChunks(b) && forall i :: i in CompleteChunks(a) ==> a[i] == b[i]
    ensures Summarizes(a, entry, exit, resident) == Summarizes(b, entry, exit, resident)
  {
    assert Durations(a) == Durations(b);
    hide Total, Ticks, Present;
  }

  lemma SummaryUnique(chunks: map<nat, Times>, e: int, x: int, r: int, e': int, x': int, r': int)
    requires Summarizes(chunks, e, x, r) && Summarizes(chunks, e', x', r')
    ensures e == e' && x == x' && r == r'
  {
  }

  /** When no chunk leaves a stage before entering it, the busy time is at most the span times the number of chunks. */
  lemma ResidentBound(chunks: map<nat, Times>, entry: int, exit: int, resident: int)
    requires Summarizes(chunks, entry, exit, resident)
    requires forall i :: i in CompleteChunks(chunks) ==> Ticks(chunks[i].entry) <= Ticks(chunks[i].exit)
    ensures 0 <= resident <= |CompleteChunks(chunks)| * (exit - entry)
  {
    hide Total, Ticks;
    assert Durations(chunks).Keys == CompleteChunks(chunks);
    TotalBound(Durations(chunks), exit - entry);
  }

  lemma {:induction false} TotalBound(m: map<nat, int>, bound: int)
    requires forall i :: i in m ==> 0 <= m[i] <= bound
    ensures 0 <= Total(m) <= |m.Keys| * bound
    decreases |m|
  {
    if m != map[] {
      var i :| i in m && Total(m) == m[i] + Total(m - {i});
      hide Total;
      var rest := m - {i};
      TotalBound(rest, bound);
      assert rest.Keys == m.Keys - {i};
      OneMore(|rest.Keys|, bound);
      assert |m.Keys| == |rest.Keys| + 1;
    }
  }

  lemma OneMore(n: nat, bound: int)
    ensures (n + 1) * bound == n * bound + bound
  {
  }
}
