/** Trace dictionaries and the client's resident times (_compute_resident_times in client.py). */
module TraceTimes {
  import opened Sequences
  import opened PyStrings

  /** The value of a trace key: a number, null, or something no difference can be taken of. */
  datatype Time = Number(n: int) | Null | Other(text: string)

  type Trace = map<string, Time>

  const ENTRY := "trace::entry::"
  const EXIT := "trace::exit::"
  const RESIDENT := "trace::resident_time::"

  function ResidentKey(stage: string): string {
    RESIDENT + stage
  }

  predicate IsResident(key: string) {
    RESIDENT <= key
  }

  lemma ResidentKeyInjective(s: string, s': string)
    ensures IsResident(ResidentKey(s))
    ensures ResidentKey(s) == ResidentKey(s') ==> s == s'
  {
    assert ResidentKey(s)[|RESIDENT|..] == s && ResidentKey(s')[|RESIDENT|..] == s';
  }

  /** Stage names as the client reads them off the keys: every occurrence of the prefix is removed. */
  function StageNames(keys: set<string>): set<string> {
    set k | k in keys && ENTRY <= k :: RemoveAll(k, ENTRY)
  }

  predicate CompletePair(t: Trace, stage: string) {
    ENTRY + stage in t && EXIT + stage in t
  }

  predicate NumericPair(t: Trace, stage: string) {
    CompletePair(t, stage) && t[ENTRY + stage].Number? && t[EXIT + stage].Number?
  }

  function Elapsed(t: Trace, stage: string): Time
    requires NumericPair(t, stage)
  {
    Number(t[EXIT + stage].n - t[ENTRY + stage].n)
  }

  predicate HasResident(t: Trace) {
    exists k :: k in t && IsResident(k)
  }

  /** The client computes resident times, and for one stage it would have to subtract what is not a number. */
  predicate Faulty(t: Trace) {
    !HasResident(t) && exists s :: s in StageNames(t.Keys) && CompletePair(t, s) && !NumericPair(t, s)
  }

  /** A resident time for each of the stages that has both ends. */
  function ResidentPart(t: Trace, stages: set<string>): Trace {
    assert forall s, s' :: ResidentKey(s) == ResidentKey(s') ==> s == s' by {
      forall s, s' | ResidentKey(s) == ResidentKey(s') { ResidentKeyInjective(s, s'); }
    }
    map s | s in stages && NumericPair(t, s) :: ResidentKey(s) := Elapsed(t, s)
  }

  /** The trace with those resident times, unless the server already put some in. */
  function ResidentTimes(t: Trace): Trace {
    if exists k :: k in t && IsResident(k) then t else t + ResidentPart(t, StageNames(t.Keys))
  }

  /**
   Only resident times are added: what the trace says stays, and the added keys are those of the named, paired stages.
   */
  lemma ResidentTimesAt(t: Trace, stage: string)
    requires !HasResident(t)
    ensures ResidentKey(stage) in ResidentTimes(t) <==> stage in StageNames(t.Keys) && NumericPair(t, stage)
    ensures stage in StageNames(t.Keys) && NumericPair(t, stage) ==>
      ResidentTimes(t)[ResidentKey(stage)] == Elapsed(t, stage)
    ensures forall k :: k in t ==> k in ResidentTimes(t) && ResidentTimes(t)[k] == t[k]
  {
    hide ResidentKey, IsResident, NumericPair, StageNames, Elapsed;
    forall s
      ensures IsResident(ResidentKey(s)) && (ResidentKey(s) == ResidentKey(stage) ==> s == stage)
    {
      ResidentKeyInjective(s, stage);
    }
  }

  lemma OneMoreStage(t: Trace, stages: set<string>, s: string)
    ensures ResidentPart(t, stages + {s}) ==
            if NumericPair(t, s) then ResidentPart(t, stages)[ResidentKey(s) := Elapsed(t, s)]
            else ResidentPart(t, stages)
  {
    hide ResidentKey, IsResident, NumericPair, Elapsed;
    forall x
      ensures ResidentKey(x) == ResidentKey(s) ==> x == s
    {
      ResidentKeyInjective(x, s);
    }
    if NumericPair(t, s) { assert s in stages + {s}; }
    var a := ResidentPart(t, stages + {s});
    var b := if NumericPair(t, s) then ResidentPart(t, stages)[ResidentKey(s) := Elapsed(t, s)]
             else ResidentPart(t, stages);
    assert a.Keys == b.Keys;
  }

  /** _compute_resident_times, with the stages in any order; None when a difference cannot be taken. */
  method ComputeResidentTimes(t: Trace) returns (result: Option<Trace>)
    ensures result == if Faulty(t) then None else Some(ResidentTimes(t))
  {
    hide ResidentKey, IsResident, CompletePair, NumericPair, StageNames, Elapsed, ResidentPart;
    if exists k :: k in t && IsResident(k) {
      return Some(t);
    }
    var times := t;
    var stages := StageNames(t.Keys);
    var todo := stages;
    NoStages(t);
    while todo != {}
      invariant todo <= stages
      invariant forall s :: s in stages - todo && CompletePair(t, s) ==> NumericPair(t, s)
      invariant times == t + ResidentPart(t, stages - todo)
      decreases |todo|
    {
      var s :| s in todo;
      OneMoreStage(t, stages - todo, s);
      assert stages - (todo - {s}) == stages - todo + {s};
      PairEnds(t, s);
      if CompletePair(t, s) {
        if !NumericPair(t, s) { return None; }
        UnionUpdate(t, ResidentPart(t, stages - todo), ResidentKey(s), Elapsed(t, s));
        times := times[ResidentKey(s) := Elapsed(t, s)];
      }
      todo := todo - {s};
    }
    assert stages - todo == stages;
    return Some(times);
  }

  lemma PairEnds(t: Trace, s: string)
    ensures NumericPair(t, s) ==> CompletePair(t, s)
  {
  }

  lemma NoStages(t: Trace)
    ensures forall s: set<string> :: s == {} ==> ResidentPart(t, s) == map[]
  {
  }
}
