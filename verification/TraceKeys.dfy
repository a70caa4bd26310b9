/**
 The keys under which chunk traces are merged: "chunk_<i>::" put before a trace key, and how
 _aggregate_parent_traces (v2/ingest.py) reads chunk, event and stage back from them.
 */
module TraceKeys {
  import opened Sequences
  import opened PyStrings
  import opened TraceTimes

  /** What a key says: nothing the aggregation uses, or the entry or exit of a chunk in a stage. */
  datatype Parsed = Skip | Hit(chunk: nat, entry: bool, stage: string)

  function ChunkKey(chunk: nat, key: string): string {
    "chunk_" + Decimal(chunk) + "::" + key
  }

  /** The key of an entry or an exit of a stage, inside one chunk's trace. */
  function EventKey(entry: bool, stage: string): string {
    (if entry then ENTRY else EXIT) + stage
  }

  lemma ChunkPartSplits(key: string)
    requires "chunk_" <= key
    ensures "chunk_" <= Split(key, "::")[0]
    ensures |Split(Split(key, "::")[0], "_")| >= 2
  {
    var rest := key[6..];
    assert key == "chunk_" + rest;
    var parts := Split(rest, "::");
    PrependToSplit("chunk_", rest, "::");
    assert Split(key, "::")[0] == "chunk" + "_" + parts[0];
    SplitPrefix("chunk", parts[0], "_");
  }

  /** Text without the separator's first character only lengthens the first piece. */
  lemma {:induction false} PrependToSplit(a: string, s: string, sep: string)
    requires sep != "" && sep[0] !in a
    ensures Split(a + s, sep) == [a + Split(s, sep)[0]] + Split(s, sep)[1..]
  {
    if a == "" {
      assert a + s == s && "" + Split(s, sep)[0] == Split(s, sep)[0];
    } else {
      assert (a + s)[0] == a[0] && a[0] in a && (a + s)[1..] == a[1..] + s;
      PrependToSplit(a[1..], s, sep);
      assert [a[0]] + (a[1..] + Split(s, sep)[0]) == a + Split(s, sep)[0];
    }
  }

  function ParseKey(key: string): Parsed {
    if !("chunk_" <= key) then Skip
    else
      ChunkPartSplits(key);
      var parts := Split(key, "::");
      if |parts| < 4 || parts[1] != "trace" then Skip
      else match ParseDecimal(Split(parts[0], "_")[1])
        case None => Skip
        case Some(chunk) =>
          if parts[2] != "entry" && parts[2] != "exit" then Skip
          else Hit(chunk, parts[2] == "entry", Join(parts[3..], "::"))
  }

  lemma EventKeySplits(entry: bool, stage: string)
    ensures Split(EventKey(entry, stage), "::") == ["trace", if entry then "entry" else "exit"] + Split(stage, "::")
  {
    hide Split;
    var event := if entry then "entry" else "exit";
    assert EventKey(entry, stage) == "trace" + "::" + (event + "::" + stage);
    SplitPrefix("trace", event + "::" + stage, "::");
    SplitPrefix(event, stage, "::");
  }

  lemma SplitIsEventKey(key: string, entry: bool)
    requires var parts := Split(key, "::");
             |parts| >= 3 && parts[0] == "trace" && parts[1] == if entry then "entry" else "exit"
    ensures key == EventKey(entry, Join(Split(key, "::")[2..], "::"))
  {
    hide Split;
    var parts := Split(key, "::");
    JoinSplit(key, "::");
    assert parts[1..][1..] == parts[2..];
    assert Join(parts, "::") == "trace" + "::" + (parts[1] + "::" + Join(parts[2..], "::"));
  }

  lemma ChunkKeySplits(chunk: nat, key: string)
    ensures Split(ChunkKey(chunk, key), "::") == ["chunk_" + Decimal(chunk)] + Split(key, "::")
    ensures Split("chunk_" + Decimal(chunk), "_") == ["chunk", Decimal(chunk)]
  {
    SplitPrefix("chunk_" + Decimal(chunk), key, "::");
    assert ChunkKey(chunk, key) == "chunk_" + Decimal(chunk) + "::" + key;
    SplitPrefix("chunk", Decimal(chunk), "_");
    assert "chunk" + "_" + Decimal(chunk) == "chunk_" + Decimal(chunk);
    SplitNoSeparator(Decimal(chunk), "_");
  }

  /** What a merged key says depends on the pieces of the key it was made from. */
  lemma ParseChunkKey(chunk: nat, key: string)
    ensures var inner := Split(key, "::");
            ParseKey(ChunkKey(chunk, key)) ==
            if |inner| >= 3 && inner[0] == "trace" && (inner[1] == "entry" || inner[1] == "exit")
            then Hit(chunk, inner[1] == "entry", Join(inner[2..], "::")) else Skip
  {
    ChunkKeySplits(chunk, key);
    ParsePrinted(chunk);
    var parts, inner := Split(ChunkKey(chunk, key), "::"), Split(key, "::");
    assert "chunk_" <= ChunkKey(chunk, key);
    assert parts[0] == "chunk_" + Decimal(chunk);
    if |parts| >= 4 { assert parts[3..] == inner[2..]; }
  }

  /**
   A printed entry or exit parses back to its chunk, event and stage, whatever the stage name is (":" and "::"
   included).
   */
  lemma PrintedKeyParses(chunk: nat, entry: bool, stage: string)
    ensures ParseKey(ChunkKey(chunk, EventKey(entry, stage))) == Hit(chunk, entry, stage)
  {
    ParseChunkKey(chunk, EventKey(entry, stage));
    EventKeySplits(entry, stage);
    JoinSplit(stage, "::");
    assert Split(EventKey(entry, stage), "::")[2..] == Split(stage, "::");
  }

  /** A merged key that parses to an entry or exit of a stage was made from just that trace key. */
  lemma ParsedKeyIsPrinted(chunk: nat, key: string)
    ensures match ParseKey(ChunkKey(chunk, key))
            case Skip => !(ENTRY <= key) && !(EXIT <= key)
            case Hit(c, entry, stage) => c == chunk && key == EventKey(entry, stage)
  {
    ParseChunkKey(chunk, key);
    if ParseKey(ChunkKey(chunk, key)).Hit? {
      SplitIsEventKey(key, Split(key, "::")[1] == "entry");
    } else if ENTRY <= key {
      assert key == EventKey(true, key[|ENTRY|..]);
      PrintedKeyParses(chunk, true, key[|ENTRY|..]);
    } else if EXIT <= key {
      assert key == EventKey(false, key[|EXIT|..]);
      PrintedKeyParses(chunk, false, key[|EXIT|..]);
    }
  }

  /** Different chunks, or different keys of one chunk, never print to the same merged key. */
  lemma ChunkKeyInjective(c: nat, k: string, c': nat, k': string)
    requires ChunkKey(c, k) == ChunkKey(c', k')
    ensures c == c' && k == k'
  {
    ChunkKeySplits(c, k);
    ChunkKeySplits(c', k');
    ParsePrinted(c);
    ParsePrinted(c');
    assert "chunk_" + Decimal(c) == Split(ChunkKey(c, k), "::")[0] == "chunk_" + Decimal(c');
    assert Decimal(c) == ("chunk_" + Decimal(c))[6..] == Decimal(c');
    var n := |"chunk_" + Decimal(c) + "::"|;
    assert k == ChunkKey(c, k)[n..] == k';
  }
}
