/** A list over the lines of a file, by an index of line starts (LazyLoadedList in client/interface.py). */
module LazyLoadedList {
  import opened Sequences

  type Bytes = seq<bv8>

  const LF: bv8 := 10
  const CR: bv8 := 13

  /** The file as a call finds it. */
  datatype File = NotFound | Unreadable | Content(bytes: Bytes)

  // --- reading in binary: only LF ends a line -------------------------------------------------------------

  function LineEnd(s: Bytes, i: nat): (end: nat)
    requires i <= |s|
    ensures i <= end <= |s| && (i < |s| ==> i < end)
    decreases |s| - i
  {
    if i == |s| then i else if s[i] == LF then i + 1 else LineEnd(s, i + 1)
  }

  /** seek(i), then readline(). */
  function ReadLine(s: Bytes, i: nat): Bytes
    requires i <= |s|
  {
    s[i..LineEnd(s, i)]
  }

  function Lines(s: Bytes, i: nat): seq<Bytes>
    requires i <= |s|
    decreases |s| - i
  {
    if i == |s| then [] else [ReadLine(s, i)] + Lines(s, LineEnd(s, i))
  }

  function Starts(s: Bytes, i: nat): seq<nat>
    requires i <= |s|
    decreases |s| - i
  {
    if i == |s| then [] else [i] + Starts(s, LineEnd(s, i))
  }

  /** The line at the k-th recorded offset is the k-th line. */
  lemma {:induction false} StartReadsLine(s: Bytes, i: nat, k: nat)
    requires i <= |s| && k < |Starts(s, i)|
    ensures |Starts(s, i)| == |Lines(s, i)|
    ensures Starts(s, i)[k] < |s| && ReadLine(s, Starts(s, i)[k]) == Lines(s, i)[k]
    decreases |s| - i
  {
    var next := LineEnd(s, i);
    if k > 0 {
      StartReadsLine(s, next, k - 1);
    } else {
      SameCount(s, next);
    }
  }

  lemma {:induction false} SameCount(s: Bytes, i: nat)
    requires i <= |s|
    ensures |Starts(s, i)| == |Lines(s, i)|
    decreases |s| - i
  {
    if i < |s| { SameCount(s, LineEnd(s, i)); }
  }

  lemma {:induction false} LineEndIsNewline(s: Bytes, i: nat)
    requires i < |s|
    ensures LineEnd(s, i) == |s| || s[LineEnd(s, i) - 1] == LF
    ensures forall j :: i <= j < LineEnd(s, i) - 1 ==> s[j] != LF
    decreases |s| - i
  {
    if s[i] != LF && i + 1 < |s| { LineEndIsNewline(s, i + 1); }
  }

  /** A line: not empty, and with no newline but at its end. */
  ghost predicate IsLine(line: Bytes) {
    line != [] && forall j :: 0 <= j < |line| - 1 ==> line[j] != LF
  }

  /** Lines of a file: each but the last ends in a newline. */
  ghost predicate AreLines(lines: seq<Bytes>) {
    lines == [] || (IsLine(lines[0]) && (|lines| > 1 ==> lines[0][|lines[0]| - 1] == LF) && AreLines(lines[1..]))
  }

  /** The lines read are the one way to cut the file into lines. */
  lemma {:induction false} LinesAreTheFile(s: Bytes, i: nat, lines: seq<Bytes>)
    requires i <= |s|
    ensures lines == Lines(s, i) <==> AreLines(lines) && Flatten(lines) == s[i..]
    decreases |s| - i
  {
    if i < |s| {
      var end := LineEnd(s, i);
      LineEndIsNewline(s, i);
      LinesStep(s, i);
      hide Lines, AreLines, Flatten, LineEnd;
      if lines == Lines(s, i) {
        assert lines[1..] == Lines(s, end);
        LinesAreTheFile(s, end, lines[1..]);
        LineFirst(s, i, lines);
      }
      if lines != [] && AreLines(lines) && Flatten(lines) == s[i..] {
        FirstIsLine(s, i, lines);
        LinesAreTheFile(s, end, lines[1..]);
        assert lines == [lines[0]] + lines[1..];
      }
    } else {
      NoLines(s, lines);
    }
  }

  lemma LinesStep(s: Bytes, i: nat)
    requires i < |s|
    ensures Lines(s, i) == [s[i..LineEnd(s, i)]] + Lines(s, LineEnd(s, i))
  {
  }

  lemma NoLines(s: Bytes, lines: seq<Bytes>)
    ensures Lines(s, |s|) == [] && AreLines([]) && Flatten<bv8>([]) == s[|s|..]
    ensures AreLines(lines) && Flatten(lines) == s[|s|..] ==> lines == []
  {
  }

  lemma LineFirst(s: Bytes, i: nat, lines: seq<Bytes>)
    requires i < |s| && lines != [] && lines[0] == s[i..LineEnd(s, i)]
    requires AreLines(lines[1..]) && Flatten(lines[1..]) == s[LineEnd(s, i)..]
    ensures AreLines(lines) && Flatten(lines) == s[i..]
  {
    LineEndIsNewline(s, i);
    assert s[i..] == s[i..LineEnd(s, i)] + s[LineEnd(s, i)..];
    assert LineEnd(s, i) == |s| ==> Flatten(lines[1..]) == [];
    if |lines| > 1 { assert IsLine(lines[1]); }
    hide LineEnd;
  }

  lemma FirstIsLine(s: Bytes, i: nat, lines: seq<Bytes>)
    requires i < |s| && lines != [] && AreLines(lines) && Flatten(lines) == s[i..]
    ensures lines[0] == s[i..LineEnd(s, i)] && Flatten(lines[1..]) == s[LineEnd(s, i)..] && AreLines(lines[1..])
  {
    var first, rest := lines[0], Flatten(lines[1..]);
    var cut := i + |first|;
    assert s[i..] == first + rest;
    assert first == s[i..cut] && rest == s[cut..];
    hide Flatten, AreLines, LineEnd;
    FirstNewline(s, i, cut);
  }

  lemma {:induction false} FirstNewline(s: Bytes, i: nat, end: nat)
    requires i < end <= |s| && (end == |s| || s[end - 1] == LF)
    requires forall j :: i <= j < end - 1 ==> s[j] != LF
    ensures LineEnd(s, i) == end
    decreases end - i
  {
    if s[i] != LF && i + 1 < end { FirstNewline(s, i + 1, end); }
  }

  // --- reading as text: LF, CR and CR LF end a line and are read as LF -----------------------------------------

  function TextEnd(s: Bytes, i: nat): (end: nat)
    requires i <= |s|
    ensures i <= end <= |s| && (i < |s| ==> i < end)
    decreases |s| - i
  {
    if i == |s| then i
    else if s[i] == LF then i + 1
    else if s[i] == CR then (if i + 1 < |s| && s[i + 1] == LF then i + 2 else i + 1)
    else TextEnd(s, i + 1)
  }

  function TextLine(s: Bytes, i: nat): Bytes
    requires i <= |s|
    decreases |s| - i
  {
    if i == |s| then [] else if s[i] == LF || s[i] == CR then [LF] else [s[i]] + TextLine(s, i + 1)
  }

  function TextLines(s: Bytes, i: nat): seq<Bytes>
    requires i <= |s|
    decreases |s| - i
  {
    if i == |s| then [] else [TextLine(s, i)] + TextLines(s, TextEnd(s, i))
  }

  /** A carriage return that is followed by something other than a newline. */
  predicate RawReturnAt(s: Bytes, i: nat) {
    i + 1 < |s| && s[i] == CR && s[i + 1] != LF
  }

  function RawReturns(s: Bytes, i: nat): nat
    requires i <= |s|
    decreases |s| - i
  {
    if i == |s| then 0 else (if RawReturnAt(s, i) then 1 else 0) + RawReturns(s, i + 1)
  }

  /** Reading as text finds one more line for every raw carriage return. */
  lemma {:induction false} TextLineCount(s: Bytes, i: nat)
    requires i <= |s|
    ensures |TextLines(s, i)| == |Lines(s, i)| + RawReturns(s, i)
    decreases |s| - i
  {
    if i < |s| {
      TextLineCount(s, i + 1);
      if s[i] == CR && i + 1 < |s| && s[i + 1] == LF {
        TextLineCount(s, i + 2);
        assert LineEnd(s, i) == i + 2;
      } else if s[i] != LF && i + 1 < |s| {
        assert LineEnd(s, i) == LineEnd(s, i + 1);
        assert Lines(s, i + 1) == [ReadLine(s, i + 1)] + Lines(s, LineEnd(s, i + 1));
        if s[i] != CR { assert TextLines(s, i + 1) == [TextLine(s, i + 1)] + TextLines(s, TextEnd(s, i + 1)); }
      }
    }
  }

  /** A binary line as text, its line end read as LF. */
  function AsText(line: Bytes): Bytes {
    TextLine(line, 0)
  }

  function AllAsText(lines: seq<Bytes>): (text: seq<Bytes>)
    ensures |text| == |lines|
  {
    seq(|lines|, k requires 0 <= k < |lines| => AsText(lines[k]))
  }

  lemma {:induction false} SameEnd(s: Bytes, i: nat)
    requires i < |s| && RawReturns(s, i) == 0
    ensures TextEnd(s, i) == LineEnd(s, i)
    decreases |s| - i
  {
    if s[i] == CR {
      assert i + 1 == |s| || LineEnd(s, i) == i + 2;
    } else if s[i] != LF && i + 1 < |s| {
      SameEnd(s, i + 1);
    }
  }

  lemma {:induction false} TextLineWithin(s: Bytes, i: nat, start: nat)
    requires start <= i < |s|
    ensures TextLine(s, i) == TextLine(s[start..LineEnd(s, i)], i - start)
    decreases |s| - i
  {
    hide LineEnd, TextLine;
    var line, j := s[start..LineEnd(s, i)], i - start;
    assert line[j] == s[i];
    TextLineStep(s, i);
    TextLineStep(line, j);
    if s[i] != LF && s[i] != CR && i + 1 < |s| { TextLineWithin(s, i + 1, start); }
  }

  lemma TextLineStep(s: Bytes, i: nat)
    requires i < |s|
    ensures TextLine(s, i) == if s[i] == LF || s[i] == CR then [LF] else [s[i]] + TextLine(s, i + 1)
    ensures i + 1 == |s| ==> TextLine(s, i + 1) == []
    ensures s[i] != LF ==> LineEnd(s, i) == LineEnd(s, i + 1)
  {
  }

  lemma {:induction false} RawReturnsDrop(s: Bytes, i: nat, j: nat)
    requires i <= j <= |s| && RawReturns(s, i) == 0
    ensures RawReturns(s, j) == 0
    decreases j - i
  {
    if i < j { RawReturnsDrop(s, i + 1, j); }
  }

  lemma {:induction false} CleanLines(s: Bytes, i: nat)
    requires i <= |s| && RawReturns(s, i) == 0
    ensures TextLines(s, i) == AllAsText(Lines(s, i))
    decreases |s| - i
  {
    if i < |s| {
      var end := LineEnd(s, i);
      SameEnd(s, i);
      TextLineWithin(s, i, i);
      RawReturnsDrop(s, i, end);
      CleanLines(s, end);
      assert AllAsText([ReadLine(s, i)] + Lines(s, end)) == [AsText(ReadLine(s, i))] + AllAsText(Lines(s, end));
    }
  }

  lemma {:induction false} RawReturnsCounted(s: Bytes, i: nat)
    requires i <= |s|
    ensures RawReturns(s, i) == 0 <==> forall p: nat :: i <= p < |s| ==> !RawReturnAt(s, p)
    decreases |s| - i
  {
    if i < |s| { RawReturnsCounted(s, i + 1); }
  }

  /** Iteration and indexing see the same lines exactly when no carriage return stands alone inside the file. */
  lemma IterationAgrees(s: Bytes)
    ensures TextLines(s, 0) == AllAsText(Lines(s, 0)) <==> forall p: nat :: p < |s| ==> !RawReturnAt(s, p)
  {
    RawReturnsCounted(s, 0);
    TextLineCount(s, 0);
    if RawReturns(s, 0) == 0 { CleanLines(s, 0); }
  }

  // --- the class ---------------------------------------------------------------------------------------------

  /** What __getitem__ gives: the bytes of a line, before JSON decoding. */
  datatype Item = Item(line: Bytes) | IndexError

  function LinesOf(file: File): seq<Bytes> {
    if file.Content? then Lines(file.bytes, 0) else []
  }

  function StartsOf(file: File): seq<nat> {
    if file.Content? then Starts(file.bytes, 0) else []
  }

  class LazyLoadedList {
    var length: Option<int>
    var offsets: Option<seq<nat>>

    /** The index, once built, is that of this file; a list announced as empty has an empty one. */
    ghost predicate Valid(file: File)
      reads this
    {
      offsets.Some? ==> length == Some(|offsets.value|) && (offsets.value == StartsOf(file) || offsets.value == [])
    }

    /** The lines the list shows by index. */
    ghost function Shown(file: File): seq<Bytes>
      reads this
    {
      if offsets == Some([]) then [] else LinesOf(file)
    }

    /** expected_len: an announced length of zero is never checked against the file. */
    constructor (expectedLen: Option<int>)
      ensures forall file :: Valid(file)
      ensures forall file :: Shown(file) == if expectedLen == Some(0) then [] else LinesOf(file)
      ensures length == expectedLen && (offsets.Some? <==> expectedLen == Some(0))
    {
      length := expectedLen;
      offsets := if expectedLen == Some(0) then Some([]) else None;
    }

    /** _build_index */
    method BuildIndex(file: File)
      requires Valid(file)
      modifies this
      ensures Valid(file) && Shown(file) == old(Shown(file)) && offsets.Some?
      ensures old(offsets.Some?) ==> offsets == old(offsets) && length == old(length)
      ensures old(offsets.None?) ==> offsets == Some(StartsOf(file)) && length == Some(|StartsOf(file)|)
    {
      if offsets.Some? { return; }
      var starts: seq<nat>, count := [], 0;
      if file.Content? {
        var s := file.bytes;
        var pos := 0;
        while pos < |s|
          invariant 0 <= pos <= |s| && count == |starts|
          invariant starts + Starts(s, pos) == Starts(s, 0)
        {
          var end := LineEnd(s, pos);
          starts := starts + [pos];
          count := count + 1;
          pos := end;
        }
        SameCount(s, 0);
      }
      offsets := Some(starts);
      length := Some(count);
    }

    /** __len__: an announced length is believed until the index is built. */
    method Len(file: File) returns (n: int)
      requires Valid(file)
      modifies this
      ensures Valid(file) && Shown(file) == old(Shown(file)) && length == Some(n)
      ensures old(length).Some? ==> n == old(length).value && offsets == old(offsets)
      ensures old(length).None? ==> n == |Shown(file)|
    {
      if length.Some? { return length.value; }
      BuildIndex(file);
      if file.Content? { SameCount(file.bytes, 0); }
      return length.value;
    }

    /** __getitem__: the line of that number, counted from the end when negative; otherwise an IndexError. */
    method GetItem(file: File, idx: int) returns (item: Item)
      requires Valid(file)
      modifies this
      ensures Valid(file) && Shown(file) == old(Shown(file)) && offsets.Some? && length == Some(|Shown(file)|)
      ensures var lines := Shown(file);
              item == if -|lines| <= idx < |lines| then Item(lines[if idx < 0 then idx + |lines| else idx])
                      else IndexError
    {
      if offsets.None? { BuildIndex(file); }
      if file.Content? { SameCount(file.bytes, 0); }
      var at := idx;
      if at < 0 {
        if length == Some(0) { return IndexError; }
        at := length.value + at;
      }
      if !(0 <= at < |offsets.value|) { return IndexError; }
      StartReadsLine(file.bytes, 0, at);
      return Item(ReadLine(file.bytes, offsets.value[at]));
    }
  }

  /** __iter__: the text lines from first to last; a file that is not found has none. */
  method Iterate(file: File) returns (lines: Option<seq<Bytes>>)
    ensures lines == match file
                     case NotFound => Some([])
                     case Unreadable => None
                     case Content(s) => Some(TextLines(s, 0))
  {
    if file.NotFound? { return Some([]); }
    if file.Unreadable? { return None; }
    var s := file.bytes;
    var seen: seq<Bytes>, pos := [], 0;
    while pos < |s|
      invariant 0 <= pos <= |s|
      invariant seen + TextLines(s, pos) == TextLines(s, 0)
    {
      seen := seen + [TextLine(s, pos)];
      pos := TextEnd(s, pos);
    }
    assert seen + TextLines(s, pos) == seen;
    return Some(seen);
  }
}
