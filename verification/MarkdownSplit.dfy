/** Splitting a text at its markdown headers (_split_by_markdown_headers in examples/udfs/structural_split_udf.py). */
module MarkdownSplit {
  import opened Sequences
  import opened PyStrings

  function NL(): (sep: string)
    ensures |sep| == 1 && sep[0] == '\n'
  {
    "\n"
  }

  /** re.match of the header pattern: one of the headers, white space, and something more. */
  predicate Matches(stripped: string, headers: seq<string>) {
    exists h :: h in headers && MatchesHeader(stripped, h)
  }

  predicate MatchesHeader(stripped: string, h: string) {
    h <= stripped && |h| + 1 < |stripped| && IsSpace(stripped[|h|])
  }

  predicate IsHeader(line: string, headers: seq<string>) {
    Matches(Strip(line), headers)
  }

  /** Indented or not, a header, white space, and something that is not white space. */
  ghost predicate HeaderLine(line: string, indent: string, h: string, gap: string, rest: string) {
    && line == indent + h + gap + rest && AllSpace(indent) && h != "" && !IsSpace(h[0])
    && gap != "" && AllSpace(gap) && rest != "" && !IsSpace(rest[0])
  }

  /** Which lines are headers. */
  lemma HeaderLines(line: string, headers: seq<string>)
    ensures IsHeader(line, headers)
            <==> exists indent, h, gap, rest :: h in headers && HeaderLine(line, indent, h, gap, rest)
  {
    hide Strip;
    if IsHeader(line, headers) {
      var h :| h in headers && MatchesHeader(Strip(line), h);
      var indent, gap, rest := HeaderParts(line, h);
    }
    if indent, h, gap, rest :| h in headers && HeaderLine(line, indent, h, gap, rest) {
      PartsMatch(line, indent, h, gap, rest);
    }
  }

  lemma HeaderParts(line: string, h: string) returns (indent: string, gap: string, rest: string)
    requires MatchesHeader(Strip(line), h)
    ensures HeaderLine(line, indent, h, gap, rest)
  {
    hide Strip;
    var trailing;
    indent, trailing := StripParts(line);
    var stripped := Strip(line);
    var after := stripped[|h|..];
    gap := LStripParts(after);
    rest := LStrip(after) + trailing;
    assert stripped == h + after && h[..] == stripped[..|h|];
    assert h == "" ==> stripped == after;
    assert !IsSpace(after[|after| - 1]) && IsSpace(after[0]);
    assert LStrip(after) == "" ==> after == gap;
    assert gap != "" ==> gap[|gap| - 1] in gap;
    assert gap == "" ==> after == LStrip(after);
    assert line == indent + h + gap + rest;
  }

  lemma PartsMatch(line: string, indent: string, h: string, gap: string, rest: string)
    requires HeaderLine(line, indent, h, gap, rest)
    ensures MatchesHeader(Strip(line), h)
  {
    hide Strip;
    var tail := RStrip(rest);
    var trailing := RStripParts(rest);
    assert tail == "" ==> rest == trailing;
    assert trailing != "" ==> trailing[0] in trailing;
    var stripped := h + gap + tail;
    assert line == indent + stripped + trailing;
    StripIs(indent, stripped, trailing);
    assert stripped[|h|] == gap[0] && gap[0] in gap;
    assert h <= stripped;
  }

  // --- the grouping of lines -----------------------------------------------------------------------------

  type Groups = seq<seq<string>>

  /** A header opens a group; any other line goes to the last one. */
  function Extend(groups: Groups, line: string, headers: seq<string>): Groups {
    if groups == [] || IsHeader(line, headers) then groups + [[line]]
    else groups[..|groups| - 1] + [groups[|groups| - 1] + [line]]
  }

  function Grouped(lines: seq<string>, headers: seq<string>): Groups {
    if lines == [] then [] else Extend(Grouped(lines[..|lines| - 1], headers), lines[|lines| - 1], headers)
  }

  /** No line after the first is a header. */
  ghost predicate HeaderOnlyFirst(group: seq<string>, headers: seq<string>) {
    forall i :: 1 <= i < |group| ==> !IsHeader(group[i], headers)
  }

  /** Groups of lines, each but the first opened by a header and with no header inside. */
  ghost predicate IsGrouping(groups: Groups, headers: seq<string>) {
    && (forall g :: 0 <= g < |groups| ==> groups[g] != [] && HeaderOnlyFirst(groups[g], headers))
    && (forall g :: 1 <= g < |groups| ==> IsHeader(groups[g][0], headers))
  }

  /** The groups put end to end are the lines, and there is no other way to group them. */
  lemma {:induction false} GroupingIsUnique(lines: seq<string>, groups: Groups, headers: seq<string>)
    ensures groups == Grouped(lines, headers) <==> IsGrouping(groups, headers) && Flatten(groups) == lines
    decreases |lines|
  {
    if lines == [] {
      if groups != [] { assert Flatten(groups) == groups[0] + Flatten(groups[1..]); }
    } else {
      var n := |lines| - 1;
      var before := Grouped(lines[..n], headers);
      GroupingIsUnique(lines[..n], before, headers);
      assert lines == lines[..n] + [lines[n]];
      if groups == Grouped(lines, headers) {
        ExtendIsGrouping(before, lines[n], headers);
      } else if IsGrouping(groups, headers) && Flatten(groups) == lines {
        var less := WithoutLast(groups, headers, lines);
        GroupingIsUnique(lines[..n], less, headers);
      }
    }
  }

  lemma ExtendIsGrouping(groups: Groups, line: string, headers: seq<string>)
    requires IsGrouping(groups, headers)
    ensures IsGrouping(Extend(groups, line, headers), headers)
    ensures Flatten(Extend(groups, line, headers)) == Flatten(groups) + [line]
  {
    hide IsHeader;
    if groups == [] || IsHeader(line, headers) {
      FlattenAppend(groups, [line]);
    } else {
      var front, last := groups[..|groups| - 1], groups[|groups| - 1];
      FlattenAppend(front, last);
      FlattenAppend(front, last + [line]);
      assert groups == front + [last];
      var grown := last + [line];
      assert grown[0] == last[0];
      assert HeaderOnlyFirst(grown, headers);
    }
  }

  /** The grouping of which this one is the extension by its last line. */
  lemma WithoutLast(groups: Groups, headers: seq<string>, lines: seq<string>) returns (less: Groups)
    requires IsGrouping(groups, headers) && Flatten(groups) == lines && lines != []
    ensures IsGrouping(less, headers) && Flatten(less) == lines[..|lines| - 1]
    ensures groups == Extend(less, lines[|lines| - 1], headers)
  {
    hide IsHeader;
    assert groups != [];
    var front, last := groups[..|groups| - 1], groups[|groups| - 1];
    assert groups == front + [last];
    FlattenAppend(front, last);
    if |last| == 1 {
      less := front;
      assert last == [lines[|lines| - 1]];
    } else {
      var shorter := last[..|last| - 1];
      less := front + [shorter];
      FlattenAppend(front, shorter);
      assert last == shorter + [last[|last| - 1]];
      assert HeaderOnlyFirst(last, headers) && !IsHeader(last[|last| - 1], headers);
      assert HeaderOnlyFirst(shorter, headers);
      assert shorter[0] == last[0];
    }
  }

  // --- chunks ----------------------------------------------------------------------------------------------

  function Blank(text: string): bool {
    Strip(text) == ""
  }

  /** The groups as text, trimmed, without the blank ones. */
  function Chunked(groups: Groups): seq<string> {
    if groups == [] then []
    else
      var chunk := Strip(Join(groups[|groups| - 1], NL()));
      Chunked(groups[..|groups| - 1]) + if chunk != "" then [chunk] else []
  }

  function Chunks(text: string, headers: seq<string>): seq<string> {
    if Blank(text) then [text]
    else
      var chunks := Chunked(Grouped(Split(text, NL()), headers));
      if chunks != [] then chunks else [text]
  }

  lemma ExtendAtEnd(done: Groups, current: seq<string>, line: string, headers: seq<string>)
    requires current == [] ==> done == []
    ensures var groups := if current == [] then done else done + [current];
            Extend(groups, line, headers)
            == if IsHeader(line, headers) && current != [] then done + [current] + [[line]]
               else done + [current + [line]]
  {
    if current == [] {
      assert current + [line] == [line];
    } else {
      assert (done + [current])[..|done|] == done;
    }
  }

  lemma StripEmpty()
    ensures Strip("") == ""
  {
  }

  /** _split_by_markdown_headers */
  method SplitByMarkdownHeaders(text: string, headers: seq<string>) returns (chunks: seq<string>)
    ensures chunks == Chunks(text, headers)
  {
    hide NL, Strip, Join, Split, IsHeader, Extend;
    StripEmpty();
    if text == "" || Strip(text) == "" { return [text]; }
    var lines := Split(text, NL());
    chunks := [];
    var current: seq<string> := [];
    ghost var done: Groups := [];
    for n := 0 to |lines|
      invariant Grouped(lines[..n], headers) == if current == [] then done else done + [current]
      invariant chunks == Chunked(done) && (current == [] ==> done == [])
    {
      var line := lines[n];
      assert lines[..n + 1][..n] == lines[..n];
      assert current != [] ==> (done + [current])[..|done|] == done;
      ExtendAtEnd(done, current, line, headers);
      if IsHeader(line, headers) {
        if current != [] {
          var content := Strip(Join(current, NL()));
          if content != "" { chunks := chunks + [content]; }
          done := done + [current];
          current := [];
        }
        assert current + [line] == [line];
        current := current + [line];
      } else {
        current := current + [line];
      }
    }
    assert lines[..|lines|] == lines;
    if current != [] {
      var content := Strip(Join(current, NL()));
      if content != "" { chunks := chunks + [content]; }
      assert (done + [current])[..|done|] == done;
    }
    return if chunks != [] then chunks else [text];
  }

  // --- no text is lost -------------------------------------------------------------------------------------

  /** The text without its white space. */
  function Ink(s: string): string {
    if s == "" then "" else (if IsSpace(s[0]) then "" else [s[0]]) + Ink(s[1..])
  }

  lemma {:induction false} InkConcat(a: string, b: string)
    ensures Ink(a + b) == Ink(a) + Ink(b)
  {
    if a == "" {
      assert a + b == b;
    } else {
      assert (a + b)[1..] == a[1..] + b;
      InkConcat(a[1..], b);
    }
  }

  lemma {:induction false} InkLStrip(s: string)
    ensures Ink(LStrip(s)) == Ink(s)
  {
    if s != "" && IsSpace(s[0]) { InkLStrip(s[1..]); }
  }

  lemma {:induction false} InkRStrip(s: string)
    ensures Ink(RStrip(s)) == Ink(s)
  {
    if s != "" && IsSpace(s[|s| - 1]) {
      var n := |s| - 1;
      InkRStrip(s[..n]);
      InkConcat(s[..n], [s[n]]);
      assert s == s[..n] + [s[n]];
      assert Ink([s[n]]) == "";
    }
  }

  lemma InkStrip(s: string)
    ensures Ink(Strip(s)) == Ink(s)
  {
    InkLStrip(s);
    InkRStrip(LStrip(s));
  }

  function AllInk(lines: seq<string>): string {
    if lines == [] then "" else Ink(lines[0]) + AllInk(lines[1..])
  }

  lemma {:induction false} AllInkConcat(a: seq<string>, b: seq<string>)
    ensures AllInk(a + b) == AllInk(a) + AllInk(b)
  {
    if a == [] {
      assert a + b == b;
    } else {
      assert (a + b)[1..] == a[1..] + b;
      AllInkConcat(a[1..], b);
    }
  }

  lemma {:induction false} InkJoin(lines: seq<string>)
    ensures Ink(Join(lines, NL())) == AllInk(lines)
  {
    hide Ink, NL;
    if |lines| == 1 {
      AllInkOne(lines[0]);
      assert lines == [lines[0]];
    } else if lines == [] {
      NoInk();
    } else {
      NoInk();
      InkJoin(lines[1..]);
      InkConcat(lines[0] + NL(), Join(lines[1..], NL()));
      InkConcat(lines[0], NL());
    }
  }

  lemma NoInk()
    ensures Ink("") == "" && Ink(NL()) == ""
  {
    assert NL()[1..] == "";
  }

  lemma AllInkOne(line: string)
    ensures AllInk([line]) == Ink(line)
  {
    assert [line][1..] == [];
  }

  lemma {:induction false} InkChunked(groups: Groups)
    ensures AllInk(Chunked(groups)) == AllInk(Flatten(groups))
  {
    if groups != [] {
      var front, last := groups[..|groups| - 1], groups[|groups| - 1];
      var text := Join(last, NL());
      hide Ink, Strip, Join, Flatten, NL;
      NoInk();
      InkChunked(front);
      assert groups == front + [last];
      FlattenAppend(front, last);
      AllInkConcat(Flatten(front), last);
      InkJoin(last);
      InkStrip(text);
      if Strip(text) != "" {
        AllInkConcat(Chunked(front), [Strip(text)]);
        AllInkOne(Strip(text));
      } else {
        assert Chunked(groups) == Chunked(front) && AllInk(last) == "";
      }
    }
  }

  /** The chunks hold the text's characters in order, but for white space. */
  lemma ChunksKeepText(text: string, headers: seq<string>)
    ensures AllInk(Chunks(text, headers)) == Ink(text)
  {
    AllInkOne(text);
    if !Blank(text) {
      var lines := Split(text, NL());
      GroupingIsUnique(lines, Grouped(lines, headers), headers);
      InkChunked(Grouped(lines, headers));
      JoinSplit(text, NL());
      InkJoin(lines);
    }
  }

  /** A text that is not blank has a chunk: the last branch of the source is never taken. */
  lemma NeverWithoutChunk(text: string, headers: seq<string>)
    requires !Blank(text)
    ensures Chunked(Grouped(Split(text, NL()), headers)) != []
  {
    var lines := Split(text, NL());
    GroupingIsUnique(lines, Grouped(lines, headers), headers);
    InkChunked(Grouped(lines, headers));
    JoinSplit(text, NL());
    InkJoin(lines);
    InkStrip(text);
    assert Ink(Strip(text)) != "";
  }

  // --- splitting a chunk again -------------------------------------------------------------------------------

  lemma {:induction false} SplitJoin(lines: seq<string>)
    requires lines != [] && forall i :: 0 <= i < |lines| ==> '\n' !in lines[i]
    ensures Split(Join(lines, NL()), NL()) == lines
  {
    if |lines| == 1 {
      SplitNoSeparator(lines[0], NL());
    } else {
      SplitJoin(lines[1..]);
      SplitPrefix(lines[0], Join(lines[1..], NL()), NL());
    }
  }

  lemma {:induction false} SplitLinesClean(text: string)
    ensures forall i :: 0 <= i < |Split(text, NL())| ==> '\n' !in Split(text, NL())[i]
  {
    if text != "" {
      if NL() <= text {
        SplitLinesClean(text[1..]);
      } else {
        SplitLinesClean(text[1..]);
        var rest := Split(text[1..], NL());
        assert '\n' !in rest[0];
        assert text[0] != '\n';
      }
    }
  }

  /** White space at the end of a line does not make or unmake a header. */
  lemma StripEnd(s: string, c: char)
    requires IsSpace(c)
    ensures Strip(s + [c]) == Strip(s)
  {
    LStripEnd(s, c);
    if LStrip(s) != "" || LStrip(s + [c]) != "" {
      assert LStrip(s) + [c] == LStrip(s + [c]);
      assert (LStrip(s) + [c])[..|LStrip(s)|] == LStrip(s);
    }
  }

  lemma {:induction false} LStripEnd(s: string, c: char)
    requires IsSpace(c)
    ensures LStrip(s + [c]) == if LStrip(s) == "" then "" else LStrip(s) + [c]
  {
    if s == "" {
      assert LStrip([c]) == LStrip([c][1..]);
    } else if IsSpace(s[0]) {
      assert (s + [c])[1..] == s[1..] + [c];
      LStripEnd(s[1..], c);
    }
  }

  /** Trimming the text on the left only shortens its first line or drops it. */
  lemma {:induction false} LStripKeeps(text: string, headers: seq<string>)
    requires HeaderOnlyFirst(Split(text, NL()), headers)
    ensures HeaderOnlyFirst(Split(LStrip(text), NL()), headers)
  {
    hide IsHeader;
    if text != "" && IsSpace(text[0]) {
      var lines, rest := Split(text, NL()), Split(text[1..], NL());
      forall i | 1 <= i < |rest|
        ensures !IsHeader(rest[i], headers)
      {
        if NL() <= text {
          assert lines[i + 1] == rest[i];
        } else {
          assert lines[i] == rest[i];
        }
      }
      LStripKeeps(text[1..], headers);
    }
  }

  lemma SplitStep(text: string)
    requires text != ""
    ensures var rest := Split(text[1..], NL());
            Split(text, NL()) == if text[0] == '\n' then [""] + rest else [[text[0]] + rest[0]] + rest[1..]
  {
    assert NL() <= text <==> text[0] == '\n';
  }

  lemma SplitOne(c: char)
    ensures Split("", NL()) == [""] && Split([c], NL()) == if c == '\n' then ["", ""] else [[c]]
  {
    SplitStep([c]);
    assert [c][1..] == "" && [c] + "" == [c];
  }

  /** The lines of a text with one character more. */
  lemma {:induction false} SplitEnd(text: string, c: char)
    ensures var lines := Split(text, NL());
            var last := |lines| - 1;
            Split(text + [c], NL()) == if c == '\n' then lines + [""] else lines[..last] + [lines[last] + [c]]
  {
    hide Split, NL;
    var more := text + [c];
    if text == "" {
      SplitOne(c);
      assert more == [c];
    } else {
      SplitStep(more);
      SplitStep(text);
      assert more[1..] == text[1..] + [c] && more[0] == text[0];
      SplitEnd(text[1..], c);
      var rest := Split(text[1..], NL());
      if text[0] != '\n' && |rest| == 1 && c != '\n' {
        assert [text[0]] + (rest[0] + [c]) == ([text[0]] + rest[0]) + [c];
      }
    }
  }

  lemma {:induction false} RStripKeeps(text: string, headers: seq<string>)
    requires HeaderOnlyFirst(Split(text, NL()), headers)
    ensures HeaderOnlyFirst(Split(RStrip(text), NL()), headers)
  {
    hide Split;
    if text != "" && IsSpace(text[|text| - 1]) {
      var n := |text| - 1;
      var c := text[n];
      SplitEnd(text[..n], c);
      assert text == text[..n] + [c];
      var lines, less := Split(text, NL()), Split(text[..n], NL());
      forall i | 1 <= i < |less|
        ensures !IsHeader(less[i], headers)
      {
        if i == |less| - 1 && c != '\n' { StripEnd(less[i], c); }
        assert !IsHeader(lines[i], headers);
      }
      RStripKeeps(text[..n], headers);
    }
  }

  lemma {:induction false} OneGroup(lines: seq<string>, headers: seq<string>)
    requires lines != [] && HeaderOnlyFirst(lines, headers)
    ensures Grouped(lines, headers) == [lines]
  {
    GroupingIsUnique(lines, [lines], headers);
    assert Flatten([lines]) == lines + Flatten<string>([]);
  }

  /** A trimmed text with a header at most in its first line is its own only chunk. */
  lemma OneChunk(text: string, headers: seq<string>)
    requires text != "" && HeaderOnlyFirst(Split(text, NL()), headers) && Strip(text) == text
    ensures Chunks(text, headers) == [text]
  {
    hide NL, Join, Split, Strip, HeaderOnlyFirst;
    OneGroup(Split(text, NL()), headers);
    JoinSplit(text, NL());
    var lines := Split(text, NL());
    assert [lines][..0] == [] && Chunked([]) == [];
    assert Chunked([lines]) == [text];
  }

  lemma {:induction false} ChunkFromGroup(groups: Groups, chunk: string)
    requires chunk in Chunked(groups)
    ensures chunk != "" && exists g :: 0 <= g < |groups| && chunk == Strip(Join(groups[g], NL()))
  {
    var last := |groups| - 1;
    if chunk in Chunked(groups[..last]) {
      ChunkFromGroup(groups[..last], chunk);
    }
  }

  lemma {:induction false} InFlatten(groups: Groups, g: nat, line: string)
    requires g < |groups| && line in groups[g]
    ensures line in Flatten(groups)
  {
    if g > 0 { InFlatten(groups[1..], g - 1, line); }
  }

  /** Splitting any chunk again gives just that chunk. */
  lemma ResplitIsChunk(text: string, headers: seq<string>, chunk: string)
    requires chunk in Chunks(text, headers)
    ensures Chunks(chunk, headers) == [chunk]
  {
    if !Blank(text) {
      NeverWithoutChunk(text, headers);
      var lines := Split(text, NL());
      var groups := Grouped(lines, headers);
      GroupingIsUnique(lines, groups, headers);
      ChunkFromGroup(groups, chunk);
      var g :| 0 <= g < |groups| && chunk == Strip(Join(groups[g], NL()));
      SplitLinesClean(text);
      forall i | 0 <= i < |groups[g]|
        ensures '\n' !in groups[g][i]
      {
        InFlatten(groups, g, groups[g][i]);
      }
      SplitJoin(groups[g]);
      var whole := Join(groups[g], NL());
      LStripKeeps(whole, headers);
      RStripKeeps(LStrip(whole), headers);
      StripIdempotent(whole);
      OneChunk(chunk, headers);
    }
  }
}
