/**
 Extraction of a whole PDF by the pdfium engine, as far as splitting touches it: the loop over the pages, the tables
 and charts whose futures complete in any order after it, and at document depth one text record for all pages, which
 carries the page number -1. When splitting, extracting the chunks and aggregating gives the same records.
 */
module DocumentExtraction {
  import opened Sequences
  import opened PdfSplit
  import opened ChunkRecords

  /** The records a page yields in the loop over the pages, and those of its tables and charts. */
  datatype PageContent = PageContent(direct: Page, deferred: Page)

  function Direct(pages: seq<PageContent>): (s: seq<Page>)
    ensures |s| == |pages|
  {
    seq(|pages|, i requires 0 <= i < |pages| => pages[i].direct)
  }

  function Deferred(pages: seq<PageContent>): (s: seq<Page>)
    ensures |s| == |pages|
  {
    seq(|pages|, i requires 0 <= i < |pages| => pages[i].deferred)
  }

  /** Text per page, or one record for the text of pages lo+1 to hi together. */
  datatype Depth = PageDepth | DocumentDepth(text: (nat, nat) -> Record)

  function Summary(depth: Depth, lo: nat, hi: nat, number: nat, o: Label): seq<Record> {
    if depth.DocumentDepth? && lo < hi then [Stamp(depth.text(lo, hi), number, o)] else []
  }

  /** Records that extraction of these pages can give; lo pages of the document come before them. */
  ghost predicate IsExtraction(records: seq<Record>, pages: seq<PageContent>, depth: Depth, lo: nat, number: nat,
                               o: Label) {
    exists late: seq<Record> :: Ends(records, late, pages, depth, lo, number, o)
  }

  ghost predicate Ends(records: seq<Record>, late: seq<Record>, pages: seq<PageContent>, depth: Depth, lo: nat,
                       number: nat, o: Label) {
    && multiset(late) == multiset(Extract(Deferred(pages), number, o))
    && records == Extract(Direct(pages), number, o) + late + Summary(depth, lo, lo + |pages|, number, o)
  }

  lemma {:induction false} NormalizePermutes(a: seq<Record>, b: seq<Record>, offset: nat, parent: Parent)
    requires multiset(a) == multiset(b)
    ensures multiset(NormalizeAll(a, offset, parent)) == multiset(NormalizeAll(b, offset, parent))
    decreases |a|
  {
    hide Normalize, NormalizeAll;
    if a == [] {
      NoneOf(b);
    } else {
      var i := TakeFirst(a, b);
      var before, after := b[..i], b[i + 1..];
      NormalizePermutes(a[1..], before + after, offset, parent);
      assert a == [a[0]] + a[1..] && b == before + [b[i]] + after;
      NormalizeConcat([a[0]], a[1..], offset, parent);
      NormalizeConcat(before + [b[i]], after, offset, parent);
      NormalizeConcat(before, [b[i]], offset, parent);
      NormalizeConcat(before, after, offset, parent);
    }
  }

  /** Normalized, an extraction of a part of the document is one under the label that normalization makes of its own. */
  lemma NormalizedExtraction(records: seq<Record>, pages: seq<PageContent>, depth: Depth, lo: nat, number: nat,
                             offset: nat, part: Label, parent: Parent)
    requires IsExtraction(records, pages, depth, lo, number, part)
    ensures IsExtraction(NormalizeAll(records, offset, parent), pages, depth, lo, number + offset,
                         Relabel(part, parent))
  {
    hide Extract, NormalizeAll, Relabel;
    var late :| Ends(records, late, pages, depth, lo, number, part);
    var direct, summary := Extract(Direct(pages), number, part), Summary(depth, lo, lo + |pages|, number, part);
    NormalizeConcat(direct + late, summary, offset, parent);
    NormalizeConcat(direct, late, offset, parent);
    NormalizeExtract(Direct(pages), number, offset, part, parent);
    NormalizeExtract(Deferred(pages), number, offset, part, parent);
    NormalizePermutes(late, Extract(Deferred(pages), number, part), offset, parent);
    NormalizeSummary(depth, lo, lo + |pages|, number, offset, part, parent);
    assert Ends(NormalizeAll(records, offset, parent), NormalizeAll(late, offset, parent), pages, depth, lo,
                number + offset, Relabel(part, parent));
  }

  lemma NormalizeSummary(depth: Depth, lo: nat, hi: nat, number: nat, offset: nat, part: Label, parent: Parent)
    ensures NormalizeAll(Summary(depth, lo, hi, number, part), offset, parent)
        == Summary(depth, lo, hi, number + offset, Relabel(part, parent))
  {
  }

  /** A record without a page, such as the text of the whole document, keeps saying so. */
  lemma NoPageStays(r: Record, number: nat, offset: nat, part: Label, parent: Parent)
    requires !Numbered(r)
    ensures Normalize(Stamp(r, number, part), offset, parent) == Stamp(r, 0, Relabel(part, parent))
  {
  }

  /** The labels agree on all that extraction of these pages writes. */
  ghost predicate Alike(pages: seq<PageContent>, depth: Depth, lo: nat, o: Label, other: Label) {
    && SameForAll(Direct(pages), o, other) && SameForAll(Deferred(pages), o, other)
    && (depth.DocumentDepth? && pages != [] ==> SameFor(depth.text(lo, lo + |pages|), o, other))
  }

  lemma AlikeExtraction(records: seq<Record>, pages: seq<PageContent>, depth: Depth, lo: nat, number: nat, o: Label,
                        other: Label)
    requires IsExtraction(records, pages, depth, lo, number, o)
    ensures Alike(pages, depth, lo, o, other) ==> IsExtraction(records, pages, depth, lo, number, other)
    ensures AllBear(records, other) <==> Alike(pages, depth, lo, o, other)
  {
    hide Extract, Summary, Direct, Deferred, Bears, SameFor, SameForAll;
    var late :| Ends(records, late, pages, depth, lo, number, o);
    var direct, deferred := Extract(Direct(pages), number, o), Extract(Deferred(pages), number, o);
    var summary := Summary(depth, lo, lo + |pages|, number, o);
    ExtractBears(Direct(pages), number, o, other);
    ExtractBears(Deferred(pages), number, o, other);
    SummaryBears(depth, lo, lo + |pages|, number, o, other);
    SameMembers(late, deferred);
    assert AllBear(records, other) <==> AllBear(direct, other) && AllBear(late, other) && AllBear(summary, other);
    assert AllBear(late, other) <==> AllBear(deferred, other);
    if Alike(pages, depth, lo, o, other) {
      assert Ends(records, late, pages, depth, lo, number, other);
    }
  }

  lemma SameMembers(a: seq<Record>, b: seq<Record>)
    requires multiset(a) == multiset(b)
    ensures forall r :: r in a <==> r in b
  {
    assert forall r :: r in a <==> r in multiset(a);
    assert forall r :: r in b <==> r in multiset(b);
  }

  lemma SummaryBears(depth: Depth, lo: nat, hi: nat, number: nat, o: Label, other: Label)
    ensures AllBear(Summary(depth, lo, hi, number, o), other)
            <==> (depth.DocumentDepth? && lo < hi ==> SameFor(depth.text(lo, hi), o, other))
    ensures AllBear(Summary(depth, lo, hi, number, o), other) ==>
      Summary(depth, lo, hi, number, o) == Summary(depth, lo, hi, number, other)
  {
    hide Bears, SameFor, Stamp;
    if depth.DocumentDepth? && lo < hi {
      var r := Stamp(depth.text(lo, hi), number, o);
      assert r in Summary(depth, lo, hi, number, o);
      StampBears(depth.text(lo, hi), number, o, other);
    }
  }

  // --- splitting ---------------------------------------------------------------------------------------------

  /** What each chunk's extraction gave. */
  ghost predicate ChunksExtracted(results: seq<seq<Record>>, pages: seq<PageContent>, size: nat, depth: Depth,
                                  base: nat, parts: nat -> Reading)
    requires size >= 1
  {
    && |results| == |Chunks(pages, size)|
    && forall c: nat :: c < |results| ==>
      ChunkExtracted(results[c], Chunks(pages, size)[c], size, depth, base, LabelOf(parts(c)))
  }

  ghost predicate ChunkExtracted(records: seq<Record>, chunk: Chunk<PageContent>, size: nat, depth: Depth, base: nat,
                                 part: Label) {
    IsExtraction(records, chunk.pages, depth, chunk.index * size, base, part)
  }

  /** After normalization each chunk's records say of the document what the records of the whole say. */
  ghost predicate ChunksAlike(pages: seq<PageContent>, size: nat, depth: Depth, parts: nat -> Reading, parent: Parent,
                              whole: Label)
    requires size >= 1
  {
    forall c: nat :: c < |Chunks(pages, size)| ==>
      ChunkAlike(Chunks(pages, size)[c], size, depth, Relabel(LabelOf(parts(c)), parent), whole)
  }

  ghost predicate ChunkAlike(chunk: Chunk<PageContent>, size: nat, depth: Depth, o: Label, whole: Label) {
    Alike(chunk.pages, depth, chunk.index * size, o, whole)
  }

  /** The results after normalization, as aggregation puts them end to end. */
  function Normalized(results: seq<seq<Record>>, pages: seq<PageContent>, size: nat, carried: Carried,
                      parent: Parent): (parts: seq<seq<Record>>)
    requires size >= 1 && |results| == |Chunks(pages, size)|
    ensures |parts| == |results|
  {
    var chunks := Chunks(pages, size);
    seq(|results|, c requires 0 <= c < |results| =>
      NormalizeAll(results[c], PageOffset(CarriedBy(carried, chunks[c])), parent))
  }

  function OffsetOf(carried: Carried, size: nat, c: nat): nat {
    if carried.StartPage? then c * size else 0
  }

  /** The records of one pass over the first count chunks, as aggregation numbers them. */
  function Pass(pages: seq<Page>, size: nat, carried: Carried, base: nat, whole: Label, count: nat): seq<Record>
    requires size >= 1 && count <= ChunkCount(|pages|, size)
  {
    if count == 0 then []
    else
      ChunkIs(pages, size, count - 1);
      Pass(pages, size, carried, base, whole, count - 1)
      + Extract(ChunkAt(pages, size, count - 1).pages, base + OffsetOf(carried, size, count - 1), whole)
  }

  /** The text records of the first count chunks, one for each at document depth. */
  function Summaries(depth: Depth, n: nat, size: nat, carried: Carried, base: nat, whole: Label,
                     count: nat): seq<Record> {
    if count == 0 then []
    else
      Summaries(depth, n, size, carried, base, whole, count - 1)
      + Summary(depth, (count - 1) * size, ChunkEnd(n, size, count), base + OffsetOf(carried, size, count - 1), whole)
  }

  lemma SlicesOfContent(pages: seq<PageContent>, size: nat, c: nat)
    requires size >= 1 && c < ChunkCount(|pages|, size)
    ensures c * size < |pages|
    ensures Direct(ChunkAt(pages, size, c).pages) == ChunkAt(Direct(pages), size, c).pages
    ensures Deferred(ChunkAt(pages, size, c).pages) == ChunkAt(Deferred(pages), size, c).pages
    ensures c * size + |ChunkAt(pages, size, c).pages| == ChunkEnd(|pages|, size, c + 1)
  {
    ChunkIs(pages, size, c);
    NextChunk(pages, size, c);
  }

  lemma ExtractionContents(records: seq<Record>, pages: seq<PageContent>, depth: Depth, lo: nat, number: nat, o: Label)
    requires IsExtraction(records, pages, depth, lo, number, o)
    ensures multiset(records)
        == multiset(Extract(Direct(pages), number, o)) + multiset(Extract(Deferred(pages), number, o))
                                 + multiset(Summary(depth, lo, lo + |pages|, number, o))
  {
    hide Extract, Summary, Direct, Deferred;
    var late :| Ends(records, late, pages, depth, lo, number, o);
  }

  /** The first count chunks hold both passes over their pages, and one text record each at document depth. */
  ghost predicate HoldsUpTo(normalized: seq<seq<Record>>, pages: seq<PageContent>, size: nat, depth: Depth,
                            carried: Carried, base: nat, whole: Label, count: nat)
    requires size >= 1 && count <= |normalized| && count <= ChunkCount(|pages|, size)
  {
    multiset(Flatten(normalized[..count]))
      == multiset(Pass(Direct(pages), size, carried, base, whole, count))
         + multiset(Pass(Deferred(pages), size, carried, base, whole, count))
         + multiset(Summaries(depth, |pages|, size, carried, base, whole, count))
  }

  /** The records of a split document. */
  lemma {:induction false} SplitContents(results: seq<seq<Record>>, pages: seq<PageContent>, size: nat, depth: Depth,
                                         carried: Carried, base: nat, parts: nat -> Reading, parent: Parent,
                                         whole: Label, count: nat)
    requires size >= 1 && ChunksAlike(pages, size, depth, parts, parent, whole)
    requires ChunksExtracted(results, pages, size, depth, base, parts) && count <= |results|
    ensures HoldsUpTo(Normalized(results, pages, size, carried, parent), pages, size, depth, carried, base, whole,
                      count)
    decreases count
  {
    hide HoldsUpTo, HoldsChunk, OffsetOf, Normalized, ChunkExtracted, Chunks, ChunkCount;
    if count == 0 {
      HoldsNothing(Normalized(results, pages, size, carried, parent), pages, size, depth, carried, base, whole);
    } else {
      SplitContents(results, pages, size, depth, carried, base, parts, parent, whole, count - 1);
      ChunkContents(results, pages, size, depth, carried, base, parts, parent, whole, count - 1);
      HoldsOneMore(Normalized(results, pages, size, carried, parent), pages, size, depth, carried, base, whole,
                   count - 1);
    }
  }

  lemma HoldsNothing(normalized: seq<seq<Record>>, pages: seq<PageContent>, size: nat, depth: Depth, carried: Carried,
                     base: nat, whole: Label)
    requires size >= 1
    ensures HoldsUpTo(normalized, pages, size, depth, carried, base, whole, 0)
  {
    assert normalized[..0] == [];
  }

  ghost predicate HoldsChunk(records: seq<Record>, pages: seq<PageContent>, size: nat, depth: Depth, number: nat,
                             whole: Label, c: nat)
    requires c * size < |pages|
  {
    multiset(records)
      == multiset(Extract(ChunkAt(Direct(pages), size, c).pages, number, whole))
         + multiset(Extract(ChunkAt(Deferred(pages), size, c).pages, number, whole))
         + multiset(Summary(depth, c * size, ChunkEnd(|pages|, size, c + 1), number, whole))
  }

  lemma HoldsOneMore(normalized: seq<seq<Record>>, pages: seq<PageContent>, size: nat, depth: Depth, carried: Carried,
                     base: nat, whole: Label, c: nat)
    requires size >= 1 && c < |normalized| && c < ChunkCount(|pages|, size) && c * size < |pages|
    requires HoldsUpTo(normalized, pages, size, depth, carried, base, whole, c)
    requires HoldsChunk(normalized[c], pages, size, depth, base + OffsetOf(carried, size, c), whole, c)
    ensures HoldsUpTo(normalized, pages, size, depth, carried, base, whole, c + 1)
  {
    hide Extract, ChunkAt, ChunkEnd, ChunkCount, Pass, Summaries, Summary, OffsetOf, Direct, Deferred, Flatten;
    var number := base + OffsetOf(carried, size, c);
    assert normalized[..c + 1] == normalized[..c] + [normalized[c]];
    FlattenAppend(normalized[..c], normalized[c]);
    PassStep(Direct(pages), size, carried, base, whole, c);
    PassStep(Deferred(pages), size, carried, base, whole, c);
    SummaryStep(depth, |pages|, size, carried, base, whole, c);
    AppendThree(Flatten(normalized[..c]), normalized[c],
      Pass(Direct(pages), size, carried, base, whole, c), Extract(ChunkAt(Direct(pages), size, c).pages, number, whole),
      Pass(Deferred(pages), size, carried, base, whole, c),
      Extract(ChunkAt(Deferred(pages), size, c).pages, number, whole),
      Summaries(depth, |pages|, size, carried, base, whole, c),
      Summary(depth, c * size, ChunkEnd(|pages|, size, c + 1), number, whole));
  }

  lemma PassStep(pages: seq<Page>, size: nat, carried: Carried, base: nat, whole: Label, c: nat)
    requires size >= 1 && c < ChunkCount(|pages|, size)
    ensures c * size < |pages|
    ensures Pass(pages, size, carried, base, whole, c + 1)
         == Pass(pages, size, carried, base, whole, c)
            + Extract(ChunkAt(pages, size, c).pages, base + OffsetOf(carried, size, c), whole)
  {
    ChunkIs(pages, size, c);
  }

  lemma SummaryStep(depth: Depth, n: nat, size: nat, carried: Carried, base: nat, whole: Label, c: nat)
    ensures Summaries(depth, n, size, carried, base, whole, c + 1)
         == Summaries(depth, n, size, carried, base, whole, c)
            + Summary(depth, c * size, ChunkEnd(n, size, c + 1), base + OffsetOf(carried, size, c), whole)
  {
  }

  lemma AppendThree(s: seq<Record>, t: seq<Record>, a: seq<Record>, x: seq<Record>, b: seq<Record>, y: seq<Record>,
                    c: seq<Record>, z: seq<Record>)
    requires multiset(s) == multiset(a) + multiset(b) + multiset(c)
    requires multiset(t) == multiset(x) + multiset(y) + multiset(z)
    ensures multiset(s + t) == multiset(a + x) + multiset(b + y) + multiset(c + z)
  {
  }

  lemma ChunkContents(results: seq<seq<Record>>, pages: seq<PageContent>, size: nat, depth: Depth, carried: Carried,
                      base: nat, parts: nat -> Reading, parent: Parent, whole: Label, c: nat)
    requires size >= 1 && ChunksAlike(pages, size, depth, parts, parent, whole)
    requires ChunksExtracted(results, pages, size, depth, base, parts) && c < |results|
    ensures c * size < |pages|
    ensures HoldsChunk(Normalized(results, pages, size, carried, parent)[c], pages, size, depth,
                       base + OffsetOf(carried, size, c), whole, c)
  {
    hide Alike, Relabel, LabelOf, Extract, NormalizeAll, Chunks, ChunkCount, Direct, Deferred, Summary, IsExtraction,
         ChunkAt, ChunkEnd;
    ChunkIs(pages, size, c);
    ChunkFields(pages, size, c);
    SlicesOfContent(pages, size, c);
    assert ChunkExtracted(results[c], Chunks(pages, size)[c], size, depth, base, LabelOf(parts(c)));
    var chunk, offset := ChunkAt(pages, size, c), OffsetOf(carried, size, c);
    NormalizedExtraction(results[c], chunk.pages, depth, c * size, base, offset, LabelOf(parts(c)), parent);
    assert ChunkAlike(Chunks(pages, size)[c], size, depth, Relabel(LabelOf(parts(c)), parent), whole);
    AlikeExtraction(Normalized(results, pages, size, carried, parent)[c], chunk.pages, depth, c * size, base + offset,
                    Relabel(LabelOf(parts(c)), parent), whole);
    ExtractionContents(Normalized(results, pages, size, carried, parent)[c], chunk.pages, depth, c * size,
                       base + offset,
                       whole);
  }

  lemma ChunkFields(pages: seq<PageContent>, size: nat, c: nat)
    requires c * size < |pages|
    ensures ChunkAt(pages, size, c).index == c && ChunkAt(pages, size, c).startPage == c * size + 1
  {
  }

  /** With start pages carried, a pass over the chunks is the pass over the document. */
  lemma {:induction false} PassIsWhole(pages: seq<Page>, size: nat, base: nat, whole: Label, count: nat)
    requires size >= 1 && count <= ChunkCount(|pages|, size)
    ensures Pass(pages, size, StartPage, base, whole, count)
        == Extract(pages[..ChunkEnd(|pages|, size, count)], base, whole)
    decreases count
  {
    hide Extract;
    if count == 0 {
      ExtractNothing(base, whole);
      assert pages[..ChunkEnd(|pages|, size, 0)] == [];
    } else {
      var c: nat := count - 1;
      PassIsWhole(pages, size, base, whole, c);
      ChunkIs(pages, size, c);
      NextChunk(pages, size, c);
      var chunk := ChunkAt(pages, size, c);
      assert pages[..ChunkEnd(|pages|, size, count)] == pages[..c * size] + chunk.pages;
      ExtractConcat(pages[..c * size], chunk.pages, base, whole);
    }
  }

  lemma WholePass(pages: seq<Page>, size: nat, base: nat, whole: Label)
    requires size >= 1
    ensures Pass(pages, size, StartPage, base, whole, ChunkCount(|pages|, size)) == Extract(pages, base, whole)
  {
    var n := ChunkCount(|pages|, size);
    PassIsWhole(pages, size, base, whole, n);
    ChunkCountIsCeiling(|pages|, size, n);
    assert pages[..|pages|] == pages;
  }

  lemma {:induction false} SummaryCount(depth: Depth, n: nat, size: nat, carried: Carried, base: nat, whole: Label,
                                        count: nat)
    requires size >= 1 && count <= ChunkCount(n, size)
    ensures |Summaries(depth, n, size, carried, base, whole, count)| == if depth.DocumentDepth? then count else 0
  {
    if count > 0 {
      SummaryCount(depth, n, size, carried, base, whole, count - 1);
      ChunkCountIsCeiling(n, size, count - 1);
      assert (count - 1) * size + size == count * size;
    }
  }

  /** Whether aggregation can give each text of the document once: text by page, or a single chunk. */
  predicate TextOnce(depth: Depth, n: nat, size: nat)
    requires size >= 1
  {
    depth.PageDepth? || ChunkCount(n, size) <= 1
  }

  lemma SummariesOnce(depth: Depth, n: nat, size: nat, carried: Carried, base: nat, whole: Label)
    requires size >= 1
    ensures var all := Summaries(depth, n, size, carried, base, whole, ChunkCount(n, size));
            if TextOnce(depth, n, size) then all == Summary(depth, 0, n, base, whole)
            else |all| != |Summary(depth, 0, n, base, whole)|
  {
    var count := ChunkCount(n, size);
    SummaryCount(depth, n, size, carried, base, whole, count);
    ChunkCountIsCeiling(n, size, 0);
    if depth.DocumentDepth? && count == 1 {
      ChunkCountIsCeiling(n, size, 1);
      assert Summaries(depth, n, size, carried, base, whole, 0) == [];
      assert OffsetOf(carried, size, 0) == 0 && 0 * size == 0;
      assert ChunkEnd(n, size, 1) == n;
    }
  }

  /** With labels alike, every chunk adds a text record at document depth, and there is no other difference. */
  lemma AlikeSplit(results: seq<seq<Record>>, pages: seq<PageContent>, size: nat, depth: Depth, base: nat,
                   parts: nat -> Reading, parent: Parent, whole: Label, records: seq<Record>)
    requires size >= 1 && ChunksAlike(pages, size, depth, parts, parent, whole)
    requires ChunksExtracted(results, pages, size, depth, base, parts)
    requires IsExtraction(records, pages, depth, 0, base, whole)
    ensures multiset(Flatten(Normalized(results, pages, size, StartPage, parent))) == multiset(records)
            <==> TextOnce(depth, |pages|, size)
  {
    hide Extract, Pass, Summaries, Summary, Normalized, IsExtraction, Flatten, Direct, Deferred;
    var n := ChunkCount(|pages|, size);
    var normalized := Normalized(results, pages, size, StartPage, parent);
    assert normalized[..n] == normalized;
    SplitContents(results, pages, size, depth, StartPage, base, parts, parent, whole, n);
    WholePass(Direct(pages), size, base, whole);
    WholePass(Deferred(pages), size, base, whole);
    ExtractionContents(records, pages, depth, 0, base, whole);
    SummariesOnce(depth, |pages|, size, StartPage, base, whole);
    var all, one := Summaries(depth, |pages|, size, StartPage, base, whole, n), Summary(depth, 0, |pages|, base, whole);
    assert |multiset(all)| == |all| && |multiset(one)| == |one|;
  }

  /** What is told of the document by any record of the whole is told by every record of the chunks. */
  lemma BearersAlike(results: seq<seq<Record>>, pages: seq<PageContent>, size: nat, depth: Depth, carried: Carried,
                     base: nat, parts: nat -> Reading, parent: Parent, whole: Label, records: seq<Record>)
    requires size >= 1 && ChunksExtracted(results, pages, size, depth, base, parts)
    requires IsExtraction(records, pages, depth, 0, base, whole)
    requires multiset(Flatten(Normalized(results, pages, size, carried, parent))) == multiset(records)
    ensures ChunksAlike(pages, size, depth, parts, parent, whole)
  {
    hide Alike, Relabel, LabelOf, NormalizeAll, Chunks, IsExtraction, Bears, SameForAll, SameFor, Flatten;
    var normalized, chunks := Normalized(results, pages, size, carried, parent), Chunks(pages, size);
    AlikeItself(pages, depth, 0, whole);
    AlikeExtraction(records, pages, depth, 0, base, whole, whole);
    SameMembers(Flatten(normalized), records);
    forall c: nat | c < |chunks|
      ensures ChunkAlike(chunks[c], size, depth, Relabel(LabelOf(parts(c)), parent), whole)
    {
      var o, offset := LabelOf(parts(c)), PageOffset(CarriedBy(carried, chunks[c]));
      assert ChunkExtracted(results[c], chunks[c], size, depth, base, o);
      NormalizedExtraction(results[c], chunks[c].pages, depth, chunks[c].index * size, base, offset, o, parent);
      AlikeExtraction(normalized[c], chunks[c].pages, depth, chunks[c].index * size, base + offset,
                      Relabel(o, parent), whole);
      FlattenHolds(normalized, c);
    }
  }

  lemma AlikeItself(pages: seq<PageContent>, depth: Depth, lo: nat, o: Label)
    ensures Alike(pages, depth, lo, o, o)
  {
  }

  lemma {:induction false} FlattenHolds(parts: seq<seq<Record>>, c: nat)
    requires c < |parts|
    ensures forall r :: r in parts[c] ==> r in Flatten(parts)
  {
    if c > 0 { FlattenHolds(parts[1..], c - 1); }
  }

  /**
   With descriptors that carry the start page, the chunks hold exactly the records of the whole document if and only if
   the text is taken page by page or there is but one chunk, and the records of each chunk bear the whole's label.
   */
  lemma SplitHoldsSameRecords(results: seq<seq<Record>>, pages: seq<PageContent>, size: nat, depth: Depth, base: nat,
                              parts: nat -> Reading, parent: Parent, whole: Reading, records: seq<Record>)
    requires size >= 1 && ChunksExtracted(results, pages, size, depth, base, parts)
    requires IsExtraction(records, pages, depth, 0, base, LabelOf(whole))
    ensures multiset(Flatten(Normalized(results, pages, size, StartPage, parent))) == multiset(records)
            <==> TextOnce(depth, |pages|, size) && ChunksAlike(pages, size, depth, parts, parent, LabelOf(whole))
  {
    hide Normalized, IsExtraction, Flatten, ChunksAlike, TextOnce, LabelOf;
    var o := LabelOf(whole);
    if multiset(Flatten(Normalized(results, pages, size, StartPage, parent))) == multiset(records) {
      BearersAlike(results, pages, size, depth, StartPage, base, parts, parent, o, records);
    }
    if ChunksAlike(pages, size, depth, parts, parent, o) {
      AlikeSplit(results, pages, size, depth, base, parts, parent, o, records);
    }
  }

  // --- when labels are alike -----------------------------------------------------------------------------------

  /** The record is written, up to page numbers and label, by extraction of these pages. */
  ghost predicate Writes(pages: seq<PageContent>, depth: Depth, lo: nat, r: Record) {
    || (exists p :: 0 <= p < |pages| && (r in pages[p].direct || r in pages[p].deferred))
    || (depth.DocumentDepth? && pages != [] && r == depth.text(lo, lo + |pages|))
  }

  lemma AlikeWrites(pages: seq<PageContent>, depth: Depth, lo: nat, o: Label, other: Label)
    ensures Alike(pages, depth, lo, o, other)
            <==> forall r :: Writes(pages, depth, lo, r) ==> SameFor(r, o, other)
  {
    hide SameFor;
    if forall r :: Writes(pages, depth, lo, r) ==> SameFor(r, o, other) {
      forall p, i | 0 <= p < |pages| && 0 <= i < |Direct(pages)[p]|
        ensures SameFor(Direct(pages)[p][i], o, other)
      {
        assert pages[p].direct[i] in pages[p].direct && Writes(pages, depth, lo, pages[p].direct[i]);
      }
      forall p, i | 0 <= p < |pages| && 0 <= i < |Deferred(pages)[p]|
        ensures SameFor(Deferred(pages)[p][i], o, other)
      {
        assert pages[p].deferred[i] in pages[p].deferred && Writes(pages, depth, lo, pages[p].deferred[i]);
      }
      if depth.DocumentDepth? && pages != [] {
        assert Writes(pages, depth, lo, depth.text(lo, lo + |pages|));
      }
    }
    if Alike(pages, depth, lo, o, other) {
      forall r | Writes(pages, depth, lo, r)
        ensures SameFor(r, o, other)
      {
        if p :| 0 <= p < |pages| && r in pages[p].direct {
          var i :| 0 <= i < |pages[p].direct| && pages[p].direct[i] == r;
          assert SameFor(Direct(pages)[p][i], o, other);
        } else if p :| 0 <= p < |pages| && r in pages[p].deferred {
          var i :| 0 <= i < |pages[p].deferred| && pages[p].deferred[i] == r;
          assert SameFor(Deferred(pages)[p][i], o, other);
        }
      }
    }
  }

  /** Some record is written; some record with keywords. */
  ghost predicate WritesAny(chunk: Chunk<PageContent>, size: nat, depth: Depth) {
    exists r :: Writes(chunk.pages, depth, chunk.index * size, r)
  }

  ghost predicate WritesText(chunk: Chunk<PageContent>, size: nat, depth: Depth) {
    exists r :: Writes(chunk.pages, depth, chunk.index * size, r) && HasKeywords(r)
  }

  /** As the engine writes them, all records have source metadata and give the number of pages. */
  ghost predicate WritesFully(chunk: Chunk<PageContent>, size: nat, depth: Depth) {
    forall r :: Writes(chunk.pages, depth, chunk.index * size, r) ==> HasSource(r) && HasPageCount(r)
  }

  /** What has to agree for one chunk: id and name are those of the parent by then, dates and keywords the chunk's. */
  ghost predicate SourceAgrees(chunk: Chunk<PageContent>, size: nat, depth: Depth, part: Reading, name: string,
                               whole: Reading) {
    && (WritesAny(chunk, size, depth) ==> name == whole.id && LabelOf(part).dates == LabelOf(whole).dates)
    && (WritesText(chunk, size, depth) ==> part.keywords == whole.keywords)
  }

  /**
   For a document of which id, name and number of pages are known, labels are alike exactly when the name is the id, the
   dates of each chunk with a record are those of the document, and the keywords of each chunk with text as well.
   */
  lemma AlikeExactly(pages: seq<PageContent>, size: nat, depth: Depth, parts: nat -> Reading, name: string,
                     whole: Reading)
    requires size >= 1 && whole.id != "" && name != ""
    requires forall c: nat :: c < |Chunks(pages, size)| ==> WritesFully(Chunks(pages, size)[c], size, depth)
    ensures var parent := Parent(Number(whole.pages), Some(whole.id), Some(name));
            ChunksAlike(pages, size, depth, parts, parent, LabelOf(whole))
            <==> forall c: nat :: c < |Chunks(pages, size)| ==>
              SourceAgrees(Chunks(pages, size)[c], size, depth, parts(c), name, whole)
  {
    hide Chunks, WritesFully, SourceAgrees, ChunkAlike, LabelOf, Relabel;
    var chunks, parent := Chunks(pages, size), Parent(Number(whole.pages), Some(whole.id), Some(name));
    forall c: nat | c < |chunks|
      ensures ChunkAlike(chunks[c], size, depth, Relabel(LabelOf(parts(c)), parent), LabelOf(whole))
              <==> SourceAgrees(chunks[c], size, depth, parts(c), name, whole)
    {
      ChunkAlikeExactly(chunks[c], size, depth, parts(c), name, whole);
    }
  }

  lemma ChunkAlikeExactly(chunk: Chunk<PageContent>, size: nat, depth: Depth, part: Reading, name: string,
                          whole: Reading)
    requires whole.id != "" && name != "" && WritesFully(chunk, size, depth)
    ensures var parent := Parent(Number(whole.pages), Some(whole.id), Some(name));
            ChunkAlike(chunk, size, depth, Relabel(LabelOf(part), parent), LabelOf(whole))
            <==> SourceAgrees(chunk, size, depth, part, name, whole)
  {
    hide Alike, Writes, HasSource, HasKeywords, HasPageCount;
    var parent := Parent(Number(whole.pages), Some(whole.id), Some(name));
    AlikeWrites(chunk.pages, depth, chunk.index * size, Relabel(LabelOf(part), parent), LabelOf(whole));
  }

  /** One record about which the labels differ is enough. */
  lemma OneDiffers(results: seq<seq<Record>>, pages: seq<PageContent>, size: nat, depth: Depth, carried: Carried,
                   base: nat, parts: nat -> Reading, parent: Parent, whole: Label, records: seq<Record>, r: Record)
    requires size >= 1 && ChunksExtracted(results, pages, size, depth, base, parts)
    requires IsExtraction(records, pages, depth, 0, base, whole)
    requires pages != [] && r in pages[0].direct && !SameFor(r, Relabel(LabelOf(parts(0)), parent), whole)
    ensures multiset(Flatten(Normalized(results, pages, size, carried, parent))) != multiset(records)
  {
    hide Normalized, IsExtraction, Flatten, Relabel, LabelOf, SameFor, Chunks;
    ChunkCountIsCeiling(|pages|, size, 0);
    ChunkIs(pages, size, 0);
    var chunk := Chunks(pages, size)[0];
    AlikeWrites(chunk.pages, depth, chunk.index * size, Relabel(LabelOf(parts(0)), parent), whole);
    assert chunk.pages[0] == pages[0];
    assert Writes(chunk.pages, depth, chunk.index * size, r);
    assert !ChunkAlike(chunk, size, depth, Relabel(LabelOf(parts(0)), parent), whole);
    if multiset(Flatten(Normalized(results, pages, size, carried, parent))) == multiset(records) {
      BearersAlike(results, pages, size, depth, carried, base, parts, parent, whole, records);
    }
  }

  /** report.pdf, sent under the id doc-7: the whole document gives that id as its name, the chunks give report.pdf. */
  lemma NameIsReplaced(r: Record, results: seq<seq<Record>>, carried: Carried, parts: nat -> Reading, whole: Reading,
                       records: seq<Record>)
    requires HasSource(r) && whole.id == "doc-7"
    requires ChunksExtracted(results, [PageContent([r], []), PageContent([r], [])], 1, PageDepth, 1, parts)
    requires IsExtraction(records, [PageContent([r], []), PageContent([r], [])], PageDepth, 0, 1, LabelOf(whole))
    ensures var parent := Parent(Number(2), Some("doc-7"), Some("report.pdf"));
            var pages := [PageContent([r], []), PageContent([r], [])];
            multiset(Flatten(Normalized(results, pages, 1, carried, parent))) != multiset(records)
  {
    hide Normalized, IsExtraction, Flatten, ChunksExtracted;
    var parent := Parent(Number(2), Some("doc-7"), Some("report.pdf"));
    var pages := [PageContent([r], []), PageContent([r], [])];
    OneDiffers(results, pages, 1, PageDepth, carried, 1, parts, parent, LabelOf(whole), records, r);
  }

  /** A document with keywords whose chunks have none: nothing brings them back. */
  lemma KeywordsAreLost(r: Record, results: seq<seq<Record>>, carried: Carried, parts: nat -> Reading, parent: Parent,
                        whole: Reading, records: seq<Record>)
    requires HasKeywords(r) && whole.keywords == "budget" && parts(0).keywords == ""
    requires ChunksExtracted(results, [PageContent([r], []), PageContent([r], [])], 1, PageDepth, 1, parts)
    requires IsExtraction(records, [PageContent([r], []), PageContent([r], [])], PageDepth, 0, 1, LabelOf(whole))
    ensures var pages := [PageContent([r], []), PageContent([r], [])];
            multiset(Flatten(Normalized(results, pages, 1, carried, parent))) != multiset(records)
  {
    hide Normalized, IsExtraction, Flatten, ChunksExtracted;
    var pages := [PageContent([r], []), PageContent([r], [])];
    OneDiffers(results, pages, 1, PageDepth, carried, 1, parts, parent, LabelOf(whole), records, r);
  }

  // --- the order of the records --------------------------------------------------------------------------------

  ghost predicate NothingDeferred(pages: seq<PageContent>) {
    forall i :: 0 <= i < |pages| ==> pages[i].deferred == []
  }

  lemma {:induction false} NothingLate(pages: seq<PageContent>, number: nat, o: Label)
    requires NothingDeferred(pages)
    ensures Extract(Deferred(pages), number, o) == []
    decreases |pages|
  {
    if pages != [] {
      assert Deferred(pages)[1..] == Deferred(pages[1..]);
      assert pages[0].deferred == [];
      NothingLate(pages[1..], number + 1, o);
    }
  }

  /** Without tables and charts there is one way to extract. */
  lemma PlainExtraction(records: seq<Record>, pages: seq<PageContent>, depth: Depth, lo: nat, number: nat, o: Label)
    requires NothingDeferred(pages) && IsExtraction(records, pages, depth, lo, number, o)
    ensures records == Extract(Direct(pages), number, o) + Summary(depth, lo, lo + |pages|, number, o)
  {
    hide Extract, Summary, NothingDeferred;
    var late :| Ends(records, late, pages, depth, lo, number, o);
    NothingLate(pages, number, o);
    NoneOf(late);
  }

  lemma PlainChunk(results: seq<seq<Record>>, pages: seq<PageContent>, size: nat, depth: Depth, carried: Carried,
                   base: nat, parts: nat -> Reading, parent: Parent, whole: Label, c: nat)
    requires size >= 1 && ChunksAlike(pages, size, depth, parts, parent, whole) && NothingDeferred(pages)
    requires ChunksExtracted(results, pages, size, depth, base, parts) && c < |results|
    ensures c * size < |pages|
    ensures var number := base + OffsetOf(carried, size, c);
            Normalized(results, pages, size, carried, parent)[c]
            == Extract(ChunkAt(Direct(pages), size, c).pages, number, whole)
               + Summary(depth, c * size, ChunkEnd(|pages|, size, c + 1), number, whole)
  {
    hide Alike, Relabel, LabelOf, Extract, NormalizeAll, Chunks, ChunkCount, Direct, Deferred, Summary, IsExtraction,
         ChunkEnd;
    ChunkIs(pages, size, c);
    ChunkFields(pages, size, c);
    SlicesOfContent(pages, size, c);
    assert ChunkExtracted(results[c], Chunks(pages, size)[c], size, depth, base, LabelOf(parts(c)));
    var chunk, offset := ChunkAt(pages, size, c), OffsetOf(carried, size, c);
    assert NothingDeferred(chunk.pages);
    hide ChunkAt;
    NormalizedExtraction(results[c], chunk.pages, depth, c * size, base, offset, LabelOf(parts(c)), parent);
    assert ChunkAlike(Chunks(pages, size)[c], size, depth, Relabel(LabelOf(parts(c)), parent), whole);
    AlikeExtraction(Normalized(results, pages, size, carried, parent)[c], chunk.pages, depth, c * size, base + offset,
                    Relabel(LabelOf(parts(c)), parent), whole);
    PlainExtraction(Normalized(results, pages, size, carried, parent)[c], chunk.pages, depth, c * size, base + offset,
                    whole);
  }

  lemma {:induction false} PlainSplit(results: seq<seq<Record>>, pages: seq<PageContent>, size: nat, carried: Carried,
                                      base: nat, parts: nat -> Reading, parent: Parent, whole: Label, count: nat)
    requires size >= 1 && ChunksAlike(pages, size, PageDepth, parts, parent, whole) && NothingDeferred(pages)
    requires ChunksExtracted(results, pages, size, PageDepth, base, parts) && count <= |results|
    ensures Flatten(Normalized(results, pages, size, carried, parent)[..count])
        == Pass(Direct(pages), size, carried, base, whole, count)
    decreases count
  {
    hide Extract, Normalized, Chunks, ChunkCount, ChunkAt, Direct, NothingDeferred;
    var normalized := Normalized(results, pages, size, carried, parent);
    if count == 0 {
      assert normalized[..0] == [];
    } else {
      PlainSplit(results, pages, size, carried, base, parts, parent, whole, count - 1);
      PlainChunk(results, pages, size, PageDepth, carried, base, parts, parent, whole, count - 1);
      PassStep(Direct(pages), size, carried, base, whole, count - 1);
      assert normalized[..count] == normalized[..count - 1] + [normalized[count - 1]];
      FlattenAppend(normalized[..count - 1], normalized[count - 1]);
    }
  }

  /**
   Without tables and charts, at page depth or in one chunk, the data is the pass over the pages and the text record.
   */
  lemma PlainWhole(results: seq<seq<Record>>, pages: seq<PageContent>, size: nat, depth: Depth, carried: Carried,
                   base: nat, parts: nat -> Reading, parent: Parent, whole: Label)
    requires size >= 1 && ChunksAlike(pages, size, depth, parts, parent,
                                      whole) && NothingDeferred(pages) && TextOnce(depth, |pages|, size)
    requires ChunksExtracted(results, pages, size, depth, base, parts)
    ensures Flatten(Normalized(results, pages, size, carried, parent))
         == Pass(Direct(pages), size, carried, base, whole, ChunkCount(|pages|, size))
            + Summary(depth, 0, |pages|, base, whole)
  {
    hide Extract, Normalized, Chunks, ChunkCount, ChunkAt, Direct, NothingDeferred, ChunkExtracted, Summary;
    var n := ChunkCount(|pages|, size);
    var normalized := Normalized(results, pages, size, carried, parent);
    assert normalized[..n] == normalized;
    NoSummary(depth, 0, |pages|, base, whole);
    if depth.PageDepth? {
      PlainSplit(results, pages, size, carried, base, parts, parent, whole, n);
    } else if n == 1 {
      PlainOneChunk(results, pages, size, depth, carried, base, parts, parent, whole);
    } else {
      ChunkCountIsCeiling(|pages|, size, 0);
    }
  }

  /** Without tables and charts the order is that of the whole document as well, under the same condition. */
  lemma SplitIsSameSequence(results: seq<seq<Record>>, pages: seq<PageContent>, size: nat, depth: Depth, base: nat,
                            parts: nat -> Reading, parent: Parent, whole: Reading, records: seq<Record>)
    requires size >= 1 && NothingDeferred(pages) && ChunksExtracted(results, pages, size, depth, base, parts)
    requires IsExtraction(records, pages, depth, 0, base, LabelOf(whole))
    ensures Flatten(Normalized(results, pages, size, StartPage, parent)) == records
            <==> TextOnce(depth, |pages|, size) && ChunksAlike(pages, size, depth, parts, parent, LabelOf(whole))
  {
    hide Extract, Normalized, Chunks, ChunkCount, ChunkAt, Direct, IsExtraction, NothingDeferred, ChunksExtracted,
         Summary, TextOnce, ChunksAlike, LabelOf;
    var o := LabelOf(whole);
    SplitHoldsSameRecords(results, pages, size, depth, base, parts, parent, whole, records);
    PlainExtraction(records, pages, depth, 0, base, o);
    WholePass(Direct(pages), size, base, o);
    if TextOnce(depth, |pages|, size) && ChunksAlike(pages, size, depth, parts, parent, o) {
      PlainWhole(results, pages, size, depth, StartPage, base, parts, parent, o);
    }
  }

  lemma NoSummary(depth: Depth, lo: nat, hi: nat, number: nat, o: Label)
    ensures depth.PageDepth? || lo == hi ==> Summary(depth, lo, hi, number, o) == []
  {
  }

  lemma PlainOneChunk(results: seq<seq<Record>>, pages: seq<PageContent>, size: nat, depth: Depth, carried: Carried,
                      base: nat, parts: nat -> Reading, parent: Parent, whole: Label)
    requires size >= 1 && ChunksAlike(pages, size, depth, parts, parent,
                                      whole) && NothingDeferred(pages) && ChunkCount(|pages|, size) == 1
    requires ChunksExtracted(results, pages, size, depth, base, parts)
    ensures Flatten(Normalized(results, pages, size, carried, parent))
         == Pass(Direct(pages), size, carried, base, whole, 1) + Summary(depth, 0, |pages|, base, whole)
  {
    hide Extract, Normalized, Chunks, ChunkCount, ChunkAt, Direct, NothingDeferred, Summary, ChunkExtracted;
    var normalized := Normalized(results, pages, size, carried, parent);
    PlainChunk(results, pages, size, depth, carried, base, parts, parent, whole, 0);
    PassStep(Direct(pages), size, carried, base, whole, 0);
    ChunkCountIsCeiling(|pages|, size, 1);
    ChunkIs(pages, size, 0);
    OneSlice(Direct(pages), size);
    assert normalized == [normalized[0]];
    assert Flatten([normalized[0]]) == normalized[0] + Flatten<Record>([]);
  }

  lemma OneSlice(pages: seq<Page>, size: nat)
    requires size >= 1 && 0 < |pages| <= size
    ensures 0 * size == 0 && ChunkAt(pages, size, 0).pages == pages && ChunkEnd(|pages|, size, 1) == |pages|
  {
  }

  /** With tables the order can change: a table of the first chunk comes before the text of the second page. */
  lemma TablesComeEarlier(a: Record, t: Record, b: Record, u: Record, base: nat, whole: Label, records: seq<Record>)
    requires Stamp(t, base, whole) != Stamp(b, base + 1, whole)
    requires IsExtraction(records, [PageContent([a], [t]), PageContent([b], [u])], PageDepth, 0, base, whole)
    ensures records != [Stamp(a, base, whole), Stamp(t, base, whole), Stamp(b, base + 1, whole),
                        Stamp(u, base + 1, whole)]
  {
    hide Stamp;
    var pages := [PageContent([a], [t]), PageContent([b], [u])];
    var late :| Ends(records, late, pages, PageDepth, 0, base, whole);
    assert Direct(pages) == [[a], [b]] && [[a], [b]][1..] == [[b]] && [[b]][1..] == [];
    assert StampPage([a], base, whole) == [Stamp(a, base, whole)];
    assert StampPage([b], base + 1, whole) == [Stamp(b, base + 1, whole)];
    assert Extract([[b]], base + 1, whole) == [Stamp(b, base + 1, whole)];
    assert records[1] == Stamp(b, base + 1, whole);
  }
}
