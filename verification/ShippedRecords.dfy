/**
 Splitting as shipped, with descriptors that carry no start page: every chunk counts its pages from the first one, so
 that numbers come out too low. The sums of all page numbers tell exactly when.
 */
module ShippedRecords {
  import opened Sequences
  import opened PdfSplit
  import opened ChunkRecords
  import opened DocumentExtraction

  function PageValue(page: Field): nat {
    if IsPage(page) then page.n else 0
  }

  /** The page numbers a record carries, added up. */
  function PageSum(r: Record): nat {
    if !r.Entry? || !r.metadata.Metadata? || !r.metadata.content.Content? then 0
    else
      var c := r.metadata.content;
      PageValue(c.pageNumber) + if c.hierarchy.Hierarchy? then PageValue(c.hierarchy.page) else 0
  }

  function Sum(records: seq<Record>): nat {
    if records == [] then 0 else PageSum(records[0]) + Sum(records[1..])
  }

  lemma {:induction false} SumConcat(a: seq<Record>, b: seq<Record>)
    ensures Sum(a + b) == Sum(a) + Sum(b)
  {
    if a == [] {
      assert a + b == b;
    } else {
      assert (a + b)[1..] == a[1..] + b && (a + b)[0] == a[0];
      SumConcat(a[1..], b);
    }
  }

  lemma {:induction false} SumPermutes(a: seq<Record>, b: seq<Record>)
    requires multiset(a) == multiset(b)
    ensures Sum(a) == Sum(b)
    decreases |a|
  {
    hide PageSum;
    if a == [] {
      NoneOf(b);
    } else {
      var i := TakeFirst(a, b);
      var before, after := b[..i], b[i + 1..];
      SumPermutes(a[1..], before + after);
      assert b == before + [b[i]] + after;
      SumConcat(before + [b[i]], after);
      SumConcat(before, [b[i]]);
      SumConcat(before, after);
      assert [b[i]][1..] == [];
    }
  }

  lemma StampSum(r: Record, number: nat, more: nat, o: Label)
    requires more > 0
    ensures PageSum(Stamp(r, number, o)) <= PageSum(Stamp(r, number + more, o))
    ensures PageSum(Stamp(r, number, o)) == PageSum(Stamp(r, number + more, o)) <==> !Numbered(r)
  {
  }

  lemma {:induction false} PageSums(page: Page, number: nat, more: nat, o: Label)
    requires more > 0
    ensures Sum(StampPage(page, number, o)) <= Sum(StampPage(page, number + more, o))
    ensures Sum(StampPage(page, number, o)) == Sum(StampPage(page, number + more, o))
            <==> forall r :: r in page ==> !Numbered(r)
  {
    if page != [] {
      hide Stamp, Numbered, PageSum;
      StampSum(page[0], number, more, o);
      PageSums(page[1..], number, more, o);
      assert StampPage(page, number, o)[1..] == StampPage(page[1..], number, o);
      assert StampPage(page, number + more, o)[1..] == StampPage(page[1..], number + more, o);
      assert page == [page[0]] + page[1..];
    }
  }

  /** Counting the pages higher adds to the sum exactly when something is numbered. */
  lemma {:induction false} ExtractSums(pages: seq<Page>, number: nat, more: nat, o: Label)
    requires more > 0
    ensures Sum(Extract(pages, number, o)) <= Sum(Extract(pages, number + more, o))
    ensures Sum(Extract(pages, number, o)) == Sum(Extract(pages, number + more, o)) <==> Unnumbered(pages)
    decreases |pages|
  {
    if pages != [] {
      hide StampPage, Numbered, Sum, Unnumbered, Extract;
      ExtractFirst(pages, number, o);
      ExtractFirst(pages, number + more, o);
      ExtractSums(pages[1..], number + 1, more, o);
      PageSums(pages[0], number, more, o);
      SumConcat(StampPage(pages[0], number, o), Extract(pages[1..], number + 1, o));
      SumConcat(StampPage(pages[0], number + more, o), Extract(pages[1..], number + 1 + more, o));
      UnnumberedSplit([pages[0]], pages[1..]);
      assert pages == [pages[0]] + pages[1..];
      OnePage(pages[0]);
    } else {
      ExtractNothing(number, o);
      ExtractNothing(number + more, o);
    }
  }

  lemma ExtractFirst(pages: seq<Page>, number: nat, o: Label)
    requires pages != []
    ensures Extract(pages, number, o) == StampPage(pages[0], number, o) + Extract(pages[1..], number + 1, o)
  {
  }

  lemma OnePage(page: Page)
    ensures Unnumbered([page]) <==> forall r :: r in page ==> !Numbered(r)
  {
    hide Numbered;
    if Unnumbered([page]) {
      forall i | 0 <= i < |page|
        ensures !Numbered(page[i])
      {
        assert !Numbered([page][0][i]);
      }
    }
  }

  /** As shipped a pass numbers too low, by something exactly when a page after the first chunk is numbered. */
  lemma {:induction false} ShippedPassSum(pages: seq<Page>, size: nat, base: nat, whole: Label, count: nat)
    requires size >= 1 && 1 <= count <= ChunkCount(|pages|, size)
    ensures ChunkEnd(|pages|, size, 1) <= ChunkEnd(|pages|, size, count)
    ensures var shipped := Pass(pages, size, Nothing, base, whole, count);
            var right := Pass(pages, size, StartPage, base, whole, count);
            && Sum(shipped) <= Sum(right)
            && (Sum(shipped) == Sum(right)
                <==> Unnumbered(pages[ChunkEnd(|pages|, size, 1)..ChunkEnd(|pages|, size, count)]))
            && (Sum(shipped) == Sum(right) ==> shipped == right)
    decreases count
  {
    hide Extract, ChunkCount, Unnumbered, Sum, Pass;
    var c := count - 1;
    ChunkIs(pages, size, c);
    NextChunk(pages, size, c);
    NextChunk(pages, size, 0);
    PassStep(pages, size, Nothing, base, whole, c);
    PassStep(pages, size, StartPage, base, whole, c);
    var chunk := ChunkAt(pages, size, c);
    var first := ChunkEnd(|pages|, size, 1);
    if c == 0 {
      PassNothing(pages, size, base, whole);
      assert pages[first..first] == [];
      NothingUnnumbered();
    } else {
      ShippedPassSum(pages, size, base, whole, c);
      SumConcat(Pass(pages, size, Nothing, base, whole, c), Extract(chunk.pages, base, whole));
      SumConcat(Pass(pages, size, StartPage, base, whole, c), Extract(chunk.pages, base + c * size, whole));
      Positive(c, size);
      ExtractSums(chunk.pages, base, c * size, whole);
      ExtractDepends(chunk.pages, base, base + c * size, whole);
      UnnumberedSplit(pages[first..c * size], chunk.pages);
      assert pages[first..ChunkEnd(|pages|, size, count)] == pages[first..c * size] + chunk.pages;
    }
  }

  lemma Positive(c: nat, size: nat)
    requires c >= 1 && size >= 1
    ensures c * size > 0
  {
  }

  lemma PassNothing(pages: seq<Page>, size: nat, base: nat, whole: Label)
    requires size >= 1
    ensures Pass(pages, size, Nothing, base, whole, 0) == Pass(pages, size, StartPage, base, whole, 0) == []
  {
  }

  lemma AlikeShipped(results: seq<seq<Record>>, pages: seq<PageContent>, size: nat, depth: Depth, base: nat,
                     parts: nat -> Reading, parent: Parent, whole: Label, records: seq<Record>)
    requires size >= 1 && ChunksAlike(pages, size, depth, parts, parent, whole)
    requires ChunksExtracted(results, pages, size, depth, base, parts)
    requires IsExtraction(records, pages, depth, 0, base, whole)
    ensures multiset(Flatten(Normalized(results, pages, size, Nothing, parent))) == multiset(records)
            <==> TextOnce(depth, |pages|, size) && Unnumbered(Direct(pages)[Min(size, |pages|)..])
                 && Unnumbered(Deferred(pages)[Min(size, |pages|)..])
  {
    hide Extract, Pass, Summaries, Summary, Normalized, IsExtraction, Flatten, Direct, Deferred, Unnumbered, Sum;
    var n := ChunkCount(|pages|, size);
    var normalized := Normalized(results, pages, size, Nothing, parent);
    assert normalized[..n] == normalized;
    SplitContents(results, pages, size, depth, Nothing, base, parts, parent, whole, n);
    ExtractionContents(records, pages, depth, 0, base, whole);
    SummariesOnce(depth, |pages|, size, Nothing, base, whole);
    var all, one := Summaries(depth, |pages|, size, Nothing, base, whole, n), Summary(depth, 0, |pages|, base, whole);
    var d, d' := Pass(Direct(pages), size, Nothing, base, whole, n), Extract(Direct(pages), base, whole);
    var f, f' := Pass(Deferred(pages), size, Nothing, base, whole, n), Extract(Deferred(pages), base, whole);
    ShippedPass(Direct(pages), size, base, whole);
    ShippedPass(Deferred(pages), size, base, whole);
    ShippedBalance(Flatten(normalized), records, d, d', f, f', all, one);
  }

  /**
   As shipped, the chunks hold exactly the records of the whole document if and only if, besides, no record made of a
   page after the first chunk carries a page number.
   */
  lemma ShippedHoldsSameRecords(results: seq<seq<Record>>, pages: seq<PageContent>, size: nat, depth: Depth, base: nat,
                                parts: nat -> Reading, parent: Parent, whole: Reading, records: seq<Record>)
    requires size >= 1 && ChunksExtracted(results, pages, size, depth, base, parts)
    requires IsExtraction(records, pages, depth, 0, base, LabelOf(whole))
    ensures multiset(Flatten(Normalized(results, pages, size, Nothing, parent))) == multiset(records)
            <==> TextOnce(depth, |pages|, size) && ChunksAlike(pages, size, depth, parts, parent, LabelOf(whole))
                 && Unnumbered(Direct(pages)[Min(size, |pages|)..])
                 && Unnumbered(Deferred(pages)[Min(size, |pages|)..])
  {
    hide Normalized, IsExtraction, Flatten, ChunksAlike, TextOnce, LabelOf, Unnumbered;
    var o := LabelOf(whole);
    if multiset(Flatten(Normalized(results, pages, size, Nothing, parent))) == multiset(records) {
      BearersAlike(results, pages, size, depth, Nothing, base, parts, parent, o, records);
    }
    if ChunksAlike(pages, size, depth, parts, parent, o) {
      AlikeShipped(results, pages, size, depth, base, parts, parent, o, records);
    }
  }

  lemma ShippedPass(pages: seq<Page>, size: nat, base: nat, whole: Label)
    requires size >= 1
    ensures var shipped := Pass(pages, size, Nothing, base, whole, ChunkCount(|pages|, size));
            var right := Extract(pages, base, whole);
            && |shipped| == |right| && Sum(shipped) <= Sum(right)
            && (Sum(shipped) == Sum(right) <==> Unnumbered(pages[Min(size, |pages|)..]))
            && (Sum(shipped) == Sum(right) ==> shipped == right)
  {
    hide Extract, Pass, Sum, Unnumbered;
    var n := ChunkCount(|pages|, size);
    WholePass(pages, size, base, whole);
    ShippedLength(pages, size, base, whole, n);
    ChunkCountIsCeiling(|pages|, size, 0);
    ChunkCountIsCeiling(|pages|, size, n);
    if n == 0 {
      PassNothing(pages, size, base, whole);
      NothingUnnumbered();
      assert pages[0..] == [];
    } else {
      ShippedPassSum(pages, size, base, whole, n);
      assert ChunkEnd(|pages|, size, 1) == Min(size, |pages|) && ChunkEnd(|pages|, size, n) == |pages|;
      assert pages[Min(size, |pages|)..|pages|] == pages[Min(size, |pages|)..];
    }
  }

  lemma {:induction false} ShippedLength(pages: seq<Page>, size: nat, base: nat, whole: Label, count: nat)
    requires size >= 1 && count <= ChunkCount(|pages|, size)
    ensures |Pass(pages, size, Nothing, base, whole, count)| == |Pass(pages, size, StartPage, base, whole, count)|
    decreases count
  {
    if count > 0 {
      hide Extract, ChunkCount, Pass;
      var c: nat := count - 1;
      ShippedLength(pages, size, base, whole, c);
      PassStep(pages, size, Nothing, base, whole, c);
      PassStep(pages, size, StartPage, base, whole, c);
      SameLength(ChunkAt(pages, size, c).pages, base + OffsetOf(Nothing, size, c), base + OffsetOf(StartPage, size, c),
                 whole);
    } else {
      PassNothing(pages, size, base, whole);
    }
  }

  lemma SameLength(pages: seq<Page>, number: nat, other: nat, o: Label)
    ensures |Extract(pages, number, o)| == |Extract(pages, other, o)|
  {
    if number != other { ExtractDepends(pages, number, other, o); }
  }

  /** Lengths and sums decide whether the shipped parts make up the whole. */
  lemma ShippedBalance(split: seq<Record>, records: seq<Record>, d: seq<Record>, d': seq<Record>, f: seq<Record>,
                       f': seq<Record>, all: seq<Record>, one: seq<Record>)
    requires multiset(split) == multiset(d) + multiset(f) + multiset(all)
    requires multiset(records) == multiset(d') + multiset(f') + multiset(one)
    requires |d| == |d'| && |f| == |f'| && (all == one || |all| != |one|)
    requires Sum(d) <= Sum(d') && Sum(f) <= Sum(f') && (Sum(d) == Sum(d') ==> d == d')
    requires (Sum(f) == Sum(f') ==> f == f')
    ensures multiset(split) == multiset(records) <==> all == one && Sum(d) == Sum(d') && Sum(f) == Sum(f')
  {
    hide Sum;
    var s, t := d + f + all, d' + f' + one;
    assert multiset(split) == multiset(s) && multiset(records) == multiset(t);
    if multiset(s) == multiset(t) {
      SameSize(s, t);
      SumPermutes(s, t);
      SumThree(d, f, all);
      SumThree(d', f', one);
    }
  }

  lemma SameSize(s: seq<Record>, t: seq<Record>)
    requires multiset(s) == multiset(t)
    ensures |s| == |t|
  {
    assert |multiset(s)| == |s| && |multiset(t)| == |t|;
  }

  lemma SumThree(a: seq<Record>, b: seq<Record>, c: seq<Record>)
    ensures Sum(a + b + c) == Sum(a) + Sum(b) + Sum(c)
  {
    hide Sum;
    SumConcat(a + b, c);
    SumConcat(a, b);
  }

  /** The same of the order, without tables and charts. */
  lemma ShippedIsSameSequence(results: seq<seq<Record>>, pages: seq<PageContent>, size: nat, depth: Depth, base: nat,
                              parts: nat -> Reading, parent: Parent, whole: Reading, records: seq<Record>)
    requires size >= 1 && NothingDeferred(pages) && ChunksExtracted(results, pages, size, depth, base, parts)
    requires IsExtraction(records, pages, depth, 0, base, LabelOf(whole))
    ensures Flatten(Normalized(results, pages, size, Nothing, parent)) == records
            <==> TextOnce(depth, |pages|, size) && ChunksAlike(pages, size, depth, parts, parent, LabelOf(whole))
                 && Unnumbered(Direct(pages)[Min(size, |pages|)..])
  {
    hide Extract, Normalized, Chunks, ChunkCount, ChunkAt, Direct, Deferred, IsExtraction, ChunksExtracted, Summary,
         TextOnce, Pass, Sum, ChunksAlike, LabelOf;
    var o := LabelOf(whole);
    ShippedHoldsSameRecords(results, pages, size, depth, base, parts, parent, whole, records);
    PlainExtraction(records, pages, depth, 0, base, o);
    ShippedPass(Direct(pages), size, base, o);
    NothingNumbered(pages, Min(size, |pages|));
    if TextOnce(depth, |pages|, size) && ChunksAlike(pages, size, depth, parts, parent, o) {
      PlainWhole(results, pages, size, depth, Nothing, base, parts, parent, o);
    }
  }

  lemma NothingNumbered(pages: seq<PageContent>, lo: nat)
    requires NothingDeferred(pages) && lo <= |pages|
    ensures Unnumbered(Deferred(pages)[lo..])
  {
    hide Numbered;
  }
}
