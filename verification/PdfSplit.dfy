/** Splitting a PDF into chunks of pages (split_pdf_to_chunks in api/v2/ingest.py). */
module PdfSplit {
  import opened Sequences

  datatype Chunk<Page> = Chunk(pages: seq<Page>, index: nat, startPage: nat, endPage: nat, pageCount: nat)

  function ChunkEnd(n: nat, size: nat, c: nat): (end: nat)
    ensures end <= n
  {
    if c * size < n then c * size else n
  }

  /** The c-th chunk: pages c*size + 1 up to (c+1)*size, or up to the last page. */
  function ChunkAt<Page>(pages: seq<Page>, size: nat, c: nat): Chunk<Page>
    requires c * size < |pages|
  {
    var end := ChunkEnd(|pages|, size, c + 1);
    assert (c + 1) * size == c * size + size;
    Chunk(pages[c * size..end], c, c * size + 1, end, end - c * size)
  }

  function ChunkCount(n: nat, size: nat): nat
    requires size >= 1
  {
    (n + size - 1) / size
  }

  lemma ChunkCountIsCeiling(n: nat, size: nat, c: nat)
    requires size >= 1
    ensures c < ChunkCount(n, size) <==> c * size < n
  {
    var q := ChunkCount(n, size);
    assert n + size - 1 == q * size + (n + size - 1) % size;
    if c < q {
      assert (q - 1) * size == q * size - size;
      assert c * size <= (q - 1) * size by { Scale(c, q - 1, size); }
    } else {
      Scale(q, c, size);
    }
  }

  lemma Scale(a: int, b: int, size: nat)
    requires a <= b
    ensures a * size <= b * size
  {
  }

  function Chunks<Page>(pages: seq<Page>, size: nat): (chunks: seq<Chunk<Page>>)
    requires size >= 1
    ensures |chunks| == ChunkCount(|pages|, size)
  {
    seq(ChunkCount(|pages|, size), c requires 0 <= c < ChunkCount(|pages|, size) =>
      ChunkCountIsCeiling(|pages|, size, c); ChunkAt(pages, size, c))
  }

  /** split_pdf_to_chunks: a chunk size that is not positive counts as 1. */
  method SplitPdfToChunks<Page>(pages: seq<Page>, pagesPerChunk: int) returns (chunks: seq<Chunk<Page>>)
    ensures chunks == Chunks(pages, Max(1, pagesPerChunk))
  {
    hide ChunkCount, Chunks, ChunkEnd;
    var size: nat := if pagesPerChunk <= 0 then 1 else pagesPerChunk;
    chunks := [];
    var start := 0;
    while start < |pages|
      invariant start == |chunks| * size && |chunks| <= |Chunks(pages, size)|
      invariant chunks == Chunks(pages, size)[..|chunks|]
      decreases |pages| - start
    {
      ChunkCountIsCeiling(|pages|, size, |chunks|);
      ChunkIs(pages, size, |chunks|);
      var end := Min(start + size, |pages|);
      NextChunk(pages, size, |chunks|);
      var startPage, endPage := start + 1, end;
      chunks := chunks + [Chunk(pages[start..end], |chunks|, startPage, endPage, endPage - startPage + 1)];
      start := start + size;
    }
    ChunkCountIsCeiling(|pages|, size, |chunks|);
  }

  lemma NextChunk<Page>(pages: seq<Page>, size: nat, c: nat)
    requires size >= 1 && c * size < |pages|
    ensures (c + 1) * size == c * size + size && ChunkEnd(|pages|, size, c + 1) == Min(c * size + size, |pages|)
  {
    ChunkCountIsCeiling(|pages|, size, c);
  }

  function PagesOf<Page>(chunks: seq<Chunk<Page>>): seq<seq<Page>> {
    seq(|chunks|, c requires 0 <= c < |chunks| => chunks[c].pages)
  }

  lemma {:induction false} ChunksCoverPrefix<Page>(pages: seq<Page>, size: nat, count: nat)
    requires size >= 1 && count <= ChunkCount(|pages|, size)
    ensures Flatten(PagesOf(Chunks(pages, size)[..count])) == pages[..ChunkEnd(|pages|, size, count)]
  {
    if count > 0 {
      var before := Chunks(pages, size)[..count - 1];
      ChunksCoverPrefix(pages, size, count - 1);
      ChunkCountIsCeiling(|pages|, size, count - 1);
      var last := ChunkAt(pages, size, count - 1);
      assert PagesOf(Chunks(pages, size)[..count]) == PagesOf(before) + [last.pages];
      FlattenAppend(PagesOf(before), last.pages);
      assert (count - 1) * size <= count * size by { Scale(count - 1, count, size); }
    }
  }

  /** The chunks, put end to end, are the document; each but the last is full and none is empty. */
  lemma SplitPartitions<Page>(pages: seq<Page>, size: nat)
    requires size >= 1
    ensures var chunks := Chunks(pages, size);
            && Flatten(PagesOf(chunks)) == pages
            && (forall c: nat :: c < |chunks| ==>
                  1 <= |chunks[c].pages| <= size && |chunks[c].pages| == chunks[c].pageCount)
            && (forall c: nat :: c + 1 < |chunks| ==> |chunks[c].pages| == size)
  {
    var chunks, n := Chunks(pages, size), |pages|;
    ChunksCoverPrefix(pages, size, |chunks|);
    ChunkCountIsCeiling(n, size, |chunks|);
    assert chunks[..|chunks|] == chunks;
    forall c: nat | c < |chunks|
      ensures 1 <= |chunks[c].pages| <= size && |chunks[c].pages| == chunks[c].pageCount
      ensures c + 1 < |chunks| ==> |chunks[c].pages| == size
    {
      ChunkCountIsCeiling(n, size, c);
      ChunkCountIsCeiling(n, size, c + 1);
      assert (c + 1) * size == c * size + size;
    }
  }

  /** The page ranges written on the chunks are consecutive, from page 1 to the last page. */
  lemma RangesAreConsecutive<Page>(pages: seq<Page>, size: nat)
    requires size >= 1 && pages != []
    ensures var chunks := Chunks(pages, size);
            && chunks != [] && chunks[0].startPage == 1 && chunks[|chunks| - 1].endPage == |pages|
            && (forall c: nat :: c < |chunks| ==> chunks[c].index == c && chunks[c].startPage <= chunks[c].endPage)
            && (forall c: nat :: c + 1 < |chunks| ==> chunks[c + 1].startPage == chunks[c].endPage + 1)
  {
    var chunks, n := Chunks(pages, size), |pages|;
    ChunkCountIsCeiling(n, size, 0);
    ChunkCountIsCeiling(n, size, |chunks|);
    forall c: nat | c < |chunks|
      ensures chunks[c].startPage <= chunks[c].endPage
      ensures c + 1 < |chunks| ==> chunks[c + 1].startPage == chunks[c].endPage + 1
    {
      ChunkCountIsCeiling(n, size, c);
      ChunkCountIsCeiling(n, size, c + 1);
      assert (c + 1) * size == c * size + size;
    }
  }

  /** Every page of the document is exactly one local page of exactly one chunk. */
  lemma PageHasOnePlace<Page>(pages: seq<Page>, size: nat, p: nat, c: nat, local: nat)
    requires size >= 1 && p < |pages|
    ensures (&& c < ChunkCount(|pages|, size) && local < |Chunks(pages, size)[c].pages|
             && Chunks(pages, size)[c].startPage - 1 + local == p)
            <==> c == p / size && local == p % size
  {
    hide Chunks, ChunkCount;
    var n := |pages|;
    ChunkCountIsCeiling(n, size, c);
    ChunkCountIsCeiling(n, size, p / size);
    assert p == (p / size) * size + p % size;
    if c < ChunkCount(n, size) {
      ChunkIs(pages, size, c);
      assert (c + 1) * size == c * size + size;
      if local < size && c * size + local == p { DivisionUnique(p, size, c, local); }
    }
  }

  lemma ChunkIs<Page>(pages: seq<Page>, size: nat, c: nat)
    requires size >= 1 && c < ChunkCount(|pages|, size)
    ensures c * size < |pages| && c < |Chunks(pages, size)| && Chunks(pages, size)[c] == ChunkAt(pages, size, c)
  {
    ChunkCountIsCeiling(|pages|, size, c);
  }

  lemma DivisionUnique(p: nat, size: nat, c: nat, local: nat)
    requires size >= 1 && local < size && p == c * size + local
    ensures c == p / size && local == p % size
  {
    var q, r := p / size, p % size;
    assert p == q * size + r;
    assert (c + 1) * size == c * size + size && (q + 1) * size == q * size + size;
    if c < q {
      Scale(c + 1, q, size);
    } else if q < c {
      Scale(q + 1, c, size);
    }
  }
}
