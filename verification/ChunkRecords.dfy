/**
 Mapping the records extracted from a chunk back to the whole document (_normalize_chunk_records in
 api/v2/ingest.py), and why the chunks together then say what the document says.
 */
module ChunkRecords {
  import opened Sequences
  import opened PdfSplit

  /** What a key of a dictionary holds: nothing, an integer, or something else. */
  datatype Field = Absent | Number(n: int) | Other(text: string)

  datatype Hierarchy = NoHierarchy | Hierarchy(page: Field, pageCount: Field, rest: string)

  datatype ContentMeta = NoContent | Content(pageNumber: Field, pageCount: Field, hierarchy: Hierarchy, rest: string)

  /** When the document was created and last modified. */
  datatype Dates = Dates(created: string, modified: string)

  datatype SourceMeta = NoSource | Source(id: Option<string>, name: Option<string>, dates: Dates, rest: string)

  datatype TextMeta = NoText | Text(keywords: string, rest: string)

  datatype Metadata = NoMetadata | Metadata(source: SourceMeta, content: ContentMeta, text: TextMeta, rest: string)

  /** One extraction result: a dictionary, or some other JSON value. */
  datatype Record = Scalar(text: string) | Entry(metadata: Metadata, rest: string)

  /** What is known of the whole document: total_pages, original_source_id and original_source_name. */
  datatype Parent = Parent(totalPages: Field, sourceId: Option<string>, sourceName: Option<string>)

  predicate Truthy(text: Option<string>) {
    text.Some? && text.value != ""
  }

  function PageOffset(startPage: Field): nat {
    if startPage.Number? && startPage.n > 0 then startPage.n - 1 else 0
  }

  function Shift(page: Field, offset: nat): Field {
    if page.Number? && page.n >= 0 then Number(page.n + offset) else page
  }

  /** One record after normalization, written at once. */
  function Normalize(r: Record, offset: nat, parent: Parent): Record {
    if !r.Entry? || !r.metadata.Metadata? then r
    else r.(metadata := r.metadata.(source := NormalizeSource(r.metadata.source, parent),
                                    content := NormalizeContent(r.metadata.content, offset, parent)))
  }

  function NormalizeSource(s: SourceMeta, parent: Parent): SourceMeta {
    if !s.Source? then s
    else s.(id := if Truthy(parent.sourceId) then parent.sourceId else s.id,
            name := if Truthy(parent.sourceName) then parent.sourceName else s.name)
  }

  function NormalizeContent(c: ContentMeta, offset: nat, parent: Parent): ContentMeta {
    if !c.Content? then c
    else c.(pageNumber := Shift(c.pageNumber, offset),
            pageCount := if parent.totalPages.Number? && c.pageCount.Number? then parent.totalPages else c.pageCount,
            hierarchy := NormalizeHierarchy(c.hierarchy, offset, parent))
  }

  function NormalizeHierarchy(h: Hierarchy, offset: nat, parent: Parent): Hierarchy {
    if !h.Hierarchy? then h
    else h.(page := Shift(h.page, offset),
            pageCount := if parent.totalPages.Number? then parent.totalPages else h.pageCount)
  }

  /** An id or name that is unknown or empty leaves the one that the record has. */
  lemma SourceKept(s: SourceMeta, parent: Parent)
    requires s.Source?
    ensures var t := NormalizeSource(s, parent);
            && t.Source? && t.dates == s.dates && t.rest == s.rest
            && t.id == (if parent.sourceId == None || parent.sourceId == Some("") then s.id else parent.sourceId)
            && t.name
               == (if parent.sourceName == None || parent.sourceName == Some("") then s.name else parent.sourceName)
  {
  }

  function NormalizeAll(records: seq<Record>, offset: nat, parent: Parent): (all: seq<Record>)
    ensures |all| == |records|
  {
    seq(|records|, i requires 0 <= i < |records| => Normalize(records[i], offset, parent))
  }

  /** The body of the loop: each dictionary on the way down is copied before a key is set. */
  method NormalizeEntry(record: Record, offset: nat, parent: Parent) returns (entry: Record)
    ensures entry == Normalize(record, offset, parent)
  {
    entry := record;
    if entry.Entry? && entry.metadata.Metadata? {
      var metadata := entry.metadata;
      var source := metadata.source;
      if source.Source? {
        if Truthy(parent.sourceId) { source := source.(id := parent.sourceId); }
        if Truthy(parent.sourceName) { source := source.(name := parent.sourceName); }
        metadata := metadata.(source := source);
      }
      var content := metadata.content;
      if content.Content? {
        var page := content.pageNumber;
        if page.Number? && page.n >= 0 { content := content.(pageNumber := Number(page.n + offset)); }
        if parent.totalPages.Number? && content.pageCount.Number? {
          content := content.(pageCount := parent.totalPages);
        }
        var hierarchy := content.hierarchy;
        if hierarchy.Hierarchy? {
          page := hierarchy.page;
          if page.Number? && page.n >= 0 { hierarchy := hierarchy.(page := Number(page.n + offset)); }
          if parent.totalPages.Number? { hierarchy := hierarchy.(pageCount := parent.totalPages); }
          content := content.(hierarchy := hierarchy);
        }
        metadata := metadata.(content := content);
      }
      entry := entry.(metadata := metadata);
    }
  }

  /** _normalize_chunk_records: records that are not a list give no records. */
  method NormalizeChunkRecords(records: Option<seq<Record>>, startPage: Field,
                               parent: Parent) returns (normalized: seq<Record>)
    ensures normalized == if records.Some? then NormalizeAll(records.value, PageOffset(startPage), parent) else []
  {
    hide Normalize;
    normalized := [];
    if records.None? { return; }
    var offset := if startPage.Number? && startPage.n > 0 then startPage.n - 1 else 0;
    var k := 0;
    while k < |records.value|
      invariant 0 <= k <= |records.value|
      invariant normalized == NormalizeAll(records.value, offset, parent)[..k]
    {
      var entry := NormalizeEntry(records.value[k], offset, parent);
      normalized := normalized + [entry];
      k := k + 1;
    }
  }

  // --- what extraction writes ------------------------------------------------------------------------------

  /** What a record says of its document as a whole. */
  datatype Label = Label(id: string, name: string, pages: int, dates: Dates, keywords: string)

  /** A PDF as the engine is given it: dates and keywords come from its info dictionary, where a date can be empty. */
  datatype Reading = Reading(id: string, pages: nat, dates: Dates, keywords: string, clock: Dates)

  /** What extraction writes: the id serves as the name too, and the clock stands in for a missing date. */
  function LabelOf(r: Reading): Label {
    Label(r.id, r.id, r.pages, Dates(OrElse(r.dates.created, r.clock.created),
                                     OrElse(r.dates.modified, r.clock.modified)), r.keywords)
  }

  /** The dates are those of the info dictionary where it has them, and otherwise those of the clock. */
  lemma DatesRead(r: Reading)
    ensures r.dates.created != "" ==> LabelOf(r).dates.created == r.dates.created
    ensures r.dates.created == "" ==> LabelOf(r).dates.created == r.clock.created
    ensures r.dates.modified != "" ==> LabelOf(r).dates.modified == r.dates.modified
    ensures r.dates.modified == "" ==> LabelOf(r).dates.modified == r.clock.modified
    ensures LabelOf(r).name == LabelOf(r).id == r.id
  {
  }

  function OrElse(text: string, otherwise: string): string {
    if text == "" then otherwise else text
  }

  /** What normalization makes of it: only id, name and the number of pages are taken from the whole document. */
  function Relabel(o: Label, parent: Parent): Label {
    o.(id := if Truthy(parent.sourceId) then parent.sourceId.value else o.id,
       name := if Truthy(parent.sourceName) then parent.sourceName.value else o.name,
       pages := if parent.totalPages.Number? then parent.totalPages.n else o.pages)
  }

  /** A page number; a negative one stands for no page, as extraction writes -1 for the text of a whole document. */
  predicate IsPage(page: Field) {
    page.Number? && page.n >= 0
  }

  function Renumber(page: Field, number: nat): Field {
    if IsPage(page) then Number(number) else page
  }

  function StampHierarchy(h: Hierarchy, number: nat, o: Label): Hierarchy {
    if h.Hierarchy? then h.(page := Renumber(h.page, number), pageCount := Number(o.pages)) else h
  }

  /** The record as extraction of this document writes it for this page: what r says, with the numbers filled in. */
  function Stamp(r: Record, number: nat, o: Label): Record {
    if !r.Entry? || !r.metadata.Metadata? then r
    else
      var m := r.metadata;
      var source :=
        if m.source.Source? then m.source.(id := Some(o.id), name := Some(o.name), dates := o.dates) else m.source;
      var text := if m.text.Text? then m.text.(keywords := o.keywords) else m.text;
      var content :=
        if !m.content.Content? then m.content
        else
          m.content.(pageNumber := Renumber(m.content.pageNumber, number),
                     pageCount := if m.content.pageCount.Number? then Number(o.pages) else m.content.pageCount,
                     hierarchy := StampHierarchy(m.content.hierarchy, number, o));
      r.(metadata := m.(source := source, content := content, text := text))
  }

  /** A page is known by the records that one pass over the pages makes of it. */
  type Page = seq<Record>

  function StampPage(page: Page, number: nat, o: Label): (records: seq<Record>)
    ensures |records| == |page|
  {
    seq(|page|, i requires 0 <= i < |page| => Stamp(page[i], number, o))
  }

  /** One pass over consecutive pages, the first of which is counted as number. */
  function Extract(pages: seq<Page>, number: nat, o: Label): seq<Record> {
    if pages == [] then [] else StampPage(pages[0], number, o) + Extract(pages[1..], number + 1, o)
  }

  /** Normalizing what a pass over a chunk made: the pages are counted as in the document, and the label is replaced. */
  lemma {:induction false} NormalizeExtract(pages: seq<Page>, number: nat, offset: nat, part: Label, parent: Parent)
    ensures NormalizeAll(Extract(pages, number, part), offset, parent)
         == Extract(pages, number + offset, Relabel(part, parent))
  {
    if pages != [] {
      hide Normalize, Stamp, Relabel, NormalizeAll, StampPage;
      var head, tail := StampPage(pages[0], number, part), Extract(pages[1..], number + 1, part);
      NormalizeExtract(pages[1..], number + 1, offset, part, parent);
      NormalizePage(pages[0], number, offset, part, parent);
      NormalizeConcat(head, tail, offset, parent);
    } else {
      NormalizeNothing(offset, parent);
    }
  }

  lemma NormalizeNothing(offset: nat, parent: Parent)
    ensures NormalizeAll([], offset, parent) == []
  {
  }

  lemma NormalizeConcat(a: seq<Record>, b: seq<Record>, offset: nat, parent: Parent)
    ensures NormalizeAll(a + b, offset, parent) == NormalizeAll(a, offset, parent) + NormalizeAll(b, offset, parent)
  {
  }

  lemma NormalizeStamp(r: Record, number: nat, offset: nat, part: Label, parent: Parent)
    ensures Normalize(Stamp(r, number, part), offset, parent) == Stamp(r, number + offset, Relabel(part, parent))
  {
  }

  lemma NormalizePage(page: Page, number: nat, offset: nat, part: Label, parent: Parent)
    ensures NormalizeAll(StampPage(page, number, part), offset, parent)
         == StampPage(page, number + offset, Relabel(part, parent))
  {
    hide Normalize, Stamp, Relabel;
    forall i | 0 <= i < |page|
      ensures Normalize(Stamp(page[i], number, part), offset, parent)
           == Stamp(page[i], number + offset, Relabel(part, parent))
    {
      NormalizeStamp(page[i], number, offset, part, parent);
    }
  }

  lemma {:induction false} ExtractConcat(a: seq<Page>, b: seq<Page>, number: nat, o: Label)
    ensures Extract(a + b, number, o) == Extract(a, number, o) + Extract(b, number + |a|, o)
  {
    if a == [] {
      assert a + b == b;
    } else {
      assert (a + b)[1..] == a[1..] + b;
      ExtractConcat(a[1..], b, number, o);
      ExtractConcat(a[1..], b, number + 1, o);
    }
  }

  /** What the descriptor of a chunk carries as its start page: that page, or nothing. */
  datatype Carried = StartPage | Nothing

  /** As shipped nothing is carried: the split writes start_page, and the descriptor reads start. */
  function CarriedBy<P>(carried: Carried, chunk: Chunk<P>): Field {
    if carried.StartPage? then Number(chunk.startPage) else Absent
  }

  lemma ExtractNothing(number: nat, o: Label)
    ensures Extract([], number, o) == []
  {
  }

  // --- how extraction depends on the page numbers -----------------------------------------------------------

  /** Whether the record carries a page number, in its content metadata or in the hierarchy. */
  predicate Numbered(r: Record) {
    && r.Entry? && r.metadata.Metadata? && r.metadata.content.Content?
    && var c := r.metadata.content;
       IsPage(c.pageNumber) || (c.hierarchy.Hierarchy? && IsPage(c.hierarchy.page))
  }

  predicate Unnumbered(pages: seq<Page>) {
    forall p, i :: 0 <= p < |pages| && 0 <= i < |pages[p]| ==> !Numbered(pages[p][i])
  }

  lemma StampDepends(r: Record, number: nat, other: nat, o: Label)
    requires number != other
    ensures Stamp(r, number, o) == Stamp(r, other, o) <==> !Numbered(r)
  {
  }

  lemma {:induction false} ExtractDepends(pages: seq<Page>, number: nat, other: nat, o: Label)
    requires number != other
    ensures |Extract(pages, number, o)| == |Extract(pages, other, o)|
    ensures Extract(pages, number, o) == Extract(pages, other, o) <==> Unnumbered(pages)
  {
    if pages != [] {
      var rest := pages[1..];
      ExtractDepends(rest, number + 1, other + 1, o);
      var a, b := StampPage(pages[0], number, o), StampPage(pages[0], other, o);
      PageDepends(pages[0], number, other, o);
      var s, t := Extract(pages, number, o), Extract(pages, other, o);
      assert s[..|a|] == a && s[|a|..] == Extract(rest, number + 1, o);
      assert t[..|a|] == b && t[|a|..] == Extract(rest, other + 1, o);
      UnnumberedSplit([pages[0]], rest);
      assert pages == [pages[0]] + rest;
    }
  }

  lemma PageDepends(page: Page, number: nat, other: nat, o: Label)
    requires number != other
    ensures StampPage(page, number, o) == StampPage(page, other, o) <==> Unnumbered([page])
  {
    forall i | 0 <= i < |page|
      ensures StampPage(page, number, o)[i] == StampPage(page, other, o)[i] <==> !Numbered(page[i])
    {
      StampDepends(page[i], number, other, o);
    }
    if Unnumbered([page]) {
      forall i | 0 <= i < |page|
        ensures !Numbered(page[i])
      {
        assert !Numbered([page][0][i]);
      }
    }
  }

  lemma UnnumberedSplit(a: seq<Page>, b: seq<Page>)
    ensures Unnumbered(a + b) <==> Unnumbered(a) && Unnumbered(b)
  {
    if Unnumbered(a + b) {
      forall p, i | 0 <= p < |a| && 0 <= i < |a[p]|
        ensures !Numbered(a[p][i])
      {
        assert !Numbered((a + b)[p][i]);
      }
      forall p, i | 0 <= p < |b| && 0 <= i < |b[p]|
        ensures !Numbered(b[p][i])
      {
        assert !Numbered((a + b)[|a| + p][i]);
      }
    }
  }

  lemma NothingUnnumbered()
    ensures Unnumbered([])
  {
  }

  // --- how extraction depends on the label --------------------------------------------------------------------

  predicate HasSource(r: Record) {
    r.Entry? && r.metadata.Metadata? && r.metadata.source.Source?
  }

  predicate HasKeywords(r: Record) {
    r.Entry? && r.metadata.Metadata? && r.metadata.text.Text?
  }

  /** Whether the record gives the number of pages of its document. */
  predicate HasPageCount(r: Record) {
    && r.Entry? && r.metadata.Metadata? && r.metadata.content.Content?
    && (r.metadata.content.pageCount.Number? || r.metadata.content.hierarchy.Hierarchy?)
  }

  /** The record says of its document what this label says. */
  predicate Bears(r: Record, o: Label) {
    && (HasSource(r) ==>
        && r.metadata.source.id == Some(o.id) && r.metadata.source.name == Some(o.name)
        && r.metadata.source.dates == o.dates)
    && (HasKeywords(r) ==> r.metadata.text.keywords == o.keywords)
    && (HasPageCount(r) ==>
        && (r.metadata.content.pageCount.Number? ==> r.metadata.content.pageCount == Number(o.pages))
        && (r.metadata.content.hierarchy.Hierarchy? ==> r.metadata.content.hierarchy.pageCount == Number(o.pages)))
  }

  /** The labels agree on what this record says of its document. */
  predicate SameFor(r: Record, o: Label, other: Label) {
    && (HasSource(r) ==> o.id == other.id && o.name == other.name && o.dates == other.dates)
    && (HasKeywords(r) ==> o.keywords == other.keywords)
    && (HasPageCount(r) ==> o.pages == other.pages)
  }

  predicate SameForAll(pages: seq<Page>, o: Label, other: Label) {
    forall p, i :: 0 <= p < |pages| && 0 <= i < |pages[p]| ==> SameFor(pages[p][i], o, other)
  }

  ghost predicate AllBear(records: seq<Record>, o: Label) {
    forall r :: r in records ==> Bears(r, o)
  }

  lemma StampBears(r: Record, number: nat, o: Label, other: Label)
    ensures Bears(Stamp(r, number, o), other) <==> SameFor(r, o, other)
    ensures SameFor(r, o, other) <==> Stamp(r, number, o) == Stamp(r, number, other)
  {
  }

  lemma PageBears(page: Page, number: nat, o: Label, other: Label)
    ensures AllBear(StampPage(page, number, o), other) <==> forall r :: r in page ==> SameFor(r, o, other)
    ensures AllBear(StampPage(page, number, o), other) ==> StampPage(page, number, o) == StampPage(page, number, other)
  {
    hide Bears, SameFor, Stamp;
    var records := StampPage(page, number, o);
    forall i | 0 <= i < |page|
      ensures Bears(records[i], other) <==> SameFor(page[i], o, other)
      ensures SameFor(page[i], o, other) ==> records[i] == StampPage(page, number, other)[i]
    {
      StampBears(page[i], number, o, other);
    }
    if AllBear(records, other) {
      assert forall i :: 0 <= i < |page| ==> records[i] in records;
    }
  }

  /** Records of a pass bear another label exactly when the labels agree on them, and then it writes them alike. */
  lemma {:induction false} ExtractBears(pages: seq<Page>, number: nat, o: Label, other: Label)
    ensures AllBear(Extract(pages, number, o), other) <==> SameForAll(pages, o, other)
    ensures SameForAll(pages, o, other) ==> Extract(pages, number, o) == Extract(pages, number, other)
  {
    if pages != [] {
      hide Bears, SameFor, StampPage;
      PageBears(pages[0], number, o, other);
      ExtractBears(pages[1..], number + 1, o, other);
      SameForFirst(pages, o, other);
    }
  }

  lemma SameForFirst(pages: seq<Page>, o: Label, other: Label)
    requires pages != []
    ensures SameForAll(pages, o, other)
            <==> (forall r :: r in pages[0] ==> SameFor(r, o, other)) && SameForAll(pages[1..], o, other)
  {
    hide SameFor;
    if SameForAll(pages, o, other) {
      forall p, i | 0 <= p < |pages[1..]| && 0 <= i < |pages[1..][p]|
        ensures SameFor(pages[1..][p][i], o, other)
      {
        assert SameFor(pages[p + 1][i], o, other);
      }
    }
    if (forall r :: r in pages[0] ==> SameFor(r, o, other)) && SameForAll(pages[1..], o, other) {
      forall p, i | 0 <= p < |pages| && 0 <= i < |pages[p]|
        ensures SameFor(pages[p][i], o, other)
      {
        if p == 0 {
          assert pages[0][i] in pages[0];
        } else {
          assert SameFor(pages[1..][p - 1][i], o, other);
        }
      }
    }
  }
}
