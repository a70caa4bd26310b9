/**
 Grouping files so that the groups weigh about the same (balanced_groups_flat_order in util.py): the heaviest
 file first, each into the lightest group that is not full.
 */
module BalancedGroups {
  import opened Sequences
  import opened Sorting

  datatype File = File(weight: nat, path: string)

  /** The sort key: heaviest first, then by path. */
  predicate Before(a: File, b: File) {
    a.weight > b.weight || (a.weight == b.weight && LexLeq(a.path, b.path))
  }

  lemma BeforeIsTotal()
    ensures TotalOrder(Before)
  {
    forall x: File, y: File
      ensures Before(x, y) || Before(y, x)
      ensures Before(x, y) && Before(y, x) ==> x == y
    {
      LexTotal(x.path, y.path);
    }
    forall x: File, y: File, z: File | Before(x, y) && Before(y, z)
      ensures Before(x, z)
    {
      if x.weight == y.weight == z.weight { LexTransitive(x.path, y.path, z.path); }
    }
  }

  type Bins = seq<seq<File>>

  function Load(bin: seq<File>): nat {
    if bin == [] then 0 else Load(bin[..|bin| - 1]) + bin[|bin| - 1].weight
  }

  predicate Open(bins: Bins, size: nat, i: nat) {
    i < |bins| && |bins[i]| < size
  }

  /** Bin i comes before bin j in the heap. */
  predicate Lighter(bins: Bins, i: nat, j: nat)
    requires i < |bins| && j < |bins|
  {
    Load(bins[i]) < Load(bins[j]) || (Load(bins[i]) == Load(bins[j]) && i <= j)
  }

  /** The least (load, index) among the first n bins that are not full; |bins| when all are full. */
  function Lightest(bins: Bins, size: nat, n: nat): (i: nat)
    requires n <= |bins|
    ensures i == |bins| || (i < n && Open(bins, size, i))
    ensures i == |bins| ==> forall j: nat :: j < n ==> !Open(bins, size, j)
    ensures i < |bins| ==> forall j: nat :: j < n && Open(bins, size, j) ==> Lighter(bins, i, j)
  {
    if n == 0 then |bins|
    else
      var i := Lightest(bins, size, n - 1);
      if !Open(bins, size, n - 1) then i
      else if i < |bins| && Lighter(bins, i, n - 1) then i
      else n - 1
  }

  /** The simple form of the placement: scan for the lightest bin that is not full. */
  function PlaceOne(bins: Bins, size: nat, f: File): Bins {
    var i := Lightest(bins, size, |bins|);
    if i < |bins| then bins[i := bins[i] + [f]] else bins
  }

  function EmptyBins(count: nat): Bins {
    seq(count, i => [])
  }

  function Place(files: seq<File>, size: nat, count: nat): Bins {
    if files == [] then EmptyBins(count)
    else PlaceOne(Place(files[..|files| - 1], size, count), size, files[|files| - 1])
  }

  function GroupCount(n: nat, size: nat): nat
    requires size >= 1
  {
    (n + size - 1) / size
  }

  lemma GroupCountIsCeiling(n: nat, size: nat)
    requires size >= 1
    ensures GroupCount(n, size) * size >= n && (n > 0 ==> (GroupCount(n, size) - 1) * size < n)
  {
    var q := (n + size - 1) / size;
    assert n + size - 1 == q * size + (n + size - 1) % size;
    assert (q - 1) * size == q * size - size;
  }

  // --- what the placement keeps --------------------------------------------------------------------------

  lemma {:induction false} FlattenPut(bins: Bins, i: nat, f: File)
    requires i < |bins|
    ensures multiset(Flatten(bins[i := bins[i] + [f]])) == multiset(Flatten(bins)) + multiset{f}
  {
    var put := bins[i := bins[i] + [f]];
    if i == 0 {
      assert put[1..] == bins[1..];
    } else {
      assert put[1..] == bins[1..][i - 1 := bins[i] + [f]];
      FlattenPut(bins[1..], i - 1, f);
    }
  }

  lemma {:induction false} FlattenFull(bins: Bins, size: nat)
    requires forall i :: 0 <= i < |bins| ==> |bins[i]| >= size
    ensures |Flatten(bins)| >= |bins| * size
  {
    if bins != [] {
      FlattenFull(bins[1..], size);
      assert |bins| * size == |bins[1..]| * size + size;
    }
  }

  lemma {:induction false} FlattenEmpty(n: nat)
    ensures Flatten(EmptyBins(n)) == []
  {
    if n > 0 {
      FlattenEmpty(n - 1);
      assert EmptyBins(n)[1..] == EmptyBins(n - 1);
    }
  }

  /** With fewer files in the bins than they have room for, the lightest open bin exists. */
  lemma RoomLeft(bins: Bins, size: nat)
    requires |Flatten(bins)| < |bins| * size
    ensures Lightest(bins, size, |bins|) < |bins|
  {
    if Lightest(bins, size, |bins|) == |bins| {
      forall i | 0 <= i < |bins|
        ensures |bins[i]| >= size
      {
        assert !Open(bins, size, i);
      }
      FlattenFull(bins, size);
    }
  }

  lemma SameLength(s: seq<File>, t: seq<File>)
    requires multiset(s) == multiset(t)
    ensures |s| == |t|
  {
    assert |multiset(s)| == |multiset(t)|;
  }

  lemma PlaceOneKeeps(bins: Bins, size: nat, f: File)
    requires |Flatten(bins)| < |bins| * size && forall i :: 0 <= i < |bins| ==> |bins[i]| <= size
    ensures var put := PlaceOne(bins, size, f);
            && |put| == |bins| && (forall i :: 0 <= i < |put| ==> |put[i]| <= size)
            && multiset(Flatten(put)) == multiset(Flatten(bins)) + multiset{f}
  {
    hide Flatten, Lightest;
    RoomLeft(bins, size);
    FlattenPut(bins, Lightest(bins, size, |bins|), f);
  }

  /** Every file is in some bin and no bin is overfull. */
  lemma {:induction false} PlaceKeeps(files: seq<File>, size: nat, count: nat)
    requires size >= 1 && |files| <= count * size
    ensures var bins := Place(files, size, count);
            && |bins| == count
            && (forall i :: 0 <= i < count ==> |bins[i]| <= size)
            && multiset(Flatten(bins)) == multiset(files)
  {
    if files == [] {
      FlattenEmpty(count);
    } else {
      var n := |files| - 1;
      PlaceKeeps(files[..n], size, count);
      var before := Place(files[..n], size, count);
      hide PlaceOne, Flatten;
      SameLength(Flatten(before), files[..n]);
      PlaceOneKeeps(before, size, files[n]);
      assert files == files[..n] + [files[n]];
    }
  }

  /** So the heap is never popped empty: before each file is placed, some bin is open. */
  lemma NeverFull(files: seq<File>, size: nat, count: nat)
    requires size >= 1 && |files| < count * size
    ensures var bins := Place(files, size, count); Lightest(bins, size, |bins|) < |bins|
  {
    PlaceKeeps(files, size, count);
    var bins := Place(files, size, count);
    SameLength(Flatten(bins), files);
    RoomLeft(bins, size);
  }

  /** Heaviest first: no later file is heavier than one already placed, and each bin ends in a lightest of its files. */
  ghost predicate Descending(files: seq<File>) {
    forall i, j :: 0 <= i < j < |files| ==> files[i].weight >= files[j].weight
  }

  ghost predicate EndsSmallest(bin: seq<File>) {
    forall x: File :: x in bin ==> x.weight >= bin[|bin| - 1].weight
  }

  /** The load of a bin without its last, smallest file is at most the load of any bin that is still open. */
  ghost predicate Balanced(bins: Bins, size: nat) {
    forall i: nat, j: nat :: i < |bins| && bins[i] != [] && Open(bins, size, j) ==>
      Load(bins[i]) <= Load(bins[j]) + bins[i][|bins[i]| - 1].weight
  }

  /** Heaviest first, so each bin ends in a lightest of its files. */
  lemma {:induction false} PlaceEndsSmallest(files: seq<File>, size: nat, count: nat, i: nat)
    requires Descending(files) && i < |Place(files, size, count)|
    ensures EndsSmallest(Place(files, size, count)[i])
    ensures forall x: File :: x in Place(files, size, count)[i] ==> x in files
  {
    if files != [] {
      var n := |files| - 1;
      var before := Place(files[..n], size, count);
      PlaceEndsSmallest(files[..n], size, count, i);
      forall x: File | x in before[i]
        ensures x in files && x.weight >= files[n].weight
      {
        assert x in files[..n];
      }
    }
  }

  lemma {:induction false} PlaceBalances(files: seq<File>, size: nat, count: nat)
    ensures Balanced(Place(files, size, count), size)
  {
    if files != [] {
      var n := |files| - 1;
      var f := files[n];
      PlaceBalances(files[..n], size, count);
      var before, bins := Place(files[..n], size, count), Place(files, size, count);
      var k := Lightest(before, size, |before|);
      if k < |before| {
        assert bins[k] == before[k] + [f];
        assert Load(bins[k]) == Load(before[k]) + f.weight by { assert bins[k][..|bins[k]| - 1] == before[k]; }
        forall i: nat, j: nat | i < |bins| && bins[i] != [] && Open(bins, size, j)
          ensures Load(bins[i]) <= Load(bins[j]) + bins[i][|bins[i]| - 1].weight
        {
          assert Open(before, size, j);
          assert Load(before[k]) <= Load(before[j]) <= Load(bins[j]);
        }
      }
    }
  }

  // --- the whole function ---------------------------------------------------------------------------------

  /** A bin with the load and index by which it is put in order at the end. */
  datatype Ranked = Ranked(load: nat, index: nat, bin: seq<File>)

  predicate HeavierFirst(a: Ranked, b: Ranked) {
    a.load > b.load || (a.load == b.load && a.index >= b.index)
  }

  function Rank(bins: Bins): seq<Ranked> {
    seq(|bins|, i requires 0 <= i < |bins| => Ranked(Load(bins[i]), i, bins[i]))
  }

  function Unrank(ranked: seq<Ranked>): Bins {
    seq(|ranked|, i requires 0 <= i < |ranked| => ranked[i].bin)
  }

  function Arranged(bins: Bins): Bins {
    Unrank(Sorted(Rank(bins), HeavierFirst))
  }

  function Paths(files: seq<File>): seq<string> {
    seq(|files|, i requires 0 <= i < |files| => files[i].path)
  }

  function Groups(files: seq<File>, size: nat): Bins
    requires size >= 1
  {
    Arranged(Place(Sorted(files, Before), size, GroupCount(|files|, size)))
  }

  /** The result does not depend on the order in which the files are given. */
  lemma GroupsForgetOrder(files: seq<File>, shuffled: seq<File>, size: nat)
    requires size >= 1 && multiset(files) == multiset(shuffled)
    ensures Groups(files, size) == Groups(shuffled, size)
  {
    BeforeIsTotal();
    SameLength(files, shuffled);
    SortedForgetsOrder(files, shuffled, Before);
  }

  lemma UnrankHead(s: seq<Ranked>)
    requires s != []
    ensures Flatten(Unrank(s)) == s[0].bin + Flatten(Unrank(s[1..]))
  {
    assert Unrank(s)[1..] == Unrank(s[1..]);
  }

  lemma {:induction false} InsertFlatten(x: Ranked, s: seq<Ranked>)
    ensures multiset(Flatten(Unrank(Insert(x, s, HeavierFirst)))) == multiset(x.bin) + multiset(Flatten(Unrank(s)))
  {
    hide HeavierFirst, Unrank;
    var t := Insert(x, s, HeavierFirst);
    UnrankHead(t);
    if s == [] || HeavierFirst(x, s[0]) {
      assert t[1..] == s;
    } else {
      InsertFlatten(x, s[1..]);
      UnrankHead(s);
    }
  }

  lemma {:induction false} SortFlatten(s: seq<Ranked>)
    ensures multiset(Flatten(Unrank(Sorted(s, HeavierFirst)))) == multiset(Flatten(Unrank(s)))
  {
    if s != [] {
      SortFlatten(s[1..]);
      InsertFlatten(s[0], Sorted(s[1..], HeavierFirst));
      hide Insert, HeavierFirst, Unrank;
      UnrankHead(s);
    }
  }

  /** What the arranged groups are: the bins, each once, heaviest first. */
  lemma ArrangedIsPermutation(bins: Bins)
    ensures |Arranged(bins)| == |bins| && multiset(Flatten(Arranged(bins))) == multiset(Flatten(bins))
    ensures forall i :: 0 <= i < |bins| ==> Arranged(bins)[i] in bins
    ensures forall i, j :: 0 <= i < j < |bins| ==> Load(Arranged(bins)[i]) >= Load(Arranged(bins)[j])
  {
    hide Load, Sorted, Flatten;
    var ranked := Rank(bins);
    var order := Sorted(ranked, HeavierFirst);
    SortedIsSorted(ranked, HeavierFirst);
    SortFlatten(ranked);
    assert Unrank(ranked) == bins;
    forall i | 0 <= i < |order|
      ensures order[i].bin in bins && order[i].load == Load(order[i].bin)
    {
      assert order[i] in multiset(ranked);
      var k :| 0 <= k < |ranked| && ranked[k] == order[i];
    }
  }

  lemma SortedDescending(files: seq<File>)
    ensures multiset(Sorted(files, Before)) == multiset(files) && |Sorted(files, Before)| == |files|
    ensures Descending(Sorted(files, Before))
  {
    BeforeIsTotal();
    SortedIsSorted(files, Before);
  }

  function Smallest(bin: seq<File>): nat
    requires bin != []
  {
    if |bin| == 1 then bin[0].weight else Min(bin[0].weight, Smallest(bin[1..]))
  }

  lemma {:induction false} SmallestIsLeast(bin: seq<File>)
    requires bin != []
    ensures forall x: File :: x in bin ==> Smallest(bin) <= x.weight
    ensures exists x: File :: x in bin && Smallest(bin) == x.weight
  {
    if |bin| == 1 {
      assert bin[0] in bin;
    } else {
      SmallestIsLeast(bin[1..]);
      var x: File :| x in bin[1..] && Smallest(bin[1..]) == x.weight;
      assert x in bin && bin[0] in bin;
    }
  }

  /** A group outweighs a group with room left by at most its own smallest file. */
  ghost predicate Even(groups: Bins, size: nat) {
    forall i, j :: 0 <= i < |groups| && 0 <= j < |groups| && groups[i] != [] && |groups[j]| < size ==>
      Load(groups[i]) <= Load(groups[j]) + Smallest(groups[i])
  }

  lemma BinsAreEven(files: seq<File>, size: nat, count: nat)
    requires Descending(files)
    ensures Even(Place(files, size, count), size)
  {
    var bins := Place(files, size, count);
    PlaceBalances(files, size, count);
    forall i, j | 0 <= i < |bins| && 0 <= j < |bins| && bins[i] != [] && |bins[j]| < size
      ensures Load(bins[i]) <= Load(bins[j]) + Smallest(bins[i])
    {
      PlaceEndsSmallest(files, size, count, i);
      SmallestIsLeast(bins[i]);
      assert Open(bins, size, j);
    }
  }

  lemma ArrangedIsEven(bins: Bins, size: nat)
    requires Even(bins, size)
    ensures Even(Arranged(bins), size)
  {
    hide Arranged, Load, Smallest;
    ArrangedIsPermutation(bins);
    var groups := Arranged(bins);
    forall i, j | 0 <= i < |groups| && 0 <= j < |groups| && groups[i] != [] && |groups[j]| < size
      ensures Load(groups[i]) <= Load(groups[j]) + Smallest(groups[i])
    {
      var a :| 0 <= a < |bins| && bins[a] == groups[i];
      var b :| 0 <= b < |bins| && bins[b] == groups[j];
    }
  }

  /** The groups hold the given files, are as many as needed and none too large, come heaviest first, and are even. */
  lemma GroupsAreBalanced(files: seq<File>, size: nat)
    requires size >= 1
    ensures var groups := Groups(files, size);
            && |groups| == GroupCount(|files|, size)
            && multiset(Flatten(groups)) == multiset(files)
            && (forall i :: 0 <= i < |groups| ==> |groups[i]| <= size)
            && (forall i, j :: 0 <= i < j < |groups| ==> Load(groups[i]) >= Load(groups[j]))
            && Even(groups, size)
  {
    hide Place, Arranged, Load, Even, Descending;
    var sorted, count := Sorted(files, Before), GroupCount(|files|, size);
    SortedDescending(files);
    GroupCountIsCeiling(|files|, size);
    PlaceKeeps(sorted, size, count);
    var bins, groups := Place(sorted, size, count), Groups(files, size);
    ArrangedIsPermutation(bins);
    BinsAreEven(sorted, size, count);
    ArrangedIsEven(bins, size);
    forall i | 0 <= i < |groups|
      ensures |groups[i]| <= size
    {
      var a :| 0 <= a < |bins| && bins[a] == groups[i];
    }
  }

  // --- how ties are broken ---------------------------------------------------------------------------------------

  lemma {:induction false} SinglesInPlace(files: seq<File>, count: nat)
    requires |files| <= count
    ensures var bins := Place(files, 1, count);
            |bins| == count && forall i :: 0 <= i < count ==> bins[i] == if i < |files| then [files[i]] else []
  {
    if files != [] {
      var n := |files| - 1;
      SinglesInPlace(files[..n], count);
      var before := Place(files[..n], 1, count);
      hide Lightest;
      EmptyLoad();
      assert Open(before, 1, n) && Load(before[n]) == 0;
      var i := Lightest(before, 1, count);
      assert Lighter(before, i, n) && i >= n;
    }
  }

  /** Among the arranged bins the a-th comes before the b-th. */
  ghost predicate ComesBefore(bins: Bins, a: nat, b: nat) {
    && a < |bins| && b < |bins|
    && (Load(bins[a]) > Load(bins[b]) || (Load(bins[a]) == Load(bins[b]) && a >= b))
  }

  lemma OrderOfRanked(bins: Bins, i: nat, j: nat)
    requires i < j < |bins|
    ensures |Arranged(bins)| == |bins|
    ensures exists a: nat, b: nat ::
      ComesBefore(bins, a, b) && bins[a] == Arranged(bins)[i] && bins[b] == Arranged(bins)[j]
  {
    hide Load;
    var ranked := Rank(bins);
    var order := Sorted(ranked, HeavierFirst);
    SortedIsSorted(ranked, HeavierFirst);
    assert order[i] in multiset(ranked) && order[j] in multiset(ranked);
    var a: nat :| a < |ranked| && ranked[a] == order[i];
    var b: nat :| b < |ranked| && ranked[b] == order[j];
    assert HeavierFirst(order[i], order[j]);
    assert ComesBefore(bins, a, b) && Arranged(bins)[i] == bins[a] && Arranged(bins)[j] == bins[b];
  }

  /** Files of equal weight that each make a group come in the reverse order of their paths. */
  lemma SinglesReverseTies(files: seq<File>, i: nat, j: nat)
    requires i < j < |files|
    ensures var groups := Groups(files, 1);
            && |groups| == |files| && |groups[i]| == |groups[j]| == 1
            && var (f, g) := (groups[i][0], groups[j][0]);
               f.weight > g.weight || (f.weight == g.weight && LexLeq(g.path, f.path))
  {
    hide Place, Arranged, Load;
    var sorted := Sorted(files, Before);
    BeforeIsTotal();
    SortedIsSorted(files, Before);
    assert GroupCount(|files|, 1) == |files|;
    var bins := Place(sorted, 1, |files|);
    SinglesInPlace(sorted, |files|);
    OrderOfRanked(bins, i, j);
    var a: nat, b: nat :| ComesBefore(bins, a, b) && bins[a] == Arranged(bins)[i] && bins[b] == Arranged(bins)[j];
    LoadOfOne(sorted[a]);
    LoadOfOne(sorted[b]);
    LexTotal(sorted[a].path, sorted[a].path);
    if a > b { assert Before(sorted[b], sorted[a]); }
  }

  lemma LoadOfOne(f: File)
    ensures Load([f]) == f.weight
  {
    assert [f][..0] == [];
  }

  // --- the loops ---------------------------------------------------------------------------------------------

  /** A heap entry; tuples compare by load, then by index. */
  datatype Entry = Entry(load: nat, index: nat)

  predicate NotAfter(a: Entry, b: Entry) {
    a.load < b.load || (a.load == b.load && a.index <= b.index)
  }

  predicate Current(e: Entry, bins: Bins, size: nat) {
    Open(bins, size, e.index) && e.load == Load(bins[e.index])
  }

  /** The heap of the source: exactly one current entry for every bin that is not full. */
  ghost predicate IsHeap(heap: set<Entry>, bins: Bins, size: nat) {
    forall e: Entry :: e in heap <==> Current(e, bins, size)
  }

  ghost predicate IsTop(heap: set<Entry>, top: Entry) {
    top in heap && forall e: Entry :: e in heap ==> NotAfter(top, e)
  }

  lemma LightestIsTop(heap: set<Entry>, bins: Bins, size: nat)
    requires IsHeap(heap, bins, size) && Lightest(bins, size, |bins|) < |bins|
    ensures var i := Lightest(bins, size, |bins|); IsTop(heap, Entry(Load(bins[i]), i))
  {
    hide Load, Lightest;
    var i := Lightest(bins, size, |bins|);
    assert Current(Entry(Load(bins[i]), i), bins, size);
    forall e: Entry | e in heap
      ensures NotAfter(Entry(Load(bins[i]), i), e)
    {
      assert Current(e, bins, size);
      assert Lighter(bins, i, e.index);
    }
  }

  /** heappop */
  method HeapPop(heap: set<Entry>) returns (top: Entry, rest: set<Entry>)
    requires exists e :: IsTop(heap, e)
    ensures IsTop(heap, top) && rest == heap - {top}
  {
    top :| top in heap && forall e: Entry :: e in heap ==> NotAfter(top, e);
    rest := heap - {top};
  }

  lemma HeapStart(count: nat, size: nat)
    requires size >= 1
    ensures IsHeap(set i: nat | i < count :: Entry(0, i), EmptyBins(count), size)
  {
  }

  /** Popping the lightest bin and pushing it back unless it is now full keeps the heap current. */
  lemma HeapStep(heap: set<Entry>, bins: Bins, size: nat, f: File)
    requires IsHeap(heap, bins, size) && Lightest(bins, size, |bins|) < |bins|
    ensures var i := Lightest(bins, size, |bins|);
            var put := PlaceOne(bins, size, f);
            var popped := heap - {Entry(Load(bins[i]), i)};
            && Load(put[i]) == Load(bins[i]) + f.weight
            && IsHeap(if |put[i]| < size then popped + {Entry(Load(bins[i]) + f.weight, i)} else popped, put, size)
  {
    hide Lightest, Load;
    var i := Lightest(bins, size, |bins|);
    var put := PlaceOne(bins, size, f);
    LoadPut(bins[i], f);
    var popped := heap - {Entry(Load(bins[i]), i)};
    var heap' := if |put[i]| < size then popped + {Entry(Load(bins[i]) + f.weight, i)} else popped;
    forall e: Entry
      ensures e in heap' <==> Current(e, put, size)
    {
      if e.index != i { assert Current(e, put, size) <==> Current(e, bins, size); }
    }
  }

  lemma EmptyLoad()
    ensures Load([]) == 0
  {
  }

  lemma LoadPut(bin: seq<File>, f: File)
    ensures Load(bin + [f]) == Load(bin) + f.weight
  {
    assert (bin + [f])[..|bin|] == bin;
  }

  /** Step 3 of the source: the fast form with a heap of loads, which computes what the scan does. */
  method PlaceWithHeap(files: seq<File>, size: nat, count: nat) returns (bins: Bins, loads: seq<nat>)
    requires size >= 1 && |files| <= count * size
    ensures bins == Place(files, size, count)
    ensures |loads| == |bins| && forall i: nat :: i < |bins| ==> loads[i] == Load(bins[i])
  {
    hide Load, Lightest, IsHeap, IsTop;
    bins := EmptyBins(count);
    loads := seq(count, i => 0);
    assert forall i: nat :: i < |bins| ==> loads[i] == Load(bins[i]) by { EmptyLoad(); }
    var heap := set i: nat | i < count :: Entry(0, i);
    HeapStart(count, size);
    var k := 0;
    while k < |files|
      invariant 0 <= k <= |files| && bins == Place(files[..k], size, count) && |bins| == |loads|
      invariant forall i: nat :: i < |bins| ==> loads[i] == Load(bins[i])
      invariant IsHeap(heap, bins, size)
    {
      NeverFull(files[..k], size, count);
      LightestIsTop(heap, bins, size);
      HeapStep(heap, bins, size, files[k]);
      assert files[..k + 1][..k] == files[..k];
      var top;
      var popped;
      top, popped := HeapPop(heap);
      TopUnique(heap, top, Entry(Load(bins[Lightest(bins, size, |bins|)]), Lightest(bins, size, |bins|)));
      var i := top.index;
      bins := bins[i := bins[i] + [files[k]]];
      loads := loads[i := loads[i] + files[k].weight];
      heap := if |bins[i]| < size then popped + {Entry(loads[i], i)} else popped;
      k := k + 1;
    }
    assert files[..k] == files;
  }

  lemma TopUnique(heap: set<Entry>, a: Entry, b: Entry)
    requires IsTop(heap, a) && IsTop(heap, b)
    ensures a == b
  {
  }

  // --- the result in terms of the paths ------------------------------------------------------------------------

  function TotalWeight(paths: seq<string>, weightOf: string -> nat): nat {
    if paths == [] then 0 else TotalWeight(paths[..|paths| - 1], weightOf) + weightOf(paths[|paths| - 1])
  }

  /** Heaviest first, and by path where weights are equal. */
  ghost predicate HeaviestFirst(paths: seq<string>, weightOf: string -> nat) {
    forall i, j :: 0 <= i < j < |paths| ==>
      weightOf(paths[i]) > weightOf(paths[j])
      || (weightOf(paths[i]) == weightOf(paths[j]) && LexLeq(paths[i], paths[j]))
  }

  /** A group outweighs a group with room left by at most any of its own files. */
  ghost predicate EvenlyLoaded(groups: seq<seq<string>>, weightOf: string -> nat, size: nat) {
    forall i, j, p :: 0 <= i < |groups| && 0 <= j < |groups| && |groups[j]| < size && p in groups[i] ==>
      TotalWeight(groups[i], weightOf) <= TotalWeight(groups[j], weightOf) + weightOf(p)
  }

  /** As many groups as are needed, none too large, of all the paths, heaviest group first, and evenly loaded. */
  ghost predicate IsBalancedGrouping(groups: seq<seq<string>>, paths: seq<string>, weightOf: string -> nat, size: nat) {
    && multiset(Flatten(groups)) == multiset(paths)
    && |groups| * size >= |paths| && (if paths == [] then groups == [] else (|groups| - 1) * size < |paths|)
    && (forall i :: 0 <= i < |groups| ==> |groups[i]| <= size && HeaviestFirst(groups[i], weightOf))
    && (forall i, j :: 0 <= i < j < |groups| ==>
          TotalWeight(groups[i], weightOf) >= TotalWeight(groups[j], weightOf))
    && EvenlyLoaded(groups, weightOf, size)
  }

  ghost predicate WeighedBy(files: seq<File>, weightOf: string -> nat) {
    forall f: File :: f in files ==> f.weight == weightOf(f.path)
  }

  function PathGroups(groups: Bins): seq<seq<string>> {
    seq(|groups|, i requires 0 <= i < |groups| => Paths(groups[i]))
  }

  lemma {:induction false} FlattenPathGroups(groups: Bins)
    ensures Flatten(PathGroups(groups)) == Paths(Flatten(groups))
  {
    if groups != [] {
      assert PathGroups(groups)[1..] == PathGroups(groups[1..]);
      FlattenPathGroups(groups[1..]);
      PathsConcat(groups[0], Flatten(groups[1..]));
    }
  }

  lemma {:induction false} LoadIsTotal(bin: seq<File>, weightOf: string -> nat)
    requires WeighedBy(bin, weightOf)
    ensures Load(bin) == TotalWeight(Paths(bin), weightOf)
  {
    if bin != [] {
      var n := |bin| - 1;
      assert bin == bin[..n] + [bin[n]];
      LoadIsTotal(bin[..n], weightOf);
      assert Paths(bin)[..n] == Paths(bin[..n]);
    }
  }

  /** Bins are filled in the order of the files. */
  lemma {:induction false} PlaceInOrder(files: seq<File>, size: nat, count: nat, i: nat)
    requires SortedBy(files, Before) && i < |Place(files, size, count)|
    ensures SortedBy(Place(files, size, count)[i], Before)
    ensures forall x: File :: x in Place(files, size, count)[i] ==> x in files
  {
    if files != [] {
      hide Before, Lightest;
      var n := |files| - 1;
      var before := Place(files[..n], size, count);
      PlaceInOrder(files[..n], size, count, i);
      forall x: File | x in before[i]
        ensures x in files && Before(x, files[n])
      {
        var k :| 0 <= k < n && files[..n][k] == x;
        assert files[k] == x;
      }
    }
  }

  /** Each group is filled from the heaviest file on. */
  lemma GroupsInOrder(files: seq<File>, size: nat)
    requires size >= 1
    ensures forall i :: 0 <= i < |Groups(files, size)| ==> SortedBy(Groups(files, size)[i], Before)
    ensures forall i, f: File :: 0 <= i < |Groups(files, size)| && f in Groups(files, size)[i] ==> f in files
  {
    hide Before, Place, Arranged;
    BeforeIsTotal();
    SortedIsSorted(files, Before);
    var sorted := Sorted(files, Before);
    var bins, groups := Place(sorted, size, GroupCount(|files|, size)), Groups(files, size);
    ArrangedIsPermutation(bins);
    forall i | 0 <= i < |groups|
      ensures SortedBy(groups[i], Before) && forall f: File :: f in groups[i] ==> f in files
    {
      var a: nat :| a < |bins| && bins[a] == groups[i];
      PlaceInOrder(sorted, size, GroupCount(|files|, size), a);
      forall f: File | f in groups[i]
        ensures f in files
      {
        assert f in multiset(sorted);
      }
    }
  }

  lemma InOrderIsHeaviestFirst(bin: seq<File>, weightOf: string -> nat)
    requires SortedBy(bin, Before) && WeighedBy(bin, weightOf)
    ensures HeaviestFirst(Paths(bin), weightOf)
  {
    forall i, j | 0 <= i < j < |bin|
      ensures weightOf(Paths(bin)[i]) > weightOf(Paths(bin)[j])
              || (weightOf(Paths(bin)[i]) == weightOf(Paths(bin)[j]) && LexLeq(Paths(bin)[i], Paths(bin)[j]))
    {
      assert bin[i] in bin && bin[j] in bin && Before(bin[i], bin[j]);
    }
  }

  lemma GroupingIsBalanced(paths: seq<string>, weightOf: string -> nat, size: nat)
    requires size >= 1
    ensures IsBalancedGrouping(PathGroups(Groups(Weighed(paths, weightOf), size)), paths, weightOf, size)
  {
    hide Groups, Flatten, Load, TotalWeight, Paths, HeaviestFirst, EvenlyLoaded, Even, SortedBy, Weighed;
    var files := Weighed(paths, weightOf);
    var groups := Groups(files, size);
    GroupsAreBalanced(files, size);
    GroupsInOrder(files, size);
    WeighedIsByWeight(paths, weightOf);
    GroupCountIsCeiling(|paths|, size);
    FlattenPathGroups(groups);
    FlatOrderPermutes(paths, weightOf, size);
    forall i | 0 <= i < |groups|
      ensures |Paths(groups[i])| == |groups[i]| && HeaviestFirst(Paths(groups[i]), weightOf)
      ensures Load(groups[i]) == TotalWeight(Paths(groups[i]), weightOf) && WeighedBy(groups[i], weightOf)
    {
      PathsLength(groups[i]);
      assert WeighedBy(groups[i], weightOf);
      LoadIsTotal(groups[i], weightOf);
      InOrderIsHeaviestFirst(groups[i], weightOf);
    }
    EvenByPath(groups, weightOf, size);
    if paths == [] { assert GroupCount(0, size) == 0; }
  }

  lemma WeighedIsByWeight(paths: seq<string>, weightOf: string -> nat)
    ensures |Weighed(paths, weightOf)| == |paths| && WeighedBy(Weighed(paths, weightOf), weightOf)
  {
  }

  lemma PathsLength(files: seq<File>)
    ensures |Paths(files)| == |files|
  {
  }

  lemma EvenByPath(groups: Bins, weightOf: string -> nat, size: nat)
    requires Even(groups, size)
    requires forall i :: 0 <= i < |groups| ==>
      Load(groups[i]) == TotalWeight(Paths(groups[i]), weightOf) && WeighedBy(groups[i], weightOf)
    ensures EvenlyLoaded(PathGroups(groups), weightOf, size)
  {
    hide Load, TotalWeight;
    var named := PathGroups(groups);
    forall i, j, p | 0 <= i < |named| && 0 <= j < |named| && |named[j]| < size && p in named[i]
      ensures TotalWeight(named[i], weightOf) <= TotalWeight(named[j], weightOf) + weightOf(p)
    {
      var k :| 0 <= k < |groups[i]| && named[i][k] == p;
      assert groups[i][k] in groups[i];
      SmallestIsLeast(groups[i]);
    }
  }

  /** balanced_groups_flat_order */
  method BalancedGroupsFlatOrder(paths: seq<string>, weightOf: string -> nat, size: nat) returns (flat: seq<string>)
    requires size >= 1
    ensures flat == Paths(Flatten(Groups(Weighed(paths, weightOf), size)))
    ensures multiset(flat) == multiset(paths)
    ensures exists groups :: IsBalancedGrouping(groups, paths, weightOf, size) && flat == Flatten(groups)
  {
    hide Place, Sorted, Load, Flatten, GroupCount, Weighed;
    var files := Sorted(Weighed(paths, weightOf), Before);
    SortedDescending(Weighed(paths, weightOf));
    var count := GroupCount(|files|, size);
    GroupCountIsCeiling(|files|, size);
    var bins, loads := PlaceWithHeap(files, size, count);
    var ranked := seq(|bins|, i requires 0 <= i < |bins| && |loads| == |bins| => Ranked(loads[i], i, bins[i]));
    assert ranked == Rank(bins) by { PlaceKeeps(files, size, count); }
    var groups := Unrank(Sorted(ranked, HeavierFirst));
    flat := FlattenPaths(groups);
    FlatOrderPermutes(paths, weightOf, size);
    hide IsBalancedGrouping;
    GroupingIsBalanced(paths, weightOf, size);
    FlattenPathGroups(groups);
  }

  /** The last line of the source. */
  method FlattenPaths(groups: Bins) returns (flat: seq<string>)
    ensures flat == Paths(Flatten(groups))
  {
    hide Flatten;
    flat := [];
    assert groups[..0] == [];
    FlattenNothing();
    for k := 0 to |groups|
      invariant flat == Paths(Flatten(groups[..k]))
    {
      FlattenAppend(groups[..k], groups[k]);
      PathsConcat(Flatten(groups[..k]), groups[k]);
      assert groups[..k + 1] == groups[..k] + [groups[k]];
      flat := flat + Paths(groups[k]);
    }
    assert groups[..|groups|] == groups;
  }

  lemma PathsConcat(a: seq<File>, b: seq<File>)
    ensures Paths(a + b) == Paths(a) + Paths(b)
  {
  }

  lemma {:induction false} PathsPermute(a: seq<File>, b: seq<File>)
    requires multiset(a) == multiset(b)
    ensures multiset(Paths(a)) == multiset(Paths(b))
    decreases |a|
  {
    hide Paths;
    if a == [] {
      NoneOf(b);
    } else {
      var i := TakeFirst(a, b);
      var before, after := b[..i], b[i + 1..];
      PathsPermute(a[1..], before + after);
      assert a == [a[0]] + a[1..] && b == before + [b[i]] + after;
      PathsConcat([a[0]], a[1..]);
      PathsConcat(before + [b[i]], after);
      PathsConcat(before, [b[i]]);
      PathsConcat(before, after);
    }
  }

  /** The paths come back permuted, however often one is given. */
  lemma FlatOrderPermutes(paths: seq<string>, weightOf: string -> nat, size: nat)
    requires size >= 1
    ensures multiset(Paths(Flatten(Groups(Weighed(paths, weightOf), size)))) == multiset(paths)
  {
    var files := Weighed(paths, weightOf);
    assert Paths(files) == paths;
    hide Paths, Groups, Flatten, Weighed, Even, Load;
    GroupsAreBalanced(files, size);
    PathsPermute(Flatten(Groups(files, size)), files);
  }

  lemma FlattenNothing()
    ensures Paths(Flatten([])) == []
  {
  }

  function Weighed(paths: seq<string>, weightOf: string -> nat): seq<File> {
    seq(|paths|, i requires 0 <= i < |paths| => File(weightOf(paths[i]), paths[i]))
  }
}
