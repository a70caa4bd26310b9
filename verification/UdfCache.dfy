/** The cache of compiled user functions (UDFCache in udf.py): an LRU order with a time to live. */
module UdfCache {
  import opened Sequences
  import opened PyStrings
  import opened UdfKeys

  /** A cached function; the signature flag is always true where the cache is used. */
  datatype Entry = Entry(code: Code, name: string, createdAt: int, lastUsed: int, useCount: nat)

  predicate Expired(e: Entry, ttl: Option<int>, now: int) {
    ttl.Some? && ttl.value != 0 && now - e.createdAt > ttl.value
  }

  function Alive(cache: map<Key, Entry>, ttl: Option<int>, now: int): map<Key, Entry> {
    map k | k in cache && !Expired(cache[k], ttl, now) :: cache[k]
  }

  /** An entry stays for as long as the time to live says, whether it is used or not; with none, or with 0, for ever. */
  lemma AliveUntil(cache: map<Key, Entry>, ttl: Option<int>, now: int)
    ensures forall k :: k in Alive(cache, ttl, now)
                        <==> k in cache && (ttl.None? || ttl.value == 0 || now - cache[k].createdAt <= ttl.value)
    ensures forall k :: k in Alive(cache, ttl, now) ==> Alive(cache, ttl, now)[k] == cache[k]
  {
  }

  /** The elements of s that are in keys, in order. */
  function Keep(s: seq<Key>, keys: set<Key>): seq<Key> {
    if s == [] then [] else if s[0] in keys then [s[0]] + Keep(s[1..], keys) else Keep(s[1..], keys)
  }

  lemma {:induction false} KeepProperties(s: seq<Key>, keys: set<Key>)
    requires Distinct(s)
    ensures Distinct(Keep(s, keys)) && forall k :: k in Keep(s, keys) <==> k in s && k in keys
  {
    if s != [] { KeepProperties(s[1..], keys); }
  }

  lemma {:induction false} KeepAll(s: seq<Key>, keys: set<Key>)
    requires forall k :: k in s ==> k in keys
    ensures Keep(s, keys) == s
  {
    if s != [] {
      assert s[0] in s;
      KeepAll(s[1..], keys);
    }
  }

  /** Taking one key out of the list is the same as not keeping it. */
  lemma {:induction false} RemoveIsKeep(s: seq<Key>, keys: set<Key>, x: Key)
    requires Distinct(s)
    ensures RemoveFirst(Keep(s, keys), x) == Keep(s, keys - {x})
  {
    if s != [] {
      var rest := s[1..];
      KeepProperties(rest, keys);
      if s[0] == x && x in keys {
        assert Keep(s, keys) == [x] + Keep(rest, keys);
        assert Keep(s, keys)[1..] == Keep(rest, keys);
        assert x !in Keep(rest, keys);
        RemoveAbsent(Keep(rest, keys), x);
        RemoveIsKeep(rest, keys, x);
      } else {
        RemoveIsKeep(rest, keys, x);
        if s[0] in keys {
          assert Keep(s, keys) == [s[0]] + Keep(rest, keys);
          assert Keep(s, keys)[1..] == Keep(rest, keys);
        }
      }
    }
  }

  lemma {:induction false} RemoveAbsent(s: seq<Key>, x: Key)
    requires x !in s
    ensures RemoveFirst(s, x) == s
  {
    if s != [] { RemoveAbsent(s[1..], x); }
  }

  lemma {:induction false} RemoveProperties(s: seq<Key>, x: Key)
    ensures Distinct(s) ==> Distinct(RemoveFirst(s, x)) && x !in RemoveFirst(s, x)
    ensures forall k :: k != x ==> (k in RemoveFirst(s, x) <==> k in s)
    ensures forall k :: k in RemoveFirst(s, x) ==> k in s
  {
    if s != [] {
      RemoveProperties(s[1..], x);
      assert Distinct(s) ==> s[0] !in s[1..];
    }
  }

  // --- what the order means ------------------------------------------------------------------------

  /** The order after one access, when nothing expires: the key moves to the end, or replaces the oldest one. */
  function Touch(order: seq<Key>, capacity: nat, k: Key): seq<Key>
    requires capacity >= 1
  {
    if k in order then RemoveFirst(order, k) + [k]
    else (if |order| >= capacity then order[|order| - capacity + 1..] else order) + [k]
  }

  function Touches(history: seq<Key>, capacity: nat): seq<Key>
    requires capacity >= 1
  {
    if history == [] then [] else Touch(Touches(history[..|history| - 1], capacity), capacity, history[|history| - 1])
  }

  lemma TouchHit(order: seq<Key>, capacity: nat, k: Key)
    requires capacity >= 1 && k in order
    ensures Touch(order, capacity, k) == RemoveFirst(order, k) + [k]
  {
  }

  lemma TouchMiss(order: seq<Key>, capacity: nat, k: Key)
    requires 1 <= capacity && k !in order && |order| <= capacity
    ensures Touch(order, capacity, k) == (if |order| == capacity then order[1..] else order) + [k]
  {
  }

  lemma TouchesOneMore(history: seq<Key>, capacity: nat)
    requires capacity >= 1 && history != []
    ensures var n := |history| - 1;
            Touches(history, capacity) == Touch(Touches(history[..n], capacity), capacity, history[n])
  {
  }

  /** The distinct keys of a history, by last access. */
  function Recency(history: seq<Key>): seq<Key> {
    if history == [] then []
    else RemoveFirst(Recency(history[..|history| - 1]), history[|history| - 1]) + [history[|history| - 1]]
  }

  function Newest(s: seq<Key>, n: nat): seq<Key> {
    if |s| <= n then s else s[|s| - n..]
  }

  lemma {:induction false} RecencyDistinct(history: seq<Key>)
    ensures Distinct(Recency(history))
    ensures forall k :: k in Recency(history) <==> k in history
  {
    if history != [] {
      var n := |history| - 1;
      RecencyDistinct(history[..n]);
      RemoveProperties(Recency(history[..n]), history[n]);
      assert history == history[..n] + [history[n]];
    }
  }

  lemma {:induction false} RemoveMiddle(a: seq<Key>, k: Key, b: seq<Key>)
    requires k !in a
    ensures RemoveFirst(a + ([k] + b), k) == a + b
  {
    if a == [] {
      assert a + ([k] + b) == [k] + b && a + b == b;
    } else {
      var rest := a[1..];
      assert a[0] in a && a == [a[0]] + rest;
      RemoveMiddle(rest, k, b);
      RemoveLater(a[0], rest + ([k] + b), k);
      assert a + ([k] + b) == [a[0]] + (rest + ([k] + b)) && a + b == [a[0]] + (rest + b);
    }
  }

  lemma RemoveLater(first: Key, rest: seq<Key>, k: Key)
    requires first != k
    ensures RemoveFirst([first] + rest, k) == [first] + RemoveFirst(rest, k)
  {
    assert ([first] + rest)[1..] == rest;
  }

  lemma NewestSuffix(x: seq<Key>, t: seq<Key>, n: nat)
    requires |t| == n || (x == [] && |t| <= n)
    ensures Newest(x + t, n) == t
  {
  }

  lemma Regroup(a: seq<Key>, b: seq<Key>, c: seq<Key>)
    ensures a + (b + c) == a + b + c
  {
  }

  /** The accessed key is among the newest y, k, z. */
  lemma TouchRecent(x: seq<Key>, y: seq<Key>, k: Key, z: seq<Key>, n: nat)
    requires n >= 1 && k !in x && k !in y && (|y| + 1 + |z| == n || (x == [] && |y| + 1 + |z| <= n))
    ensures var r := x + (y + ([k] + z)); Touch(Newest(r, n), n, k) == Newest(RemoveFirst(r, k) + [k], n)
  {
    hide RemoveFirst, Touch, Newest;
    var order := y + ([k] + z);
    NewestSuffix(x, order, n);
    RemoveMiddle(y, k, z);
    assert order[|y|] == k;
    TouchHit(order, n, k);
    Regroup(x, y, [k] + z);
    RemoveMiddle(x + y, k, z);
    Regroup(x, y, z);
    Regroup(x, y + z, [k]);
    NewestSuffix(x, y + z + [k], n);
  }

  /** It was accessed before the newest, which are first and z. */
  lemma TouchEarlier(x: seq<Key>, k: Key, y: seq<Key>, first: Key, z: seq<Key>)
    requires k !in x && k !in [first] + z
    ensures var (r, n) := (x + ([k] + (y + ([first] + z))), |z| + 1);
            Touch(Newest(r, n), n, k) == Newest(RemoveFirst(r, k) + [k], n)
  {
    hide RemoveFirst, Touch, Newest;
    var order, n := [first] + z, |z| + 1;
    Regroup(x, [k], y + order);
    Regroup(x + [k], y, order);
    NewestSuffix(x + [k] + y, order, n);
    TouchMiss(order, n, k);
    assert order[1..] == z;
    RemoveMiddle(x, k, y + order);
    Regroup(x, y, order);
    Regroup(x + y, [first], z);
    Regroup(x + y + [first], z, [k]);
    NewestSuffix(x + y + [first], z + [k], n);
  }

  lemma TouchNew(x: seq<Key>, order: seq<Key>, k: Key, n: nat)
    requires n >= 1 && k !in x + order && (|order| == n || (x == [] && |order| <= n))
    ensures var r := x + order; Touch(Newest(r, n), n, k) == Newest(RemoveFirst(r, k) + [k], n)
  {
    hide RemoveFirst, Touch, Newest;
    NewestSuffix(x, order, n);
    RemoveAbsent(x + order, k);
    assert forall a :: a in order ==> a in x + order;
    TouchMiss(order, n, k);
    if |order| == n {
      assert order == [order[0]] + order[1..];
      Regroup(x, [order[0]], order[1..]);
      Regroup(x + [order[0]], order[1..], [k]);
      NewestSuffix(x + [order[0]], order[1..] + [k], n);
    } else {
      assert x + order == order;
      NewestSuffix([], order + [k], n);
      assert [] + (order + [k]) == order + [k];
    }
  }

  lemma TouchNewest(r: seq<Key>, capacity: nat, k: Key)
    requires capacity >= 1 && Distinct(r)
    ensures Touch(Newest(r, capacity), capacity, k) == Newest(RemoveFirst(r, k) + [k], capacity)
  {
    hide *;
    var d := if |r| <= capacity then 0 else |r| - capacity;
    if k in r {
      var x, rest := FindKey(r, k);
      if d <= |x| {
        var before, y := CutAt(x, d, k);
        Regroup(before, y, [k] + rest);
        TouchRecent(before, y, k, rest, capacity);
      } else {
        var y, newest := CutAt(rest, d - |x| - 1, k);
        assert newest == [newest[0]] + newest[1..];
        TouchEarlier(x, k, y, newest[0], newest[1..]);
      }
    } else {
      var x, order := CutAt(r, d, k);
      TouchNew(x, order, k, capacity);
    }
  }

  lemma FindKey(s: seq<Key>, k: Key) returns (a: seq<Key>, b: seq<Key>)
    requires Distinct(s) && k in s
    ensures s == a + ([k] + b) && k !in a && k !in b
  {
    var p: nat :| p < |s| && s[p] == k;
    a, b := s[..p], s[p + 1..];
  }

  lemma CutAt(s: seq<Key>, i: nat, k: Key) returns (a: seq<Key>, b: seq<Key>)
    requires i <= |s| && k !in s
    ensures s == a + b && |a| == i && k !in a && k !in b
  {
    a, b := s[..i], s[i..];
  }

  /** The cached keys are the most recently used distinct keys of the whole history, oldest first. */
  lemma {:induction false} LruIsRecency(history: seq<Key>, capacity: nat)
    requires capacity >= 1
    ensures Touches(history, capacity) == Newest(Recency(history), capacity)
  {
    if history != [] {
      var n := |history| - 1;
      LruIsRecency(history[..n], capacity);
      RecencyDistinct(history[..n]);
      TouchNewest(Recency(history[..n]), capacity, history[n]);
    }
  }

  lemma NewestGrows(r: seq<Key>, small: nat, large: nat, k: Key)
    requires small <= large && k in Newest(r, small)
    ensures k in Newest(r, large)
  {
    var kept, more := Newest(r, small), Newest(r, large);
    var i :| 0 <= i < |kept| && kept[i] == k;
    assert more[|more| - |kept| + i] == r[|r| - |kept| + i] == k;
  }

  /** The order after one access: what expired is gone, and the key moves or comes to the end if there is a function. */
  function Access(order: seq<Key>, alive: set<Key>, capacity: nat, k: Key, found: bool): seq<Key>
    requires capacity >= 1
  {
    if found then Touch(Keep(order, alive), capacity, k) else Keep(order, alive)
  }

  lemma {:induction false} KeepSame(s: seq<Key>, a: set<Key>, b: set<Key>)
    requires forall x :: x in s ==> (x in a <==> x in b)
    ensures Keep(s, a) == Keep(s, b)
  {
    if s != [] {
      assert s[0] in s && forall x :: x in s[1..] ==> x in s;
      KeepSame(s[1..], a, b);
    }
  }

  lemma {:induction false} KeepTwice(s: seq<Key>, a: set<Key>, b: set<Key>)
    ensures Keep(Keep(s, a), b) == Keep(s, a * b)
  {
    if s != [] { KeepTwice(s[1..], a, b); }
  }

  lemma {:induction false} KeepConcat(s: seq<Key>, t: seq<Key>, keys: set<Key>)
    ensures Keep(s + t, keys) == Keep(s, keys) + Keep(t, keys)
  {
    if s == [] {
      assert s + t == t;
    } else {
      assert (s + t)[1..] == s[1..] + t && (s + t)[0] == s[0];
      KeepConcat(s[1..], t, keys);
    }
  }

  lemma {:induction false} KeepWithout(s: seq<Key>, keys: set<Key>, x: Key)
    requires Distinct(s)
    ensures Keep(RemoveFirst(s, x), keys) == Keep(s, keys - {x})
  {
    if s != [] {
      if s[0] == x {
        KeepSame(s[1..], keys, keys - {x});
      } else {
        KeepWithout(s[1..], keys, x);
      }
    }
  }

  lemma {:induction false} KeepSuffix(s: seq<Key>, d: nat, keys: set<Key>)
    requires Distinct(s) && d <= |s| && forall x :: x in s ==> (x in keys <==> x in s[d..])
    ensures Keep(s, keys) == s[d..]
  {
    if d == 0 {
      KeepAll(s, keys);
    } else {
      assert s[d..] == s[1..][d - 1..] && s[0] in s;
      assert s[0] !in s[d..];
      KeepSuffix(s[1..], d - 1, keys);
    }
  }

  /** With the keys in order of last access, moving the accessed key to the end keeps them so. */
  lemma LastAccess(recency: seq<Key>, held: set<Key>, order: seq<Key>, alive: set<Key>, capacity: nat, k: Key,
                   found: bool, held': set<Key>)
    requires capacity >= 1 && Distinct(recency) && order == Keep(recency, held) && alive <= held
    requires forall x :: x in held' <==> x in Access(order, alive, capacity, k, found)
    requires found || k !in alive
    ensures Access(order, alive, capacity, k, found) == Keep(RemoveFirst(recency, k) + [k], held')
  {
    hide Distinct, RemoveFirst;
    var kept := Keep(order, alive);
    KeepTwice(recency, held, alive);
    assert held * alive == alive;
    KeepProperties(recency, alive);
    RemoveProperties(kept, k);
    KeepConcat(RemoveFirst(recency, k), [k], held');
    KeepWithout(recency, held', k);
    assert Keep([k], held') == if k in held' then [k] else [] by { assert [k][1..] == []; }
    if !found {
      KeepSame(recency, held' - {k}, alive);
    } else if k in kept {
      RemoveIsKeep(recency, alive, k);
      KeepSame(recency, held' - {k}, alive - {k});
    } else {
      var d := if |kept| >= capacity then |kept| - capacity + 1 else 0;
      KeepSuffix(kept, d, held' - {k});
      KeepTwice(recency, alive, held' - {k});
      KeepSame(recency, alive * (held' - {k}), held' - {k});
    }
  }

  /** A larger cache holds whatever a smaller one holds. */
  lemma LargerCacheHoldsMore(history: seq<Key>, small: nat, large: nat, k: Key)
    requires 1 <= small <= large && k in Touches(history, small)
    ensures k in Touches(history, large)
  {
    LruIsRecency(history, small);
    LruIsRecency(history, large);
    NewestGrows(Recency(history), small, large, k);
  }

  ghost predicate LruState(cache: map<Key, Entry>, order: seq<Key>, clock: int) {
    && Distinct(order)
    && (forall k :: k in order <==> k in cache)
    && (forall i, j :: 0 <= i < j < |order| ==> cache[order[i]].lastUsed <= cache[order[j]].lastUsed)
    && (forall k :: k in cache ==> cache[k].createdAt <= cache[k].lastUsed <= clock)
  }

  lemma {:induction false} KeepSorted(s: seq<Key>, keys: set<Key>, used: map<Key, int>)
    requires forall k :: k in s ==> k in used
    requires forall i, j :: 0 <= i < j < |s| ==> used[s[i]] <= used[s[j]]
    ensures forall k :: k in Keep(s, keys) ==> k in s
    ensures forall i, j :: 0 <= i < j < |Keep(s, keys)| ==> used[Keep(s, keys)[i]] <= used[Keep(s, keys)[j]]
  {
    if s != [] {
      var rest := s[1..];
      KeepSorted(rest, keys, used);
      forall k | k in rest
        ensures used[s[0]] <= used[k]
      {
        var i :| 0 <= i < |rest| && rest[i] == k;
        assert s[i + 1] == k;
      }
    }
  }

  /** Dropping entries, and their keys, keeps the LRU state. */
  lemma LruDrop(cache: map<Key, Entry>, order: seq<Key>, clock: int, cache': map<Key, Entry>)
    requires LruState(cache, order, clock)
    requires forall k :: k in cache' ==> k in cache && cache'[k] == cache[k]
    ensures LruState(cache', Keep(order, cache'.Keys), clock)
  {
    KeepProperties(order, cache'.Keys);
    KeepSorted(order, cache'.Keys, map k | k in cache :: cache[k].lastUsed);
  }

  lemma LruAppend(cache: map<Key, Entry>, order: seq<Key>, clock: int, k: Key, e: Entry, later: int)
    requires LruState(cache, order, clock) && k !in cache
    requires e.createdAt <= e.lastUsed == later && clock <= later
    ensures LruState(cache[k := e], order + [k], later)
  {
    var longer := order + [k];
    assert forall i :: 0 <= i < |order| ==> longer[i] == order[i] && order[i] in cache;
    assert forall x :: x in longer <==> x in order || x == k;
  }

  lemma LruWithout(cache: map<Key, Entry>, order: seq<Key>, clock: int, k: Key)
    requires LruState(cache, order, clock)
    ensures Keep(order, (cache - {k}).Keys) == RemoveFirst(order, k)
  {
    KeepAll(order, cache.Keys);
    RemoveIsKeep(order, cache.Keys, k);
    assert (cache - {k}).Keys == cache.Keys - {k};
  }

  /** Using a cached key moves it to the end. */
  lemma LruTouch(cache: map<Key, Entry>, order: seq<Key>, clock: int, k: Key, e: Entry, later: int)
    requires LruState(cache, order, clock) && k in cache
    requires e.createdAt <= e.lastUsed == later && clock <= later
    ensures LruState(cache[k := e], RemoveFirst(order, k) + [k], later)
  {
    hide LruState, Keep, RemoveFirst;
    LruWithout(cache, order, clock, k);
    LruDrop(cache, order, clock, cache - {k});
    LruAppend(cache - {k}, RemoveFirst(order, k), clock, k, e, later);
    assert (cache - {k})[k := e] == cache[k := e];
  }

  /** The head of the order is a least recently used key; evicting it keeps the LRU state. */
  lemma LruEvict(cache: map<Key, Entry>, order: seq<Key>, clock: int)
    requires LruState(cache, order, clock) && order != []
    ensures LruState(cache - {order[0]}, order[1..], clock)
    ensures forall k :: k in cache ==> cache[order[0]].lastUsed <= cache[k].lastUsed
  {
    assert order[0] in order;
    forall k | k in cache
      ensures cache[order[0]].lastUsed <= cache[k].lastUsed
    {
      var i :| 0 <= i < |order| && order[i] == k;
    }
    assert forall k :: k in order[1..] <==> k in order && k != order[0];
  }

  ghost predicate CoveredBy(cache: map<Key, Entry>, order: seq<Key>) {
    forall k :: k in cache ==> k in order
  }

  ghost predicate ListedBy(cache: map<Key, Entry>, order: seq<Key>) {
    Distinct(order) && forall k :: k in order <==> k in cache
  }

  /** What dropping the gone keys one after another has made of the cache and the order. */
  ghost predicate Dropped(first: map<Key, Entry>, before: seq<Key>, gone: set<Key>, cache: map<Key, Entry>,
                          order: seq<Key>) {
    && cache == first - gone
    && (CoveredBy(first, before) ==> CoveredBy(cache, order))
    && (ListedBy(first, before) ==> ListedBy(cache, order) && order == Keep(before, cache.Keys))
  }

  lemma NoneDropped(cache: map<Key, Entry>, order: seq<Key>)
    ensures Dropped(cache, order, {}, cache, order)
  {
    if ListedBy(cache, order) { KeepAll(order, cache.Keys); }
  }

  lemma DroppedKeeps(first: map<Key, Entry>, before: seq<Key>, gone: set<Key>, cache: map<Key, Entry>, order: seq<Key>)
    requires Dropped(first, before, gone, cache, order)
    ensures cache == first - gone
    ensures CoveredBy(first, before) ==> CoveredBy(cache, order)
    ensures ListedBy(first, before) ==> ListedBy(cache, order) && order == Keep(before, cache.Keys)
  {
  }

  lemma DropOne(first: map<Key, Entry>, before: seq<Key>, gone: set<Key>, cache: map<Key, Entry>, order: seq<Key>,
                key: Key)
    requires Dropped(first, before, gone, cache, order)
    ensures Dropped(first, before, gone + {key}, cache - {key}, if key in order then RemoveFirst(order, key) else order)
  {
    hide Keep, RemoveFirst;
    var cache' := cache - {key};
    assert cache' == first - (gone + {key}) && cache'.Keys == cache.Keys - {key};
    RemoveProperties(order, key);
    if key !in order { RemoveAbsent(order, key); }
    if ListedBy(first, before) { RemoveIsKeep(before, cache.Keys, key); }
  }

  /** Room for one more, by taking out the oldest key if there was none. */
  ghost predicate RoomMade(cache: map<Key, Entry>, order: seq<Key>, cache': map<Key, Entry>, order': seq<Key>,
                           maxSize: int) {
    if |cache| < maxSize then cache' == cache && order' == order
    else order != [] && cache' == cache - {order[0]} && order' == order[1..] && |cache'| < maxSize
  }

  lemma CoveredNotEmpty(cache: map<Key, Entry>, order: seq<Key>)
    requires |cache| >= 1 && CoveredBy(cache, order)
    ensures order != [] && CoveredBy(cache - {order[0]}, order[1..])
  {
    assert cache.Keys != {};
    var k :| k in cache.Keys;
  }

  /** A new key put into an LRU state takes the place of the least recently used one, if there is no room. */
  lemma LruPut(cache: map<Key, Entry>, order: seq<Key>, clock: int, cache': map<Key, Entry>, order': seq<Key>,
               maxSize: int, k: Key, entry: Entry, now: int)
    requires 1 <= |cache| <= maxSize || (|cache| == 0 && maxSize >= 1)
    requires LruState(cache, order, clock) && LruState(cache', order', clock)
    requires RoomMade(cache, order, cache', order', maxSize)
    requires k !in cache && clock <= now && entry.createdAt == entry.lastUsed == now
    ensures LruState(cache'[k := entry], order' + [k], now) && |cache'[k := entry]| <= maxSize
    ensures order' + [k] == Touch(order, maxSize, k)
    ensures forall gone, kept ::
      gone in cache && gone !in cache'[k := entry] && kept in cache && kept in cache'[k := entry] ==>
        cache[gone].lastUsed <= cache[kept].lastUsed
  {
    LruAppend(cache', order', clock, k, entry, now);
    OrderLength(cache, order, clock);
    forall gone, kept | gone in cache && gone !in cache' && kept in cache
      ensures cache[gone].lastUsed <= cache[kept].lastUsed
    {
      assert gone == order[0];
      var i :| 0 <= i < |order| && order[i] == kept;
    }
  }

  class UDFCache {
    const maxSize: int
    const ttl: Option<int>
    var cache: map<Key, Entry>
    var accessOrder: seq<Key>

    constructor (maxSize: int, ttl: Option<int>)
      ensures this.maxSize == maxSize && this.ttl == ttl && cache == map[] && accessOrder == []
    {
      this.maxSize, this.ttl := maxSize, ttl;
      cache, accessOrder := map[], [];
    }

    /** What any sequence of calls keeps: every cached key is somewhere in the order. */
    ghost predicate Covered()
      reads this
    {
      CoveredBy(cache, accessOrder)
    }

    /** What the discipline of the UDF stage keeps: the order is the cached keys, each once, by last use. */
    ghost predicate Lru(clock: int)
      reads this
    {
      LruState(cache, accessOrder, clock) && |cache| <= maxSize
    }

    /** _evict_lru */
    method EvictLru()
      modifies this`cache, this`accessOrder
      ensures old(accessOrder) == [] ==> cache == old(cache) && accessOrder == []
      ensures old(accessOrder) != [] ==>
        cache == old(cache) - {old(accessOrder)[0]} && accessOrder == old(accessOrder)[1..]
    {
      if accessOrder != [] {
        var lruKey := accessOrder[0];
        accessOrder := accessOrder[1..];
        cache := cache - {lruKey};
      }
    }

    /** The order lists just the cached keys, each once. */
    ghost predicate Listed()
      reads this
    {
      ListedBy(cache, accessOrder)
    }

    /** _cleanup_expired */
    method CleanupExpired(now: int)
      modifies this`cache, this`accessOrder
      ensures cache == Alive(old(cache), ttl, now)
      ensures forall k :: k in cache ==> k in old(cache) && cache[k] == old(cache)[k]
      ensures forall k :: k in old(cache) ==>
        (k in cache <==> ttl.None? || ttl.value == 0 || now - old(cache)[k].createdAt <= ttl.value)
      ensures old(Covered()) ==> Covered()
      ensures old(Listed()) ==> Listed() && accessOrder == Keep(old(accessOrder), cache.Keys)
    {
      hide Alive, Expired, Keep, Dropped, CoveredBy, ListedBy;
      AliveUntil(cache, ttl, now);
      NoneDropped(cache, accessOrder);
      if ttl.None? || ttl.value == 0 {
        NoneExpire(cache, ttl, now);
        DroppedKeeps(old(cache), old(accessOrder), {}, cache, accessOrder);
        return;
      }
      var expired := set k | k in cache && Expired(cache[k], ttl, now);
      var todo := expired;
      assert expired - todo == {};
      while todo != {}
        invariant todo <= expired && Dropped(old(cache), old(accessOrder), expired - todo, cache, accessOrder)
        decreases |todo|
      {
        var key :| key in todo;
        DropKey(key, old(cache), old(accessOrder), expired - todo);
        assert expired - (todo - {key}) == expired - todo + {key};
        todo := todo - {key};
      }
      assert expired - todo == expired;
      DroppedKeeps(old(cache), old(accessOrder), expired, cache, accessOrder);
      AliveIsRest(old(cache), ttl, now);
    }

    /** The body of the loop over the expired keys. */
    method DropKey(key: Key, ghost first: map<Key, Entry>, ghost before: seq<Key>, ghost gone: set<Key>)
      requires Dropped(first, before, gone, cache, accessOrder)
      modifies this`cache, this`accessOrder
      ensures Dropped(first, before, gone + {key}, cache, accessOrder)
    {
      hide Dropped;
      DropOne(first, before, gone, cache, accessOrder, key);
      cache := cache - {key};
      if key in accessOrder {
        accessOrder := RemoveFirst(accessOrder, key);
      }
    }

    /** get; the two clock readings are those of the clean-up and of the use. */
    method Get(text: string, name: string, now: int, later: int, ghost clock: int) returns (r: Option<Entry>)
      modifies this`cache, this`accessOrder
      ensures var k, alive := CacheKey(text, name), Alive(old(cache), ttl, now);
              && (r.Some? <==> k in alive)
              && (r.None? ==> cache == alive)
              && (r.Some? ==>
                    && r.value == alive[k].(lastUsed := later, useCount := alive[k].useCount + 1)
                    && cache == alive[k := r.value] && !Expired(r.value, ttl, now))
              && (old(Listed()) ==>
                    accessOrder == (if r.Some? then RemoveFirst(Keep(old(accessOrder), alive.Keys), k) + [k]
                                    else Keep(old(accessOrder), alive.Keys)))
      ensures old(Covered()) ==> Covered()
      ensures old(Lru(clock)) && clock <= now <= later ==> Lru(later)
      ensures r.Some? && ttl.Some? && ttl.value != 0 ==> now - r.value.createdAt <= ttl.value
      ensures var k := CacheKey(text, name);
              r.None? && k in old(cache) ==>
                ttl.Some? && ttl.value != 0 && now - old(cache)[k].createdAt > ttl.value
    {
      CleanupExpired(now);
      if old(Lru(clock)) {
        LruDrop(old(cache), old(accessOrder), clock, cache);
        AliveSmaller(old(cache), ttl, now);
      }
      var k := CacheKey(text, name);
      if k !in cache {
        return None;
      }
      ghost var before := accessOrder;
      var entry := cache[k].(lastUsed := later, useCount := cache[k].useCount + 1);
      if old(Lru(clock)) && clock <= now <= later {
        LruTouch(cache, accessOrder, clock, k, entry, later);
      }
      RemoveProperties(accessOrder, k);
      if k in accessOrder {
        accessOrder := RemoveFirst(accessOrder, k);
      } else {
        RemoveAbsent(accessOrder, k);
      }
      accessOrder := accessOrder + [k];
      cache := cache[k := entry];
      r := Some(entry);
    }

    /** put, of a compiled function; with a maximum below 1 the eviction loop of the source never ends. */
    method Put(text: string, name: string, code: Code, now: int, ghost clock: int)
      requires maxSize >= 1 && Covered()
      modifies this`cache, this`accessOrder
      ensures Covered() && |cache| <= maxSize
      ensures CacheKey(text, name) in cache && cache[CacheKey(text, name)] == Entry(code, name, now, now, 1)
      ensures forall k :: k in cache && k != CacheKey(text, name) ==> k in old(cache) && cache[k] == old(cache)[k]
      ensures |old(cache)| < maxSize ==> cache == old(cache)[CacheKey(text, name) := Entry(code, name, now, now, 1)]
      ensures old(Lru(clock)) && clock <= now && CacheKey(text, name) !in old(cache) ==>
          && Lru(now) && accessOrder == Touch(old(accessOrder), maxSize, CacheKey(text, name))
          && (forall gone, kept :: gone in old(cache) && gone !in cache && kept in old(cache) && kept in cache ==>
                old(cache)[gone].lastUsed <= old(cache)[kept].lastUsed)
    {
      hide CacheKey, LruState, Touch;
      var k := CacheKey(text, name);
      MakeRoom(clock);
      var entry := Entry(code, name, now, now, 1);
      if old(Lru(clock)) && clock <= now && k !in old(cache) {
        LruPut(old(cache), old(accessOrder), clock, cache, accessOrder, maxSize, k, entry, now);
      }
      cache := cache[k := entry];
      accessOrder := accessOrder + [k];
    }

    /** The eviction loop of put. */
    method MakeRoom(ghost clock: int)
      requires maxSize >= 1 && Covered()
      modifies this`cache, this`accessOrder
      ensures Covered() && |cache| < maxSize
      ensures forall k :: k in cache ==> k in old(cache) && cache[k] == old(cache)[k]
      ensures |old(cache)| < maxSize ==> cache == old(cache)
      ensures old(Lru(clock)) ==>
          LruState(cache, accessOrder, clock) && RoomMade(old(cache), old(accessOrder), cache, accessOrder, maxSize)
    {
      while |cache| >= maxSize
        invariant Covered()
        invariant forall k :: k in cache ==> k in old(cache) && cache[k] == old(cache)[k]
        invariant |old(cache)| < maxSize ==> cache == old(cache)
        invariant old(Lru(clock)) ==>
            && LruState(cache, accessOrder, clock)
            && (RoomMade(old(cache), old(accessOrder), cache, accessOrder, maxSize)
                || (cache == old(cache) && accessOrder == old(accessOrder)))
        decreases |accessOrder|
      {
        hide LruState, CoveredBy;
        CoveredNotEmpty(cache, accessOrder);
        if old(Lru(clock)) { LruEvict(cache, accessOrder, clock); }
        EvictLru();
      }
    }

    /** Every cached entry is what compiling a request with its key gave. */
    ghost predicate Compiled(compile: (string, string) -> Option<Code>, requests: seq<Request>)
      reads this
    {
      forall k :: k in cache ==> IsCompiled(compile, requests, k, cache[k].code)
    }

    /**
     The body of the loop over UDF tasks: get, and on a miss compile and put; None is a function that does not compile.
     The answer is the cached code of the key, or else what compiling gives; either way it is what compiling this or an
     earlier request with the same key gave.
     */
    method Lookup(functionText: string, functionName: string, compile: (string, string) -> Option<Code>, now: int,
                  later: int, putTime: int, ghost clock: int, ghost earlier: seq<Request>)
      returns (code: Option<Code>)
      requires maxSize >= 1 && Lru(clock) && clock <= now <= later <= putTime
      requires Compiled(compile, earlier)
      modifies this`cache, this`accessOrder
      ensures code == Compile(compile, (functionText, functionName))
              || (code.Some? && IsCompiled(compile, earlier, KeyOf((functionText, functionName)), code.value))
      ensures Lru(putTime) && Compiled(compile, earlier + [(functionText, functionName)])
      ensures var k, alive := KeyOf((functionText, functionName)), Alive(old(cache), ttl, now);
              && code == (if k in alive then Some(alive[k].code) else Compile(compile, (functionText, functionName)))
              && (|alive| < maxSize || k in alive ==>
                    Codes(cache) == Answered(Codes(alive), compile, (functionText, functionName)))
      ensures accessOrder == Access(old(accessOrder), Alive(old(cache), ttl, now).Keys, maxSize,
                                    KeyOf((functionText, functionName)), code.Some?)
    {
      hide LruState, IsCompiled, CacheKey, Touch, Strip, Codes, Answered;
      var text, name := Strip(functionText), Strip(functionName);
      StillCompiled(compile, earlier, (functionText, functionName));
      LruListed(clock);
      var cached := Get(text, name, now, later, clock);
      ghost var alive := Alive(old(cache), ttl, now);
      LruListed(later);
      AliveAmong(old(cache), ttl, now);
      KeepProperties(old(accessOrder), alive.Keys);
      if cached.Some? {
        TouchHit(Keep(old(accessOrder), alive.Keys), maxSize, CacheKey(text, name));
        LaterClock(later, putTime);
        HitAnswers(alive, compile, (functionText, functionName), cached.value);
        return Some(cached.value.code);
      }
      code := CompileAndPut(text, name, compile, putTime, later, (functionText, functionName), earlier);
    }

    /** What the loop body does on a miss. */
    method CompileAndPut(text: string, name: string, compile: (string, string) -> Option<Code>, now: int,
                         ghost clock: int, ghost r: Request, ghost earlier: seq<Request>)
      returns (code: Option<Code>)
      requires maxSize >= 1 && Lru(clock) && clock <= now && KeyOf(r) !in cache
      requires text == Strip(r.0) && name == Strip(r.1) && Compiled(compile, earlier)
      modifies this`cache, this`accessOrder
      ensures code == Compile(compile, r) && Lru(now) && Compiled(compile, earlier + [r])
      ensures |old(cache)| < maxSize ==> Codes(cache) == Answered(Codes(old(cache)), compile, r)
      ensures if code.Some? then accessOrder == Touch(old(accessOrder), maxSize, KeyOf(r))
              else accessOrder == old(accessOrder)
    {
      hide LruState, IsCompiled, CacheKey, Touch, Strip, Codes, Answered;
      StillCompiled(compile, earlier, r);
      LruListed(clock);
      code := compile(text, name);
      if code.Some? {
        MissAnswers(cache, compile, r, Entry(code.value, name, now, now, 1));
        Put(text, name, code.value, now, clock);
        FreshlyCompiled(compile, earlier, r, code.value);
      } else {
        NoAnswer(cache, compile, r);
        LaterClock(clock, now);
      }
    }

    lemma LruListed(clock: int)
      requires Lru(clock)
      ensures Listed() && Covered()
    {
    }

    lemma EmptyLru(clock: int)
      requires maxSize >= 1 && cache == map[] && accessOrder == []
      ensures Lru(clock) && Touches(KeysOf([]), maxSize) == [] && Keep(Recency(KeysOf([])), cache.Keys) == []
      ensures forall compile :: Codes(cache) == Answers(compile, [])
    {
    }

    lemma LaterClock(clock: int, later: int)
      requires Lru(clock) && clock <= later
      ensures Lru(later)
    {
    }

    /**
     A whole run of the UDF stage over an empty cache: when keys tell the requests apart, every request gets what
     compiling it afresh would give. Whatever expires, the order is the cached keys by last request. Without a time to
     live the cache holds the most recently used functions; and with room for all keys as well, every request gets what
     the first request with its key that compiled gave.
     */
    method Serve(requests: seq<Request>, compile: (string, string) -> Option<Code>, clock: nat -> int)
      returns (codes: seq<Option<Code>>)
      requires maxSize >= 1 && cache == map[] && accessOrder == []
      requires forall i, j :: i <= j ==> clock(i) <= clock(j)
      modifies this`cache, this`accessOrder
      ensures |codes| == |requests|
      ensures KeysTell(requests) ==> Right(compile, requests, codes)
      ensures |cache| <= maxSize
      ensures Roomy(requests) ==>
        AsAnswered(compile, requests, codes) && (Right(compile, requests, codes) <==> Agree(compile, requests))
      ensures accessOrder == Keep(Recency(KeysOf(requests)), cache.Keys)
      ensures (ttl.None? || ttl.value == 0) && AllSome(codes) ==>
          accessOrder == Newest(Recency(KeysOf(requests)), maxSize)
    {
      hide LruState, IsCompiled, CacheKey, Touch, Strip, Touches, Newest, Recency, KeysOf, KeyOf, KeysTell, Compile,
           AllSome, Roomy, Access, Keep, Codes, Answers, Answered, Answer, Alive, Right, AsAnswered, Agree, CoveredBy,
           ListedBy;
      NoneServed(compile, requests);
      codes := [];
      LruIsRecency(KeysOf(requests), maxSize);
      EmptyLru(clock(0));
      assert requests[..0] == [];
      var i := 0;
      while i < |requests|
        invariant 0 <= i <= |requests| == |codes| + |requests| - i
        invariant Lru(clock(3 * i)) && Compiled(compile, requests[..i])
        invariant KeysTell(requests) ==> Right(compile, requests, codes)
        invariant Roomy(requests) ==>
          Codes(cache) == Answers(compile, requests[..i]) && AsAnswered(compile, requests, codes)
        invariant accessOrder == Keep(Recency(KeysOf(requests[..i])), cache.Keys)
        invariant (ttl.None? || ttl.value == 0) && AllSome(codes) ==>
            accessOrder == Touches(KeysOf(requests[..i]), maxSize)
      {
        ghost var before, order := cache, accessOrder;
        LruListed(clock(3 * i));
        var (text, name) := requests[i];
        if Roomy(requests) { RoomForOne(compile, requests, i, cache, clock(3 * i)); }
        AnswerAt(compile, requests, i);
        var code := Lookup(text, name, compile, clock(3 * i), clock(3 * i + 1), clock(3 * i + 2), clock(3 * i),
                           requests[..i]);
        assert (text, name) == requests[i];
        if KeysTell(requests) && code.Some? && IsCompiled(compile, requests[..i], KeyOf(requests[i]), code.value) {
          SameFunction(compile, requests, i, code.value);
        }
        assert requests[..i + 1] == requests[..i] + [requests[i]];
        LruListed(clock(3 * i + 2));
        OneMoreAccess(requests, i, before, order, ttl, clock(3 * i), maxSize, code.Some?, cache, accessOrder);
        LaterClock(clock(3 * i + 2), clock(3 * (i + 1)));
        AllSomeAppend(codes, code);
        OneMoreServed(compile, requests, codes, code);
        codes := codes + [code];
        TouchesGrow(requests, i, maxSize);
        i := i + 1;
      }
      assert requests[..i] == requests;
      if AsAnswered(compile, requests, codes) { AllServed(compile, requests, codes); }
    }

    /** Nothing expires and no key has to make room. */
    ghost predicate Roomy(requests: seq<Request>) {
      (ttl.None? || ttl.value == 0) && |SetOf(KeysOf(requests))| <= maxSize
    }

    lemma RoomForOne(compile: (string, string) -> Option<Code>, requests: seq<Request>, i: nat, cache: map<Key, Entry>,
                     now: int)
      requires Roomy(requests) && i < |requests| && Codes(cache) == Answers(compile, requests[..i])
      ensures Alive(cache, ttl, now) == cache && (KeyOf(requests[i]) in Codes(cache) <==> KeyOf(requests[i]) in cache)
      ensures KeyOf(requests[i]) in cache ==> Codes(cache)[KeyOf(requests[i])] == cache[KeyOf(requests[i])].code
      ensures |cache| < maxSize || KeyOf(requests[i]) in cache
    {
      hide KeyOf;
      NoneExpire(cache, ttl, now);
      var k, all := KeyOf(requests[i]), SetOf(KeysOf(requests));
      assert KeysOf(requests)[i] == k;
      forall x | x in cache
        ensures x in all
      {
        assert x in Codes(cache);
        AnswersAreFirst(compile, requests[..i], x);
        var j :| 0 <= j < i && KeyOf(requests[..i][j]) == x;
        assert KeysOf(requests)[j] == x;
      }
      if k !in cache {
        assert cache.Keys <= all - {k};
        Smaller(cache.Keys, all - {k});
      }
    }
  }

  /** What the cache answers for each of its keys. */
  function Codes(cache: map<Key, Entry>): map<Key, Code> {
    map k | k in cache :: cache[k].code
  }

  lemma HitAnswers(cache: map<Key, Entry>, compile: (string, string) -> Option<Code>, r: Request, e: Entry)
    requires KeyOf(r) in cache && cache[KeyOf(r)].code == e.code
    ensures Codes(cache[KeyOf(r) := e]) == Answered(Codes(cache), compile, r)
  {
    hide KeyOf, Compile;
  }

  lemma MissAnswers(cache: map<Key, Entry>, compile: (string, string) -> Option<Code>, r: Request, e: Entry)
    requires KeyOf(r) !in cache && Compile(compile, r) == Some(e.code)
    ensures Codes(cache[KeyOf(r) := e]) == Answered(Codes(cache), compile, r)
  {
    hide KeyOf, Compile;
  }

  lemma NoAnswer(cache: map<Key, Entry>, compile: (string, string) -> Option<Code>, r: Request)
    requires Compile(compile, r).None?
    ensures Codes(cache) == Answered(Codes(cache), compile, r)
  {
    hide KeyOf, Compile;
  }

  /** Every request so far got what compiling it gives. */
  ghost predicate Right(compile: (string, string) -> Option<Code>, requests: seq<Request>, codes: seq<Option<Code>>) {
    |codes| <= |requests| && forall i :: 0 <= i < |codes| ==> codes[i] == Compile(compile, requests[i])
  }

  /** Every request so far got what the first request with its key that compiled gave. */
  ghost predicate AsAnswered(compile: (string, string) -> Option<Code>, requests: seq<Request>,
                             codes: seq<Option<Code>>) {
    |codes| <= |requests| && forall i :: 0 <= i < |codes| ==> codes[i] == Answer(compile, requests, i)
  }

  lemma NoneServed(compile: (string, string) -> Option<Code>, requests: seq<Request>)
    ensures Right(compile, requests, []) && AsAnswered(compile, requests, [])
  {
  }

  lemma OneMoreServed(compile: (string, string) -> Option<Code>, requests: seq<Request>, codes: seq<Option<Code>>,
                      code: Option<Code>)
    requires |codes| < |requests|
    ensures Right(compile, requests, codes) && code == Compile(compile, requests[|codes|]) ==>
      Right(compile, requests, codes + [code])
    ensures AsAnswered(compile, requests, codes) && code == Answer(compile, requests, |codes|) ==>
      AsAnswered(compile, requests, codes + [code])
  {
    hide Compile, Answer;
  }

  lemma AllServed(compile: (string, string) -> Option<Code>, requests: seq<Request>, codes: seq<Option<Code>>)
    requires |codes| == |requests| && AsAnswered(compile, requests, codes)
    ensures Right(compile, requests, codes) <==> Agree(compile, requests)
  {
    hide Compile, Answer, Agree;
    AnswersRight(compile, requests);
  }

  ghost predicate AllSome(codes: seq<Option<Code>>) {
    forall i :: 0 <= i < |codes| ==> codes[i].Some?
  }

  lemma AllSomeAppend(codes: seq<Option<Code>>, code: Option<Code>)
    ensures AllSome(codes + [code]) <==> AllSome(codes) && code.Some?
  {
    assert (codes + [code])[|codes|] == code;
    assert forall i :: 0 <= i < |codes| ==> codes[i] == (codes + [code])[i];
  }

  function KeysOf(requests: seq<Request>): seq<Key> {
    seq(|requests|, i requires 0 <= i < |requests| => KeyOf(requests[i]))
  }

  lemma TouchesGrow(requests: seq<Request>, i: nat, capacity: nat)
    requires capacity >= 1 && i < |requests|
    ensures Touches(KeysOf(requests[..i + 1]), capacity)
         == Touch(Touches(KeysOf(requests[..i]), capacity), capacity, KeyOf(requests[i]))
  {
    KeysOfPrefix(requests, i);
    TouchesOneMore(KeysOf(requests[..i + 1]), capacity);
  }

  lemma KeysOfPrefix(requests: seq<Request>, i: nat)
    requires i < |requests|
    ensures |KeysOf(requests[..i + 1])| == i + 1 && KeysOf(requests[..i + 1])[..i] == KeysOf(requests[..i])
    ensures KeysOf(requests[..i + 1])[i] == KeyOf(requests[i])
  {
    hide CacheKey, Strip;
  }

  /** What one request makes of the order. */
  lemma OneMoreAccess(requests: seq<Request>, i: nat, before: map<Key, Entry>, order: seq<Key>, ttl: Option<int>,
                      now: int, capacity: nat, found: bool, cache: map<Key, Entry>, order': seq<Key>)
    requires capacity >= 1 && i < |requests| && ListedBy(before, order) && ListedBy(cache, order')
    requires order == Keep(Recency(KeysOf(requests[..i])), before.Keys)
    requires found || KeyOf(requests[i]) !in Alive(before, ttl, now)
    requires order' == Access(order, Alive(before, ttl, now).Keys, capacity, KeyOf(requests[i]), found)
    ensures order' == Keep(Recency(KeysOf(requests[..i + 1])), cache.Keys)
    ensures found && (ttl.None? || ttl.value == 0) ==> order' == Touch(order, capacity, KeyOf(requests[i]))
  {
    hide KeyOf, Alive, Access, KeysOf, Keep, Touch;
    KeysOfPrefix(requests, i);
    RecencyDistinct(KeysOf(requests[..i]));
    AliveAmong(before, ttl, now);
    LastAccess(Recency(KeysOf(requests[..i])), before.Keys, order, Alive(before, ttl, now).Keys, capacity,
               KeyOf(requests[i]), found, cache.Keys);
    if ttl.None? || ttl.value == 0 { NothingGone(before, order, ttl, now, capacity, KeyOf(requests[i])); }
  }

  lemma NothingGone(cache: map<Key, Entry>, order: seq<Key>, ttl: Option<int>, now: int, capacity: nat, k: Key)
    requires capacity >= 1 && ListedBy(cache, order) && (ttl.None? || ttl.value == 0)
    ensures Access(order, Alive(cache, ttl, now).Keys, capacity, k, true) == Touch(order, capacity, k)
  {
    NoneExpire(cache, ttl, now);
    KeepAll(order, cache.Keys);
  }

  /** The order of an LRU state is as long as the cache is large. */
  lemma OrderLength(cache: map<Key, Entry>, order: seq<Key>, clock: int)
    requires LruState(cache, order, clock)
    ensures |order| == |cache|
  {
    DistinctSize(order);
    assert SetOf(order) == cache.Keys;
  }

  lemma AliveIsRest(cache: map<Key, Entry>, ttl: Option<int>, now: int)
    ensures cache - (set k | k in cache && Expired(cache[k], ttl, now)) == Alive(cache, ttl, now)
  {
  }

  lemma NoneExpire(cache: map<Key, Entry>, ttl: Option<int>, now: int)
    requires ttl.None? || ttl.value == 0
    ensures Alive(cache, ttl, now) == cache
  {
  }

  lemma AliveAmong(cache: map<Key, Entry>, ttl: Option<int>, now: int)
    ensures Alive(cache, ttl, now).Keys <= cache.Keys
  {
  }

  lemma AliveSmaller(cache: map<Key, Entry>, ttl: Option<int>, now: int)
    ensures |Alive(cache, ttl, now)| <= |cache|
  {
    Smaller(Alive(cache, ttl, now).Keys, cache.Keys);
  }

  lemma {:induction false} Smaller(a: set<Key>, b: set<Key>)
    requires a <= b
    ensures |a| <= |b|
  {
    if a != {} {
      var x :| x in a;
      Smaller(a - {x}, b - {x});
    }
  }
}