/** core/tx_list.go: the nonce-indexed transaction map, with a heap of its nonces and a cache of its
    sorted contents, and that it behaves as the plain map it holds. */
module SortedMaps {
  import opened Common
  import opened Transactions
  import Heaps

  function NonceKey(n: nat): int {
    n
  }

  function TxKey(tx: Tx): int {
    tx.nonce
  }

  /** The index is a heap of exactly the map's nonces. */
  ghost predicate IndexOk(index: seq<nat>, m: Txs) {
    Heaps.IsHeap(index, NonceKey) && multiset(index) == multiset(m.Keys)
  }

  lemma IndexMembers(index: seq<nat>, m: Txs)
    requires multiset(index) == multiset(m.Keys)
    ensures forall n: nat :: n in index <==> n in m
    ensures |index| == |m|
  {
    forall n: nat
      ensures n in index <==> n in m
    {
      assert n in multiset(index) <==> n in multiset(m.Keys);
    }
    assert |multiset(index)| == |multiset(m.Keys)|;
  }

  lemma FirstLeast(index: seq<nat>, m: Txs)
    requires IndexOk(index, m) && |index| > 0
    ensures IsLeast(m, index[0])
  {
    IndexMembers(index, m);
    forall n | n in m
      ensures index[0] <= n
    {
      var k: nat :| k < |index| && index[k] == n;
      Heaps.FirstIsLeast(index, NonceKey, k);
    }
    assert index[0] in index;
  }

  lemma KeysWithout(m: Txs, n: nat)
    ensures n in m ==> multiset((m - {n}).Keys) == multiset(m.Keys) - multiset{n}
  {
    assert (m - {n}).Keys == m.Keys - {n};
  }

  lemma KeysWith(m: Txs, n: nat, tx: Tx)
    ensures n !in m ==> multiset(m[n := tx].Keys) == multiset(m.Keys) + multiset{n}
    ensures n in m ==> m[n := tx].Keys == m.Keys
  {
    assert m[n := tx].Keys == m.Keys + {n};
  }

  lemma InsertedSorted<T>(s: seq<T>, key: T -> int, x: T, i: nat)
    requires Sorted(s, key) && i <= |s|
    requires i > 0 ==> key(s[i-1]) <= key(x)
    requires forall k | i <= k < |s| :: key(x) < key(s[k])
    ensures Sorted(s[..i] + [x] + s[i..], key)
  {
    var r := s[..i] + [x] + s[i..];
    forall a, b | 0 <= a < b < |r|
      ensures Le(r, key, a, b)
    {
      if b < i {
        assert Le(s, key, a, b);
      } else if a > i {
        assert Le(s, key, a - 1, b - 1);
      } else if a < i < b {
        assert Le(s, key, a, b - 1);
      } else if b == i {
        assert a < i - 1 ==> Le(s, key, a, i - 1);
      }
    }
  }

  /** Insertion of one element into a sequence sorted by key. */
  method Insert<T>(s: seq<T>, key: T -> int, x: T) returns (r: seq<T>)
    requires Sorted(s, key)
    ensures Sorted(r, key) && multiset(r) == multiset(s) + multiset{x}
  {
    var i := |s|;
    while i > 0 && key(s[i-1]) > key(x)
      invariant 0 <= i <= |s|
      invariant forall k | i <= k < |s| :: key(x) < key(s[k])
    {
      i := i - 1;
    }
    r := s[..i] + [x] + s[i..];
    assert s == s[..i] + s[i..];
    InsertedSorted(s, key, x, i);
  }

  ghost predicate Le<T>(s: seq<T>, key: T -> int, i: nat, j: nat)
    requires i < |s| && j < |s|
  {
    key(s[i]) <= key(s[j])
  }

  ghost predicate Sorted<T>(s: seq<T>, key: T -> int) {
    forall i, j {:trigger Le(s, key, i, j)} | 0 <= i < j < |s| :: Le(s, key, i, j)
  }

  /** sort.Sort, as far as its outcome goes. */
  method Sort<T>(s: seq<T>, key: T -> int) returns (r: seq<T>)
    ensures Sorted(r, key) && multiset(r) == multiset(s)
  {
    r := [];
    for i := 0 to |s|
      invariant Sorted(r, key) && multiset(r) == multiset(s[..i])
    {
      assert s[..i+1] == s[..i] + [s[i]];
      r := Insert(r, key, s[i]);
    }
    assert s[..|s|] == s;
  }

  ghost function TxSet(m: Txs): (r: set<Tx>) {
    set n | n in m :: m[n]
  }

  lemma TwiceCounts<T>(r: seq<T>, i: nat, j: nat)
    requires i < j < |r| && r[i] == r[j]
    ensures multiset(r)[r[i]] >= 2
  {
    assert r == r[..j] + [r[j]] + r[j+1..];
    assert r[i] in r[..j];
  }

  /** Sorting the transactions of a map by nonce gives its ascending listing. */
  lemma SortedLists(r: seq<Tx>, m: Txs)
    requires ByNonce(m) && Sorted(r, TxKey) && multiset(r) == multiset(TxSet(m))
    ensures Lists(r, m) && Ascending(r)
  {
    forall i | 0 <= i < |r|
      ensures r[i].nonce in m && m[r[i].nonce] == r[i]
    {
      assert r[i] in multiset(r);
    }
    forall n | n in m
      ensures m[n] in r
    {
      assert m[n] in multiset(r);
    }
    forall i, j | 0 <= i < j < |r|
      ensures Precedes(r, i, j)
    {
      assert Le(r, TxKey, i, j);
      if r[i].nonce == r[j].nonce {
        TwiceCounts(r, i, j);
      }
    }
    ListingSize(r, m);
  }

  /** Taking the least transaction of those from `bound` on moves the bound past it. */
  lemma BoundStep(m: Txs, bound: nat, n: nat)
    requires IsLeast(From(m, bound), n)
    ensures From(m, n + 1) == From(m, bound) - {n}
    ensures Before(m, n + 1) == Before(m, bound)[n := m[n]]
    ensures n !in Before(m, bound) && forall k | k in Before(m, bound) :: k < n
  {
    assert forall k | k in m :: k in From(m, bound) <==> k >= bound;
  }

  lemma TakeStep(m: Txs, bound: nat, removed: seq<Tx>, tx: Tx)
    requires IsLeast(From(m, bound), tx.nonce) && tx == From(m, bound)[tx.nonce]
    requires Lists(removed, Before(m, bound)) && Ascending(removed)
    ensures From(m, tx.nonce + 1) == From(m, bound) - {tx.nonce} && bound <= tx.nonce
    ensures Lists(removed + [tx], Before(m, tx.nonce + 1)) && Ascending(removed + [tx])
  {
    BoundStep(m, bound, tx.nonce);
    ListsAppend(removed, Before(m, bound), tx);
  }

  lemma NothingTaken(m: Txs)
    ensures From(m, 0) == m && Lists([], Before(m, 0)) && Ascending([])
  {
    assert Before(m, 0) == map[];
  }

  /** Where no nonce is left below the threshold, the bound has reached it. */
  lemma BoundReached(index: seq<nat>, m: Txs, bound: nat, t: nat)
    requires bound <= t && IndexOk(index, From(m, bound)) && (|index| > 0 ==> index[0] >= t)
    ensures From(m, bound) == From(m, t) && Before(m, bound) == Before(m, t)
  {
    IndexMembers(index, From(m, bound));
    if |index| > 0 {
      FirstLeast(index, From(m, bound));
    }
    assert forall k | k in m :: k in From(m, bound) <==> k >= bound;
  }

  ghost function Visited(m: Txs, todo: set<nat>, p: Tx -> bool): (r: Txs) {
    map n | n in m && n !in todo && p(m[n]) :: m[n]
  }

  lemma VisitedOne(m: Txs, todo: set<nat>, n: nat)
    requires ByNonce(m) && todo <= m.Keys && n in todo
    ensures multiset(TxSet(m - (todo - {n}))) == multiset(TxSet(m - todo)) + multiset{m[n]}
  {
    var a, b := m - todo, m - (todo - {n});
    forall tx
      ensures tx in TxSet(b) <==> tx in TxSet(a) + {m[n]}
    {
      if tx in TxSet(b) {
        var k :| k in b && b[k] == tx;
        assert k != n ==> k in a;
      }
      if tx in TxSet(a) {
        var k :| k in a && a[k] == tx;
        assert k in b && b[k] == tx;
      }
      assert n in b && b[n] == m[n];
    }
    assert TxSet(b) == TxSet(a) + {m[n]};
  }

  /** The index lists the nonces by rank. */
  ghost predicate Ranked(index: seq<nat>, m: Txs) {
    && |index| == |m|
    && (forall i {:trigger index[i]} | 0 <= i < |index| :: index[i] in m && Rank(m, index[i]) == i)
    && (forall n | n in m :: n in index)
  }

  /** The sorted index lists the nonces by rank. */
  lemma SortedIndex(index: seq<nat>, m: Txs)
    requires ByNonce(m) && Sorted(index, NonceKey) && multiset(index) == multiset(m.Keys)
    ensures Ranked(index, m)
  {
    IndexMembers(index, m);
    var s := seq(|index|, i requires 0 <= i < |index| => m[index[i]]);
    forall i, j | 0 <= i < j < |s|
      ensures Precedes(s, i, j)
    {
      assert Le(index, NonceKey, i, j);
      if index[i] == index[j] {
        TwiceCounts(index, i, j);
      }
    }
    forall n | n in m
      ensures m[n] in s
    {
      var i :| 0 <= i < |index| && index[i] == n;
      assert s[i] == m[n];
    }
    forall i | 0 <= i < |index|
      ensures Rank(m, index[i]) == i
    {
      RankIsPosition(s, m, i);
    }
  }

  lemma CapStep(index: seq<nat>, m: Txs, size: nat)
    requires Ranked(index, m) && 0 < size <= |m|
    ensures |index| == |m| && index[size-1] in Capped(m, size)
    ensures Capped(m, size) - {index[size-1]} == Capped(m, size - 1)
    ensures Without(m, Capped(m, size))[index[size-1] := Capped(m, size)[index[size-1]]]
         == Without(m, Capped(m, size - 1))
  {
    var last := index[size-1];
    forall n | n in m && Rank(m, n) == size - 1
      ensures n == last
    {
      var i :| 0 <= i < |index| && index[i] == n;
    }
  }

  lemma CappedIndex(index: seq<nat>, m: Txs, k: nat)
    requires Ranked(index, m) && k <= |m|
    ensures |index| == |m| && multiset(index[..k]) == multiset(Capped(m, k).Keys)
  {
    forall n: nat
      ensures n in index[..k] <==> n in Capped(m, k).Keys
    {
      if n in Capped(m, k) {
        var i :| 0 <= i < |index| && index[i] == n;
        assert index[..k][i] == n;
      }
    }
    forall i, j | 0 <= i < j < k
      ensures index[..k][i] != index[..k][j]
    {
      assert Rank(m, index[i]) == i && Rank(m, index[j]) == j;
    }
    DistinctCounts(index[..k], Capped(m, k).Keys);
  }

  lemma CappedOk(index: seq<nat>, m: Txs, k: nat)
    requires ByNonce(m) && Heaps.IsHeap(index, NonceKey) && multiset(index) == multiset(Capped(m, k).Keys)
    ensures ByNonce(Capped(m, k)) && IndexOk(index, Capped(m, k))
  {
  }

  lemma {:induction false} DistinctCounts(s: seq<nat>, k: set<nat>)
    requires forall i, j | 0 <= i < j < |s| :: s[i] != s[j]
    requires forall n: nat :: n in s <==> n in k
    ensures multiset(s) == multiset(k)
    decreases |s|
  {
    if s == [] {
      assert k == {};
    } else {
      var last := |s| - 1;
      var rest := s[..last];
      assert s == rest + [s[last]];
      forall n: nat
        ensures n in rest <==> n in k - {s[last]}
      {
        if n in k && n != s[last] {
          assert n in s;
        }
      }
      DistinctCounts(rest, k - {s[last]});
    }
  }

  /** What Ready takes: the nonces up to the first gap, if the least is not past `start`. */
  function ReadyTxs(m: Txs, start: nat): (r: Txs)
  {
    if exists low :: low in m && low <= start then
      map n | n in m && (forall k | k in m && k <= n :: Stretch(m, k, n)) :: m[n]
    else
      map[]
  }

  /** That is the maximal consecutive run from the least nonce. */
  lemma ReadyRun(m: Txs, low: nat, start: nat)
    requires IsLeast(m, low)
    ensures ReadyTxs(m, start) == if low <= start then RunFrom(m, low) else map[]
  {
    forall n | n in m && Stretch(m, low, n)
      ensures forall k | k in m && k <= n :: Stretch(m, k, n)
    {
    }
  }

  lemma NothingReady(index: seq<nat>, m: Txs, start: nat)
    requires IndexOk(index, m) && (|index| > 0 ==> index[0] > start)
    ensures ReadyTxs(m, start) == map[] && Without(m, ReadyTxs(m, start)) == m
    ensures Lists([], ReadyTxs(m, start)) && Ascending([])
  {
    IndexMembers(index, m);
    if |index| > 0 {
      FirstLeast(index, m);
    }
  }

  ghost predicate Taken(m: Txs, low: nat, bound: nat) {
    IsLeast(m, low) && forall k: nat | low <= k < bound :: k in m
  }

  lemma LeastBounds(m: Txs, low: nat)
    requires ByNonce(m) && IsLeast(m, low)
    ensures low < TWO_64 && Wrap(low) == low
    ensures From(m, low) == m && Lists([], Before(m, low)) && Ascending([]) && Taken(m, low, low)
  {
    assert m[low].nonce == low;
    assert Before(m, low) == map[];
  }

  /** After taking the nonces from the least one up to `bound`. */
  ghost predicate RunSoFar(m: Txs, low: nat, bound: nat, next: nat, items: Txs, ready: seq<Tx>) {
    && ByNonce(m) && Taken(m, low, bound) && low <= bound <= TWO_64 && next == Wrap(bound)
    && items == From(m, bound) && Lists(ready, Before(m, bound)) && Ascending(ready)
  }

  lemma RunStarts(index: seq<nat>, m: Txs)
    requires ByNonce(m) && IndexOk(index, m) && |index| > 0
    ensures RunSoFar(m, index[0], index[0], index[0], m, [])
  {
    FirstLeast(index, m);
    LeastBounds(m, index[0]);
  }

  lemma RunStep(m: Txs, low: nat, bound: nat, next: nat, items: Txs, ready: seq<Tx>, tx: Tx)
    requires RunSoFar(m, low, bound, next, items, ready)
    requires IsLeast(items, tx.nonce) && tx == items[tx.nonce] && tx.nonce == next
    ensures RunSoFar(m, low, bound + 1, Wrap(next + 1), items - {tx.nonce}, ready + [tx])
  {
    TakeStep(m, bound, ready, tx);
    assert m[next].nonce == next;
    hide Lists, Ascending;
  }

  /** Where the heap has no more of the run, the run is maximal. */
  lemma RunEnds(index: seq<nat>, m: Txs, low: nat, bound: nat, next: nat, items: Txs, ready: seq<Tx>, start: nat)
    requires RunSoFar(m, low, bound, next, items, ready) && low < bound && low <= start
    requires IndexOk(index, items) && (|index| > 0 ==> index[0] != next)
    ensures Lists(ready, ReadyTxs(m, start)) && Ascending(ready) && items == Without(m, ReadyTxs(m, start))
  {
    hide Lists, Ascending;
    ReadyRun(m, low, start);
    IndexMembers(index, items);
    if |index| > 0 {
      FirstLeast(index, items);
      assert m[index[0]].nonce == index[0];
    }
    assert bound in m ==> bound < TWO_64 && bound in From(m, bound);
    assert Before(m, bound) == RunFrom(m, low);
    assert Without(m, RunFrom(m, low)) == From(m, bound);
  }

  /** The ascending listing of a map. */
  method FlattenTxs(m: Txs) returns (txs: seq<Tx>)
    requires ByNonce(m)
    ensures Lists(txs, m) && Ascending(txs)
  {
    txs := [];
    var todo := m.Keys;
    while todo != {}
      invariant todo <= m.Keys && multiset(txs) == multiset(TxSet(m - todo))
      decreases todo
    {
      var nonce :| nonce in todo;
      VisitedOne(m, todo, nonce);
      txs := txs + [m[nonce]];
      todo := todo - {nonce};
    }
    assert m - todo == m;
    txs := Sort(txs, TxKey);
    SortedLists(txs, m);
  }

  method Locate(index: seq<nat>, nonce: nat) returns (i: nat)
    requires nonce in index
    ensures i < |index| && index[i] == nonce
  {
    i := 0;
    while index[i] != nonce
      invariant i < |index| && forall k | 0 <= k < i :: index[k] != nonce
      decreases |index| - i
    {
      i := i + 1;
    }
  }

  class TxSortedMap {
    var items: Txs
    var index: seq<nat>
    var cache: Option<seq<Tx>>

    /** The heap holds exactly the map's nonces, and a cache is the sorted contents. */
    ghost predicate Valid()
      reads this
    {
      && ByNonce(items)
      && IndexOk(index, items)
      && (cache.Some? ==> Lists(cache.value, items) && Ascending(cache.value))
    }

    constructor ()
      ensures Valid() && items == map[]
    {
      items, index, cache := map[], [], None;
    }

    method Get(nonce: nat) returns (tx: Option<Tx>)
      requires Valid()
      ensures tx == if nonce in items then Some(items[nonce]) else None
    {
      tx := if nonce in items then Some(items[nonce]) else None;
    }

    method Put(tx: Tx)
      requires Valid()
      modifies this
      ensures Valid() && items == old(items)[tx.nonce := tx]
    {
      KeysWith(items, tx.nonce, tx);
      if tx.nonce !in items {
        index := Heaps.Push(index, NonceKey, tx.nonce);
      }
      items, cache := items[tx.nonce := tx], None;
    }

    /** Takes the least nonce off the heap, and its transaction off the map. */
    method PopLeast() returns (tx: Tx)
      requires ByNonce(items) && IndexOk(index, items) && |index| > 0
      modifies `items, `index
      ensures ByNonce(items) && IndexOk(index, items)
      ensures IsLeast(old(items), tx.nonce) && tx.nonce in old(items) && tx == old(items)[tx.nonce]
      ensures tx.nonce == old(index)[0]
      ensures items == old(items) - {tx.nonce} && |index| == old(|index|) - 1
    {
      FirstLeast(index, items);
      KeysWithout(items, index[0]);
      IndexMembers(index, items);
      var nonce := index[0];
      tx := items[nonce];
      index := Heaps.Remove(index, NonceKey, 0);
      items := items - {nonce};
      IndexMembers(index, items);
    }

    /** Pops nonces off the heap until the threshold is reached. */
    method PopBelow(threshold: nat) returns (removed: seq<Tx>)
      requires ByNonce(items) && IndexOk(index, items)
      modifies `items, `index
      ensures ByNonce(items) && IndexOk(index, items) && items == From(old(items), threshold)
      ensures Lists(removed, Before(old(items), threshold)) && Ascending(removed)
    {
      hide *;
      removed := [];
      ghost var m, bound: nat := items, 0;
      NothingTaken(m);
      while |index| > 0 && index[0] < threshold
        invariant ByNonce(items) && IndexOk(index, items)
        invariant bound <= threshold && items == From(m, bound)
        invariant Lists(removed, Before(m, bound)) && Ascending(removed)
        decreases |index|
      {
        var tx := PopLeast();
        TakeStep(m, bound, removed, tx);
        removed := removed + [tx];
        bound := tx.nonce + 1;
      }
      BoundReached(index, m, bound, threshold);
    }

    method Forward(threshold: nat) returns (removed: seq<Tx>)
      requires Valid()
      modifies this
      ensures Valid() && items == From(old(items), threshold)
      ensures Lists(removed, Before(old(items), threshold)) && Ascending(removed)
    {
      removed := PopBelow(threshold);
      if cache.Some? {
        ListingSplit(cache.value, old(items), threshold);
        cache := Some(cache.value[|removed|..]);
      }
    }

    /** Deletes what the filter selects, and leaves the heap as it was. */
    method FilterItems(p: Tx -> bool) returns (removed: Txs)
      modifies `items, `cache
      ensures removed == Matching(old(items), p) && items == Without(old(items), removed)
      ensures cache == if removed == map[] then old(cache) else None
    {
      removed := map[];
      var todo := items.Keys;
      while todo != {}
        invariant todo <= old(items.Keys) && cache == old(cache)
        invariant removed == Visited(old(items), todo, p) && items == Without(old(items), removed)
        decreases todo
      {
        var nonce :| nonce in todo;
        if p(items[nonce]) {
          removed := removed[nonce := items[nonce]];
          items := items - {nonce};
        }
        todo := todo - {nonce};
      }
      if removed != map[] {
        cache := None;
      }
    }

    /** Rebuilds the heap from the map. */
    method Reheap()
      requires ByNonce(items)
      modifies `index, `cache
      ensures Valid() && cache == None
    {
      var nonces: seq<nat> := [];
      var todo := items.Keys;
      while todo != {}
        invariant todo <= items.Keys && multiset(nonces) + multiset(todo) == multiset(items.Keys)
        decreases todo
      {
        var nonce :| nonce in todo;
        nonces := nonces + [nonce];
        todo := todo - {nonce};
      }
      index := Heaps.Init(nonces, NonceKey);
      cache := None;
    }

    method Filter(p: Tx -> bool) returns (removed: Txs)
      requires Valid()
      modifies this
      ensures Valid() && removed == Matching(old(items), p) && items == Without(old(items), removed)
    {
      removed := FilterItems(p);
      if removed != map[] {
        Reheap();
      } else {
        assert items == old(items);
      }
    }

    /** Sorts the index and drops transactions from its end. */
    method DropHighest(threshold: nat) returns (drops: Txs)
      requires ByNonce(items) && IndexOk(index, items) && threshold < |items|
      modifies `items, `index
      ensures ByNonce(items) && IndexOk(index, items)
      ensures items == Capped(old(items), threshold) && drops == Without(old(items), items)
    {
      ghost var m := items;
      index := Sort(index, NonceKey);
      SortedIndex(index, m);
      CappedAll(m, |m|);
      drops := map[];
      assert drops == Without(m, m);
      hide *;
      var size := |items|;
      while size > threshold
        invariant threshold <= size <= |m| && Ranked(index, m)
        invariant items == Capped(m, size) && drops == Without(m, items)
      {
        CapStep(index, m, size);
        drops := drops[index[size-1] := items[index[size-1]]];
        items := items - {index[size-1]};
        size := size - 1;
      }
      CappedIndex(index, m, threshold);
      index := Heaps.Init(index[..threshold], NonceKey);
      CappedOk(index, m, threshold);
    }

    method Cap(threshold: nat) returns (drops: Txs)
      requires Valid()
      modifies this
      ensures Valid() && items == Capped(old(items), threshold) && drops == Without(old(items), items)
    {
      if |items| <= threshold {
        CappedAll(items, threshold);
        return map[];
      }
      drops := DropHighest(threshold);
      if cache.Some? {
        ListingCap(cache.value, old(items), threshold);
        WithoutSize(old(items), items);
        cache := Some(cache.value[..|cache.value| - |drops|]);
      }
    }

    method Remove(nonce: nat) returns (found: bool)
      requires Valid()
      modifies this
      ensures Valid() && items == old(items) - {nonce} && found == (nonce in old(items))
    {
      found := nonce in items;
      if !found {
        assert items == items - {nonce};
        return;
      }
      IndexMembers(index, items);
      KeysWithout(items, nonce);
      var i := Locate(index, nonce);
      index := Heaps.Remove(index, NonceKey, i);
      items, cache := items - {nonce}, None;
    }

    /** Pops the consecutive run at the front of the heap. */
    method PopRun(ghost start: nat) returns (ready: seq<Tx>)
      requires ByNonce(items) && IndexOk(index, items) && |index| > 0 && index[0] <= start
      modifies `items, `index
      ensures ByNonce(items) && IndexOk(index, items)
      ensures Lists(ready, ReadyTxs(old(items), start)) && Ascending(ready)
      ensures items == Without(old(items), ReadyTxs(old(items), start))
    {
      hide *;
      ready := [];
      var next := index[0];
      ghost var m, low, bound := items, next, next;
      RunStarts(index, m);
      while |index| > 0 && index[0] == next
        invariant ByNonce(items) && IndexOk(index, items) && RunSoFar(m, low, bound, next, items, ready)
        invariant low <= bound && (bound == low ==> |index| > 0 && index[0] == next)
        decreases |index|
      {
        ghost var before := items;
        var tx := PopLeast();
        RunStep(m, low, bound, next, before, ready, tx);
        ready := ready + [tx];
        bound := bound + 1;
        next := Wrap(next + 1);
      }
      RunEnds(index, m, low, bound, next, items, ready, start);
    }

    /** Takes the consecutive run that starts at the least nonce, if that nonce is not past `start`. */
    method Ready(start: nat) returns (ready: seq<Tx>)
      requires Valid()
      modifies this
      ensures Valid() && Lists(ready, ReadyTxs(old(items), start)) && Ascending(ready)
      ensures items == Without(old(items), ReadyTxs(old(items), start))
    {
      if |index| == 0 || index[0] > start {
        NothingReady(index, items, start);
        return [];
      }
      ready := PopRun(start);
      cache := None;
    }

    method Flatten() returns (txs: seq<Tx>)
      requires Valid()
      modifies `cache
      ensures Valid() && Lists(txs, items) && Ascending(txs)
    {
      if cache.None? {
        txs := FlattenTxs(items);
        cache := Some(txs);
      }
      txs := cache.value;
    }

    /** The transaction with the highest nonce; an empty map would index out of bounds. */
    method LastElement() returns (tx: Tx)
      requires Valid() && items != map[]
      modifies `cache
      ensures Valid() && tx.nonce in items && items[tx.nonce] == tx && forall n | n in items :: n <= tx.nonce
    {
      var txs := Flatten();
      tx := txs[|txs| - 1];
      forall n | n in items
        ensures n <= tx.nonce
      {
        var i := Position(txs, items, n);
        assert i < |txs| - 1 ==> Precedes(txs, i, |txs| - 1);
      }
    }
  }
}
