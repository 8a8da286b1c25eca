/** core/tx_list.go: the per-account list. Its contents obey plain functions of nonce-to-transaction
    maps, whatever its cached cost and gas caps are; a gapless strict list stays gapless. */
module TxLists {
  import opened Common
  import opened Transactions
  import opened SortedMaps

  /** The transactions that the limits do not cover. */
  function Unpayable(m: Txs, costLimit: int, gasLimit: nat): (r: Txs) {
    map n | n in m && (m[n].gas > gasLimit || m[n].cost > costLimit) :: m[n]
  }

  /** The transactions left over that follow one of `r`. */
  function Following(m: Txs, r: Txs): (d: Txs) {
    map n | n in m && n !in r && (exists k :: k in r && k < n) :: m[n]
  }

  /** What a strict list keeps of `m` when `r` goes: nothing at or after a nonce of `r`. */
  function Leading(m: Txs, r: Txs): (d: Txs) {
    map n | n in m && (forall k | k in r :: n < k) :: m[n]
  }

  /** Every nonce between two of the list's is in the list. */
  ghost predicate Gapless(m: Txs) {
    forall i, j {:trigger Stretch(m, i, j)} | i in m && j in m && i <= j :: Stretch(m, i, j)
  }

  ghost predicate PartOf(r: Txs, m: Txs) {
    forall n | n in r :: n in m && r[n] == m[n]
  }

  ghost predicate Bounded(m: Txs, costcap: int, gascap: nat) {
    forall n | n in m :: m[n].cost <= costcap && m[n].gas <= gascap
  }

  /** Filter's short circuit: where the caps are within the limits a scan finds nothing. */
  lemma ShortCircuit(m: Txs, costcap: int, gascap: nat, costLimit: int, gasLimit: nat)
    requires Bounded(m, costcap, gascap) && costcap <= costLimit && gascap <= gasLimit
    ensures Unpayable(m, costLimit, gasLimit) == map[]
  {
  }

  lemma FilterBounds(m: Txs, costLimit: int, gasLimit: nat)
    ensures Matching(m, (tx: Tx) => tx.gas > gasLimit || tx.cost > costLimit) == Unpayable(m, costLimit, gasLimit)
    ensures Bounded(Without(m, Unpayable(m, costLimit, gasLimit)), costLimit, gasLimit)
    ensures Bounded(Leading(m, Unpayable(m, costLimit, gasLimit)), costLimit, gasLimit)
    ensures ByNonce(m) ==>
      ByNonce(Unpayable(m, costLimit, gasLimit)) && ByNonce(Leading(m, Unpayable(m, costLimit, gasLimit)))
    ensures Leading(m, map[]) == m && Following(m, map[]) == map[]
  {
  }

  lemma TwoParts(m: Txs, r: Txs)
    requires PartOf(r, m)
    ensures m == r + Without(m, r) && r.Keys !! Without(m, r).Keys
  {
  }

  /** Removed, invalidated and kept transactions are the old list, each in one part. */
  lemma StrictParts(m: Txs, r: Txs)
    requires PartOf(r, m)
    ensures m == r + (Following(m, r) + Leading(m, r))
    ensures r.Keys !! Following(m, r).Keys !! Leading(m, r).Keys
  {
    LeadingIsWithout(m, r);
    TwoParts(m, r);
    TwoParts(Without(m, r), Following(m, r));
    hide *;
  }

  /** What a strict list keeps is a prefix, without a gap if there was none. */
  lemma LeadingGapless(m: Txs, r: Txs)
    ensures forall n, k | n in Leading(m, r) && k in m && k <= n :: k in Leading(m, r)
    ensures Gapless(m) ==> Gapless(Leading(m, r))
  {
    var kept := Leading(m, r);
    if Gapless(m) {
      forall i, j | i in kept && j in kept && i <= j
        ensures Stretch(kept, i, j)
      {
        assert Stretch(m, i, j);
        assert forall k: nat | i <= k <= j :: k in m && k in kept;
      }
    }
  }

  /** So is what Forward, Cap and a strict Remove leave. */
  lemma PartsGapless(m: Txs, n: nat)
    requires Gapless(m)
    ensures Gapless(From(m, n)) && Gapless(Before(m, n)) && Gapless(Capped(m, n))
  {
    forall i, j | i in m && j in m && i <= j
      ensures i in From(m, n) ==> Stretch(From(m, n), i, j)
      ensures j in Before(m, n) ==> Stretch(Before(m, n), i, j)
    {
      assert Stretch(m, i, j);
    }
    CappedGapless(m, n);
    hide Capped;
  }

  lemma CappedGapless(m: Txs, k: nat)
    requires Gapless(m)
    ensures Gapless(Capped(m, k))
  {
    var c := Capped(m, k);
    forall i, j | i in c && j in c && i <= j
      ensures Stretch(c, i, j)
    {
      assert Stretch(m, i, j);
      forall n: nat | i <= n <= j
        ensures n in c
      {
        if n < j {
          RankOrder(m, n, j);
        }
      }
    }
  }

  lemma LeadingIsWithout(m: Txs, r: Txs)
    ensures Leading(m, r) == Without(Without(m, r), Following(m, r))
  {
    forall n | n in m && n !in r && n !in Following(m, r)
      ensures n in Leading(m, r)
    {
    }
  }

  /** Following a nonce of `r` is following its lowest one. */
  lemma FollowingLowest(m: Txs, r: Txs, lowest: nat)
    requires ByNonce(m) && IsLeast(r, lowest)
    ensures Following(m, r) == Matching(Without(m, r), (tx: Tx) => tx.nonce > lowest)
  {
  }

  lemma RemoveParts(m: Txs, n: nat)
    requires ByNonce(m)
    ensures Matching(m - {n}, (t: Tx) => t.nonce > n) == From(m, n + 1)
    ensures n in m ==> Without(m - {n}, From(m, n + 1)) == Before(m, n)
  {
  }

  /** 100 plus the price bump, as a signed 64-bit sum. */
  function Percent(priceBump: Uint64): (r: int) {
    var sum := (100 + priceBump) % TWO_64;
    if sum >= TWO_64 / 2 then sum - TWO_64 else sum
  }

  /** Whether a transaction is priced high enough to take the place of another. */
  predicate Outbids(tx: Tx, was: Tx, priceBump: Uint64) {
    tx.price > was.price && tx.price >= was.price * Percent(priceBump) / 100
  }

  /** It is priced higher, and by the bump's percentage up to one unit. */
  lemma OutbidsBy(tx: Tx, was: Tx, priceBump: Uint64)
    requires priceBump < TWO_64 / 2 - 100
    ensures Outbids(tx, was, priceBump)
       <==> tx.price > was.price && 100 * (tx.price - was.price + 1) > was.price * priceBump
  {
    var t := was.price * (100 + priceBump);
    assert t == 100 * was.price + was.price * priceBump;
    assert tx.price >= t / 100 <==> 100 * (tx.price + 1) > t;
  }

  method LowestNonce(r: Txs) returns (lowest: nat)
    requires ByNonce(r) && r != map[]
    ensures IsLeast(r, lowest)
  {
    lowest := TWO_64 - 1;
    var todo := r.Keys;
    while todo != {}
      invariant todo <= r.Keys && (todo == {} ==> lowest in r)
      invariant lowest == TWO_64 - 1 || lowest in r
      invariant forall k | k in r && k !in todo :: lowest <= k
      decreases todo
    {
      var n :| n in todo;
      assert r[n].nonce == n;
      if lowest > r[n].nonce {
        lowest := r[n].nonce;
      }
      todo := todo - {n};
    }
  }

  class TxList {
    const strict: bool
    const txs: TxSortedMap
    var costcap: int
    var gascap: nat

    ghost predicate Valid()
      reads this, txs
    {
      txs.Valid() && Bounded(txs.items, costcap, gascap)
    }

    constructor (strict: bool)
      ensures Valid() && this.strict == strict && txs.items == map[] && fresh(txs)
    {
      this.strict, costcap, gascap := strict, 0, 0;
      txs := new TxSortedMap();
    }

    method Overlaps(tx: Tx) returns (r: bool)
      requires Valid()
      ensures r == (tx.nonce in txs.items)
    {
      var present := txs.Get(tx.nonce);
      r := present != None;
    }

    method Add(tx: Tx, priceBump: Uint64) returns (added: bool, replaced: Option<Tx>)
      requires Valid()
      modifies this, txs
      ensures Valid()
      ensures added == (tx.nonce in old(txs.items) ==> Outbids(tx, old(txs.items)[tx.nonce], priceBump))
      ensures txs.items == if added then old(txs.items)[tx.nonce := tx] else old(txs.items)
      ensures replaced == if added && tx.nonce in old(txs.items) then Some(old(txs.items)[tx.nonce]) else None
    {
      replaced := txs.Get(tx.nonce);
      if replaced.Some? {
        var threshold := replaced.value.price * Percent(priceBump) / 100;
        if replaced.value.price >= tx.price || tx.price < threshold {
          return false, None;
        }
      }
      txs.Put(tx);
      if costcap < tx.cost {
        costcap := tx.cost;
      }
      if gascap < tx.gas {
        gascap := tx.gas;
      }
      added := true;
    }

    method Forward(threshold: nat) returns (removed: seq<Tx>)
      requires Valid()
      modifies txs
      ensures Valid() && txs.items == From(old(txs.items), threshold)
      ensures Lists(removed, Before(old(txs.items), threshold)) && Ascending(removed)
    {
      removed := txs.Forward(threshold);
    }

    /** The cached caps decide whether to scan, and the outcome is that of a scan either way. */
    method Filter(costLimit: int, gasLimit: nat) returns (removed: Txs, invalids: Txs)
      requires Valid()
      modifies this, txs
      ensures Valid() && removed == Unpayable(old(txs.items), costLimit, gasLimit)
      ensures invalids == if strict then Following(old(txs.items), removed) else map[]
      ensures txs.items == if strict then Leading(old(txs.items), removed) else Without(old(txs.items), removed)
    {
      ghost var m := txs.items;
      if costcap <= costLimit && gascap <= gasLimit {
        ShortCircuit(m, costcap, gascap, costLimit, gasLimit);
        return map[], map[];
      }
      FilterBounds(m, costLimit, gasLimit);
      hide Unpayable, Leading, Following, Matching, Bounded;
      costcap, gascap := costLimit, gasLimit;
      removed := txs.Filter((tx: Tx) => tx.gas > gasLimit || tx.cost > costLimit);
      invalids := map[];
      if removed == map[] {
        return;
      }
      if strict {
        var lowest := LowestNonce(removed);
        FollowingLowest(m, removed, lowest);
        LeadingIsWithout(m, removed);
        invalids := txs.FilterItems((tx: Tx) => tx.nonce > lowest);
      }
      txs.Reheap();
    }

    method Cap(threshold: nat) returns (drops: Txs)
      requires Valid()
      modifies txs
      ensures Valid() && txs.items == Capped(old(txs.items), threshold) && drops == Without(old(txs.items), txs.items)
    {
      drops := txs.Cap(threshold);
    }

    /** Removes whatever has the transaction's nonce; from a strict list, also all that follows it. */
    method Remove(tx: Tx) returns (found: bool, invalids: Txs)
      requires Valid()
      modifies txs
      ensures Valid() && found == (tx.nonce in old(txs.items))
      ensures invalids == if found && strict then From(old(txs.items), tx.nonce + 1) else map[]
      ensures txs.items == if found && strict then Before(old(txs.items), tx.nonce) else old(txs.items) - {tx.nonce}
    {
      invalids := map[];
      RemoveParts(txs.items, tx.nonce);
      found := txs.Remove(tx.nonce);
      if found && strict {
        var nonce: nat := tx.nonce;
        invalids := txs.Filter((t: Tx) => t.nonce > nonce);
      }
    }

    method Ready(start: nat) returns (ready: seq<Tx>)
      requires Valid()
      modifies txs
      ensures Valid() && Lists(ready, ReadyTxs(old(txs.items), start)) && Ascending(ready)
      ensures txs.items == Without(old(txs.items), ReadyTxs(old(txs.items), start))
    {
      ready := txs.Ready(start);
    }

    method LastElement() returns (tx: Tx)
      requires Valid() && txs.items != map[]
      modifies txs
      ensures Valid() && txs.items == old(txs.items)
      ensures tx.nonce in txs.items && txs.items[tx.nonce] == tx && forall n | n in txs.items :: n <= tx.nonce
    {
      tx := txs.LastElement();
    }
  }
}
