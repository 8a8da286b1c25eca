/** core/evm.go: the function that answers the EVM's queries for the hashes of earlier blocks,
    with a cache of ancestors that grows as far back as it has been asked. */
module HashLookups {
  import opened BlockTree
  import opened Common

  /** The naive answer: walk from parent to parent, reading each header from the store. */
  function NaiveHash(b: Block, n: nat, stored: set<Block>): (r: Option<Block>)
    requires n < Number(b)
  {
    if n == Number(b) - 1 then Some(b.parent)
    else if b.parent in stored then NaiveHash(b.parent, n, stored)
    else None
  }

  /** Where all headers are stored the naive answer is the ancestor itself. */
  lemma {:induction false} NaiveIsAncestor(b: Block, n: nat, stored: set<Block>)
    requires n < Number(b) && Closed(stored) && b.parent in stored
    ensures NaiveHash(b, n, stored) == Some(AncestorAt(b, n))
  {
    if n < Number(b) - 1 {
      NaiveIsAncestor(b.parent, n, stored);
    }
  }

  /** The naive walk gets past the ancestors at numbers `from` and above if they are stored. */
  ghost predicate StoredDownTo(b: Block, from: nat, stored: set<Block>) {
    forall m: nat {:trigger AncestorAt(b, m)} | from <= m < Number(b) :: AncestorAt(b, m) in stored
  }

  lemma {:induction false} NaiveSkips(b: Block, m: nat, n: nat, stored: set<Block>)
    requires n < m <= Number(b) && StoredDownTo(b, m, stored)
    ensures NaiveHash(b, n, stored) == NaiveHash(AncestorAt(b, m), n, stored)
  {
    if m < Number(b) {
      assert AncestorAt(b, Number(b) - 1) == b.parent;
      forall k: nat | m <= k < Number(b.parent)
        ensures AncestorAt(b.parent, k) in stored
      {
        assert AncestorAt(b, k) == AncestorAt(b.parent, k);
      }
      NaiveSkips(b.parent, m, n, stored);
    }
  }

  /** The hash `i + 1` steps back from `ref`; behind genesis it is empty. */
  ghost function HashBack(ref: Block, i: nat): (h: Option<Block>) {
    if i < Number(ref) then Some(AncestorAt(ref, Number(ref) - 1 - i)) else None
  }

  /** A query the cache reaches: the naive walk reaches it too. */
  lemma Reached(ref: Block, n: nat, len: nat, stored: set<Block>)
    requires n < Number(ref) && Number(ref) - n - 1 < len <= Number(ref) + 1
    requires StoredDownTo(ref, Number(ref) + 1 - len, stored)
    ensures NaiveHash(ref, n, stored) == HashBack(ref, Number(ref) - n - 1)
  {
    NaiveSkips(ref, n + 1, n, stored);
    AncestorTransitive(ref, n + 1, n);
  }

  /** A query beyond the cache, whose last header is not stored: the naive walk is stuck as well. */
  lemma Stuck(ref: Block, n: nat, len: nat, stored: set<Block>)
    requires 0 < len && n + len < Number(ref)
    requires StoredDownTo(ref, Number(ref) + 1 - len, stored) && AncestorAt(ref, Number(ref) - len) !in stored
    ensures NaiveHash(ref, n, stored) == None
  {
    NaiveSkips(ref, Number(ref) + 1 - len, n, stored);
    AncestorTransitive(ref, Number(ref) + 1 - len, Number(ref) - len);
  }

  /** Reading the header behind the cache's last hash gives the next hash back. */
  lemma Extended(ref: Block, len: nat, stored: set<Block>)
    requires 0 < len <= Number(ref)
    requires StoredDownTo(ref, Number(ref) + 1 - len, stored) && AncestorAt(ref, Number(ref) - len) in stored
    ensures StoredDownTo(ref, Number(ref) - len, stored)
    ensures ParentHash(AncestorAt(ref, Number(ref) - len)) == HashBack(ref, len)
  {
    if len < Number(ref) {
      AncestorTransitive(ref, Number(ref) - len, Number(ref) - len - 1);
    }
  }

  /** The last hash of a cache of `len`: its header's number, and the number before that. */
  lemma LastHeader(ref: Block, len: nat)
    requires 0 < len <= Number(ref) + 1 <= TWO_64
    ensures var hash := HashBack(ref, len - 1);
      && (hash.None? <==> len == Number(ref) + 1)
      && (hash.Some? ==>
          && hash.value == AncestorAt(ref, Number(ref) - len)
          && Number(hash.value) == Number(ref) - len == Sub64(Number(ref), len)
          && Sub64(Number(hash.value), 1) == Sub64(Number(ref), len + 1))
    ensures len < Number(ref) ==> Sub64(Number(ref), len + 1) == Number(ref) - len - 1
    ensures len == Number(ref) ==> Sub64(Number(ref), len + 1) == TWO_64 - 1 && HashBack(ref, len) == None
  {
  }

  class HashFn {
    const ref: Block
    const stored: set<Block>
    var cache: seq<Option<Block>>

    /** The cache holds the hashes from the parent back, possibly with the empty one behind genesis, and
        every header that another follows in the cache was read from the store. */
    ghost predicate Valid()
      reads this
    {
      && Number(ref) < TWO_64
      && |cache| <= Number(ref) + 1
      && (forall i {:trigger cache[i]} | 0 <= i < |cache| :: cache[i] == HashBack(ref, i))
      && (|cache| > 0 ==> StoredDownTo(ref, Number(ref) + 1 - |cache|, stored))
    }

    constructor (ref: Block, stored: set<Block>)
      requires Number(ref) < TWO_64
      ensures Valid() && this.ref == ref && this.stored == stored
    {
      this.ref, this.stored, cache := ref, stored, [];
    }

    function GetHeader(hash: Option<Block>, number: Uint64): (r: Option<Block>) {
      if hash.Some? && hash.value in stored && Number(hash.value) == number then hash else None
    }

    /** Every query, in whatever sequence, is answered as the naive walk would: an earlier block's
        hash if the store lets the walk reach it, and the empty hash for anything not earlier. */
    method Get(n: Uint64) returns (hash: Option<Block>)
      requires Valid()
      modifies this
      ensures Valid()
      ensures hash == if n < Number(ref) then NaiveHash(ref, n, stored) else None
    {
      if |cache| == 0 {
        cache := [ParentHash(ref)];
      }
      var number := Number(ref);
      var idx := Sub64(number, n + 1);
      if idx < |cache| {
        if n < number {
          Reached(ref, n, |cache|, stored);
        }
        return cache[idx];
      }
      assert n < number ==> n + |cache| < number;
      hash := WalkOn(n);
    }

    /** The walk beyond the cache, which takes in every hash it passes. */
    method WalkOn(n: Uint64) returns (hash: Option<Block>)
      requires Valid() && |cache| > 0
      requires n < Number(ref) ==> n + |cache| < Number(ref)
      modifies this
      ensures Valid()
      ensures hash == if n < Number(ref) then NaiveHash(ref, n, stored) else None
    {
      hide AncestorAt, NaiveHash, StoredDownTo, HashBack, Number, ParentHash, Sub64;
      var number := Number(ref);
      var lastHash, lastNumber := cache[|cache| - 1], Sub64(number, |cache|);
      while true
        invariant Valid() && 0 < |cache| && lastHash == HashBack(ref, |cache| - 1)
        invariant lastNumber == Sub64(number, |cache|)
        invariant n < number ==> n + |cache| < number
        decreases number + 1 - |cache|
      {
        LastHeader(ref, |cache|);
        var header := GetHeader(lastHash, lastNumber);
        if header.None? {
          if n < number {
            Stuck(ref, n, |cache|, stored);
          }
          return None;
        }
        Extended(ref, |cache|, stored);
        cache := cache + [ParentHash(header.value)];
        lastHash := ParentHash(header.value);
        lastNumber := Sub64(Number(header.value), 1);
        if n == lastNumber {
          if n < number {
            Reached(ref, n, |cache|, stored);
          }
          return lastHash;
        }
      }
    }
  }
}
