/** Transactions as the pool sees them, and plain nonce-to-transaction maps: what the indexed and
    cached lists of core/tx_list.go are meant to behave like.

    Transaction hashes do not collide, so a hash stands for its transaction: looking one up by hash
    is membership, and comparing hashes is comparing transactions. */
module Transactions {
  import opened Common

  /** `id` stands for all of the content that the pool does not look at. The sender is what signature
      recovery yields. `cost` is value plus gas price times gas, `intrinsic` the gas charged before execution. */
  datatype Tx = Tx(id: nat, sender: Address, nonce: Uint64, price: nat, gas: Uint64, cost: nat, value: int,
                   size: Positive, intrinsic: nat)

  type Txs = map<nat, Tx>

  ghost predicate ByNonce(m: Txs) {
    forall n | n in m :: m[n].nonce == n
  }

  /** The transactions with a nonce below `t`, and those from `t` on. */
  function Before(m: Txs, t: nat): (r: Txs) {
    map n | n in m && n < t :: m[n]
  }

  function From(m: Txs, t: nat): (r: Txs) {
    map n | n in m && n >= t :: m[n]
  }

  /** How many nonces of `m` are lower. */
  function Rank(m: Txs, n: nat): (r: nat) {
    |set k | k in m && k < n|
  }

  /** The `k` transactions with the lowest nonces. */
  function Capped(m: Txs, k: nat): (r: Txs) {
    map n | n in m && Rank(m, n) < k :: m[n]
  }

  predicate Stretch(m: Txs, low: nat, high: nat) {
    forall k: nat | low <= k <= high :: k in m
  }

  /** The maximal run of consecutive nonces that starts at `low`. */
  function RunFrom(m: Txs, low: nat): (r: Txs) {
    map n | n in m && low <= n && Stretch(m, low, n) :: m[n]
  }

  ghost predicate IsLeast(m: Txs, n: nat) {
    n in m && forall k | k in m :: n <= k
  }

  function Matching(m: Txs, p: Tx -> bool): (r: Txs) {
    map n | n in m && p(m[n]) :: m[n]
  }

  function Without(m: Txs, r: Txs): (d: Txs) {
    map n | n in m && n !in r :: m[n]
  }

  /** `s` lists the transactions of `m`, each once. */
  ghost predicate Lists(s: seq<Tx>, m: Txs) {
    && |s| == |m|
    && (forall i {:trigger s[i]} | 0 <= i < |s| :: s[i].nonce in m && m[s[i].nonce] == s[i])
    && (forall n {:trigger n in m} | n in m :: m[n].nonce == n && m[n] in s)
  }

  predicate Precedes(s: seq<Tx>, i: nat, j: nat)
    requires i < |s| && j < |s|
  {
    s[i].nonce < s[j].nonce
  }

  ghost predicate Ascending(s: seq<Tx>) {
    forall i, j {:trigger Precedes(s, i, j)} | 0 <= i < j < |s| :: Precedes(s, i, j)
  }

  lemma AscendingSlice(s: seq<Tx>, lo: nat, hi: nat)
    requires Ascending(s) && lo <= hi <= |s|
    ensures Ascending(s[lo..hi])
  {
    forall i, j | 0 <= i < j < hi - lo
      ensures Precedes(s[lo..hi], i, j)
    {
      assert Precedes(s, lo + i, lo + j);
    }
  }

  lemma {:induction false} SizeOfUpdate(m: Txs, n: nat, tx: Tx)
    requires n !in m
    ensures |m[n := tx]| == |m| + 1
  {
    assert m[n := tx].Keys == m.Keys + {n};
  }

  lemma ListsAppend(s: seq<Tx>, m: Txs, tx: Tx)
    requires Lists(s, m) && tx.nonce !in m
    ensures Lists(s + [tx], m[tx.nonce := tx])
    ensures Ascending(s) && (forall n | n in m :: n < tx.nonce) ==> Ascending(s + [tx])
  {
    SizeOfUpdate(m, tx.nonce, tx);
    var t, r := s + [tx], m[tx.nonce := tx];
    if Ascending(s) && forall n | n in m :: n < tx.nonce {
      forall i, j | 0 <= i < j < |t|
        ensures Precedes(t, i, j)
      {
        if j < |s| { assert Precedes(s, i, j); } else { assert t[i] == s[i]; }
      }
    }
    forall n | n in r
      ensures r[n] in t
    {
      if n == tx.nonce { assert t[|s|] == tx; }
    }
  }

  lemma Position(s: seq<Tx>, m: Txs, n: nat) returns (i: nat)
    requires Lists(s, m) && n in m
    ensures i < |s| && s[i] == m[n] && s[i].nonce == n
  {
    assert m[n] in s;
    i :| 0 <= i < |s| && s[i] == m[n];
  }

  ghost function Lower(m: Txs, n: nat): (r: set<nat>) {
    set k | k in m && k < n
  }

  /** In an ascending listing the position of a transaction is its nonce's rank. */
  lemma {:induction false} RankIsPosition(s: seq<Tx>, m: Txs, i: nat)
    requires Lists(s, m) && Ascending(s) && i < |s|
    ensures Rank(m, s[i].nonce) == i
  {
    assert Lower(m, s[i].nonce) == set k | k in m && k < s[i].nonce;
    if i == 0 {
      forall k | k in m ensures k >= s[0].nonce {
        var j := Position(s, m, k);
        assert j > 0 ==> Precedes(s, 0, j);
      }
      assert Lower(m, s[0].nonce) == {};
    } else {
      RankIsPosition(s, m, i - 1);
      var p := s[i-1].nonce;
      assert Precedes(s, i - 1, i);
      forall k | k in m && k < s[i].nonce ensures k <= p {
        var j := Position(s, m, k);
        assert j > i ==> Precedes(s, i, j);
        assert j < i - 1 ==> Precedes(s, j, i - 1);
      }
      assert Lower(m, s[i].nonce) == Lower(m, p) + {p};
    }
  }

  lemma SubsetSize<T>(a: set<T>, b: set<T>)
    requires a <= b
    ensures |a| <= |b| && (a != b ==> |a| < |b|)
  {
    assert b == a + (b - a);
    if a != b {
      assert b - a != {};
    }
  }

  lemma RankOrder(m: Txs, k: nat, n: nat)
    requires k in m && k < n
    ensures Rank(m, k) < Rank(m, n)
  {
    assert Lower(m, k) == set j | j in m && j < k;
    assert Lower(m, n) == set j | j in m && j < n;
    assert k in Lower(m, n) && k !in Lower(m, k);
    SubsetSize(Lower(m, k), Lower(m, n));
  }

  /** In an ascending listing the transactions below a nonce come first. */
  lemma BeforeComesFirst(s: seq<Tx>, m: Txs, t: nat, i: nat)
    requires Lists(s, m) && Ascending(s) && i < |s|
    ensures s[i].nonce < t <==> i < |Before(m, t)|
  {
    RankIsPosition(s, m, i);
    var n := s[i].nonce;
    assert Before(m, t).Keys == Lower(m, t) && |Lower(m, n)| == i;
    if n < t {
      assert n in Lower(m, t) && n !in Lower(m, n);
      SubsetSize(Lower(m, n), Lower(m, t));
    } else {
      SubsetSize(Lower(m, t), Lower(m, n));
    }
  }

  lemma SplitSizes(m: Txs, t: nat)
    ensures |Before(m, t)| + |From(m, t)| == |m|
  {
    assert m.Keys == Before(m, t).Keys + From(m, t).Keys;
    assert Before(m, t).Keys !! From(m, t).Keys;
  }

  /** Cutting an ascending listing after as many as lie below a nonce splits it there. */
  lemma ListingSplit(s: seq<Tx>, m: Txs, t: nat)
    requires Lists(s, m) && Ascending(s)
    ensures |Before(m, t)| <= |s|
    ensures Lists(s[|Before(m, t)|..], From(m, t)) && Ascending(s[|Before(m, t)|..])
  {
    SplitSizes(m, t);
    var k := |Before(m, t)|;
    var r := s[k..];
    forall i | k <= i < |s|
      ensures s[i].nonce >= t
    {
      BeforeComesFirst(s, m, t, i);
    }
    forall n | n in From(m, t)
      ensures m[n] in r
    {
      var i := Position(s, m, n);
      BeforeComesFirst(s, m, t, i);
      assert r[i - k] == m[n];
    }
    AscendingSlice(s, k, |s|);
    assert s[k..|s|] == r;
    hide Before, Rank;
  }

  /** The first `k` of an ascending listing list the `k` lowest nonces. */
  lemma ListingCap(s: seq<Tx>, m: Txs, k: nat)
    requires Lists(s, m) && Ascending(s) && k <= |s|
    ensures Lists(s[..k], Capped(m, k)) && Ascending(s[..k])
    ensures |Capped(m, k)| == k
  {
    var c := Capped(m, k);
    forall i | 0 <= i < |s|
      ensures s[i].nonce in c <==> i < k
    {
      RankIsPosition(s, m, i);
    }
    forall n | n in c
      ensures m[n] in s[..k]
    {
      var i := Position(s, m, n);
      assert s[..k][i] == m[n];
    }
    AscendingSlice(s, 0, k);
    assert s[0..k] == s[..k];
    hide Capped, Rank;
    ListingSize(s[..k], c);
  }

  /** A listing without repetition has the map's size. */
  lemma {:induction false} ListingSize(s: seq<Tx>, m: Txs)
    requires Ascending(s)
    requires forall i {:trigger s[i]} | 0 <= i < |s| :: s[i].nonce in m && m[s[i].nonce] == s[i]
    requires forall n | n in m :: m[n] in s && m[n].nonce == n
    ensures |m| == |s|
    decreases |s|
  {
    if s == [] {
      assert m == map[];
    } else {
      var k := |s| - 1;
      var n := s[k].nonce;
      var r := map x | x in m && x != n :: m[x];
      forall x | x in r
        ensures r[x] in s[..k]
      {
        var i :| 0 <= i < |s| && s[i] == m[x];
        assert i != k;
        assert s[..k][i] == m[x];
      }
      forall i | 0 <= i < k
        ensures s[..k][i].nonce in r
      {
        assert Precedes(s, i, k);
      }
      AscendingSlice(s, 0, k);
      assert s[0..k] == s[..k];
      ListingSize(s[..k], r);
      assert m.Keys == r.Keys + {n};
    }
  }

  lemma CappedAll(m: Txs, k: nat)
    requires |m| <= k
    ensures Capped(m, k) == m
  {
    forall n | n in m
      ensures Rank(m, n) < k
    {
      assert n !in Lower(m, n) && Lower(m, n) < m.Keys;
      SubsetSize(Lower(m, n), m.Keys);
    }
  }

  lemma WithoutSize(m: Txs, r: Txs)
    requires r.Keys <= m.Keys
    ensures |Without(m, r)| + |r| == |m|
  {
    assert Without(m, r).Keys + r.Keys == m.Keys && Without(m, r).Keys !! r.Keys;
  }
}
