/** core/tx_pool.go: how many transactions the lists hold, and levelling the largest of them. */
module PoolTotals {
  import opened Common
  import opened Transactions
  import opened SortedMaps
  import opened TxLists
  import opened PoolAccounts
  import opened PoolLists

  ghost function Sans<K, V>(m: map<K, V>, a: K): (r: map<K, V>) {
    map b | b in m && b != a :: m[b]
  }

  lemma SansSize<K, V>(m: map<K, V>, a: K)
    requires a in m
    ensures |Sans(m, a)| == |m| - 1
  {
    assert Sans(m, a).Keys == m.Keys - {a};
  }

  lemma SansTwo<K, V>(m: map<K, V>, a: K, b: K)
    ensures Sans(Sans(m, a), b) == Sans(Sans(m, b), a)
    ensures a != b && a in m ==> a in Sans(m, b) && Sans(m, b)[a] == m[a]
  {
  }

  ghost function Count(lists: AccountLists): (r: nat)
    decreases |lists|
  {
    if lists == map[] then 0 else var a :| a in lists; SansSize(lists, a); |lists[a]| + Count(Sans(lists, a))
  }

  lemma CountOne(lists: AccountLists) returns (a: Address)
    requires lists != map[]
    ensures a in lists && Count(lists) == |lists[a]| + Count(Sans(lists, a))
  {
    hide Sans;
    a :| a in lists && Count(lists) == |lists[a]| + Count(Sans(lists, a));
  }

  lemma {:induction false} CountWithout(lists: AccountLists, a: Address)
    requires a in lists
    ensures Count(lists) == |lists[a]| + Count(Sans(lists, a))
    decreases |lists|
  {
    hide *;
    var b := CountOne(lists);
    if b != a {
      SansSize(lists, a);
      SansSize(lists, b);
      SansTwo(lists, a, b);
      SansTwo(lists, b, a);
      CountWithout(Sans(lists, b), a);
      CountWithout(Sans(lists, a), b);
    }
  }

  lemma SansSet<K, V>(m: map<K, V>, a: K, v: V)
    ensures Sans(m[a := v], a) == Sans(m, a) == m - {a} && (a !in m ==> Sans(m, a) == m)
  {
  }

  lemma CountSet(lists: AccountLists, a: Address, l: Txs)
    ensures Count(SetList(lists, a, l)) == Count(lists) - |ListOf(lists, a)| + |l|
  {
    hide Sans, Count;
    SansSet(lists, a, l);
    if a in lists {
      CountWithout(lists, a);
    }
    if l != map[] {
      CountWithout(lists[a := l], a);
    }
  }

  /** The number of listed transactions. */
  method Total(lists: AccountLists) returns (n: nat)
    ensures n == Count(lists)
  {
    n := 0;
    var todo := lists.Keys;
    ghost var left := lists;
    while todo != {}
      invariant todo == left.Keys && (forall a | a in left :: a in lists && left[a] == lists[a])
      invariant n + Count(left) == Count(lists)
      decreases todo
    {
      var a :| a in todo;
      CountWithout(left, a);
      n := n + |lists[a]|;
      left := Sans(left, a);
      todo := todo - {a};
    }
    assert left == map[];
  }

  // ---- Capping a list ----

  lemma GreatestRank(m: Txs, g: nat)
    requires IsGreatest(m, g)
    ensures Rank(m, g) == |m| - 1
  {
    assert Lower(m, g) == set j | j in m && j < g;
    assert Lower(m, g) == m.Keys - {g};
  }

  /** Capping at one less takes off the greatest nonce. */
  lemma CapLess(m: Txs, g: nat)
    requires IsGreatest(m, g)
    ensures Capped(m, |m| - 1) == Before(m, g) == m - {g} && Without(m, Before(m, g)) == map[g := m[g]]
    ensures |Before(m, g)| == |m| - 1
  {
    GreatestRank(m, g);
    forall n | n in m && n != g
      ensures Rank(m, n) < |m| - 1
    {
      RankOrder(m, n, g);
    }
    assert Before(m, g).Keys == m.Keys - {g};
  }

  lemma {:induction false} CappedSize(m: Txs, k: nat)
    ensures |Capped(m, k)| == if |m| <= k then |m| else k
    decreases |m|
  {
    if |m| <= k {
      CappedAll(m, k);
    } else {
      var g := HasGreatest(m);
      CapLess(m, g);
      GreatestRank(m, g);
      LowerRanks(m, g, k);
      CappedSize(m - {g}, k);
    }
  }

  /** Without its greatest nonce a longer list caps to the same. */
  lemma LowerRanks(m: Txs, g: nat, k: nat)
    requires IsGreatest(m, g) && k < |m|
    ensures Capped(m - {g}, k) == Capped(m, k)
  {
    GreatestRank(m, g);
    forall n | n in m && n != g
      ensures Rank(m - {g}, n) == Rank(m, n)
    {
      assert Lower(m, n) == set j | j in m && j < n;
      assert Lower(m - {g}, n) == set j | j in m - {g} && j < n;
      assert Lower(m - {g}, n) == Lower(m, n);
    }
  }

  /** Capping a capped list further. */
  lemma CappedTwice(m: Txs, w: nat)
    requires 0 < w <= |m|
    ensures |Capped(m, w)| == w && Capped(Capped(m, w), w - 1) == Capped(m, w - 1)
  {
    CappedSize(m, w);
    var c := Capped(m, w);
    forall n | n in c
      ensures Rank(c, n) == Rank(m, n)
    {
      forall k | k in m && k < n
        ensures k in c
      {
        RankOrder(m, k, n);
      }
      assert Lower(m, n) == set j | j in m && j < n;
      assert Lower(c, n) == set j | j in c && j < n;
      assert Lower(c, n) == Lower(m, n);
    }
  }

  // ---- Levels ----

  /** Every list but those of local accounts, cut to `w` transactions. */
  function Level(orig: AccountLists, locals: set<Address>, w: nat): (r: AccountLists) {
    map a | a in orig :: if a in locals then orig[a] else Capped(orig[a], w)
  }

  /** The lists longer than a level, those of local accounts aside. */
  function Over(orig: AccountLists, locals: set<Address>, w: nat): (r: set<Address>) {
    set a | a in orig && a !in locals && |orig[a]| > w
  }

  lemma LevelAbove(orig: AccountLists, locals: set<Address>, w: nat, v: nat)
    requires Over(orig, locals, w) == {} && w <= v
    ensures Level(orig, locals, v) == orig
  {
    forall a | a in orig && a !in locals
      ensures Capped(orig[a], v) == orig[a]
    {
      assert a !in Over(orig, locals, w);
      CappedAll(orig[a], v);
    }
  }

  lemma LevelSans(orig: AccountLists, locals: set<Address>, w: nat, a: Address)
    ensures Level(Sans(orig, a), locals, w) == Sans(Level(orig, locals, w), a)
    ensures a in orig ==>
      a in Level(orig, locals, w) && Level(orig, locals, w)[a] == if a in locals then orig[a] else Capped(orig[a], w)
  {
    hide Capped;
  }

  lemma OverSans(orig: AccountLists, locals: set<Address>, w: nat, a: Address)
    requires a in orig
    ensures |Over(orig, locals, w)| == |Over(Sans(orig, a), locals, w)| + if a in Over(orig, locals, w) then 1 else 0
    ensures a in Over(orig, locals, w) <==> a !in locals && |orig[a]| > w
  {
    assert Over(Sans(orig, a), locals, w) == Over(orig, locals, w) - {a};
  }

  /** One level lower, as many transactions fewer as there are lists above it. */
  lemma {:induction false} LevelCount(orig: AccountLists, locals: set<Address>, w: nat)
    ensures Count(Level(orig, locals, w + 1)) == Count(Level(orig, locals, w)) + |Over(orig, locals, w)|
    decreases |orig|
  {
    if orig == map[] {
      assert Level(orig, locals, w + 1) == map[] && Level(orig, locals, w) == map[] && Over(orig, locals, w) == {};
    } else {
      var a :| a in orig;
      SansSize(orig, a);
      LevelCount(Sans(orig, a), locals, w);
      LevelCountStep(orig, locals, w, a);
    }
  }

  lemma LevelCountStep(orig: AccountLists, locals: set<Address>, w: nat, a: Address)
    requires a in orig
    requires Count(Level(Sans(orig, a), locals, w + 1))
          == Count(Level(Sans(orig, a), locals, w)) + |Over(Sans(orig, a), locals, w)|
    ensures Count(Level(orig, locals, w + 1)) == Count(Level(orig, locals, w)) + |Over(orig, locals, w)|
  {
    hide *;
    LevelSans(orig, locals, w + 1, a);
    LevelSans(orig, locals, w, a);
    OverSans(orig, locals, w, a);
    CountWithout(Level(orig, locals, w + 1), a);
    CountWithout(Level(orig, locals, w), a);
    CappedSize(orig[a], w);
    CappedSize(orig[a], w + 1);
  }

  /** Within a round: the accounts of `cut` have come down to the next level. */
  function Cutting(orig: AccountLists, locals: set<Address>, w: nat, cut: set<Address>): (r: AccountLists) {
    map a | a in orig ::
      if a in locals then orig[a] else if a in cut && w > 0 then Capped(orig[a], w - 1) else Capped(orig[a], w)
  }

  lemma CuttingStarts(orig: AccountLists, locals: set<Address>, w: nat)
    ensures Cutting(orig, locals, w, {}) == Level(orig, locals, w)
  {
    hide Capped;
  }

  lemma CuttingStep(orig: AccountLists, locals: set<Address>, w: nat, cut: set<Address>, a: Address)
    requires 0 < w && a in Over(orig, locals, w - 1) && a !in cut
    ensures var cur := Cutting(orig, locals, w, cut);
      a in cur && |cur[a]| == w && cur[a := Capped(cur[a], w - 1)] == Cutting(orig, locals, w, cut + {a})
  {
    CappedTwice(orig[a], w);
    hide Capped;
  }

  lemma CuttingEnds(orig: AccountLists, locals: set<Address>, w: nat)
    requires 0 < w
    ensures Cutting(orig, locals, w, Over(orig, locals, w - 1)) == Level(orig, locals, w - 1)
  {
    forall a | a in orig && a !in locals && a !in Over(orig, locals, w - 1)
      ensures Capped(orig[a], w) == Capped(orig[a], w - 1)
    {
      CappedAll(orig[a], w);
      CappedAll(orig[a], w - 1);
    }
    hide Capped;
  }
}
