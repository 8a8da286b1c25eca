/** core/tx_pool.go: what truncateQueue leaves of the queues. */
module QueueLimits {
  import opened Common
  import opened Transactions
  import opened SortedMaps
  import opened TxLists
  import opened PoolAccounts
  import opened PoolLists
  import opened PoolTotals

  function Beat(beats: map<Address, nat>, a: Address): (r: nat) {
    if a in beats then beats[a] else 0
  }

  function NonLocals(lists: AccountLists, locals: set<Address>): (r: set<Address>) {
    set a | a in lists && a !in locals
  }

  ghost predicate OldestFirst(order: seq<Address>, beats: map<Address, nat>) {
    forall i, j | 0 <= i < j < |order| :: Beat(beats, order[i]) <= Beat(beats, order[j])
  }

  /** The sequence lists exactly the accounts of the set, each once. */
  ghost predicate Enumerates(s: seq<Address>, accounts: set<Address>) {
    && |s| == |accounts|
    && (forall i | 0 <= i < |s| :: s[i] in accounts)
    && (forall i, j | 0 <= i < j < |s| :: s[i] != s[j])
  }

  lemma OrderFacts(order: seq<Address>, accounts: set<Address>, beats: map<Address, nat>, key: Address -> int)
    requires Sorted(order, key) && multiset(order) == multiset(accounts) && forall a :: key(a) == Beat(beats, a)
    ensures Enumerates(order, accounts) && OldestFirst(order, beats)
  {
    assert |multiset(order)| == |multiset(accounts)|;
    forall i | 0 <= i < |order|
      ensures order[i] in accounts
    {
      assert order[i] in multiset(order);
    }
    forall i, j | 0 <= i < j < |order|
      ensures order[i] != order[j] && Beat(beats, order[i]) <= Beat(beats, order[j])
    {
      assert Le(order, key, i, j);
      if order[i] == order[j] {
        TwiceCounts(order, i, j);
      }
    }
  }

  /** The accounts that are not local, by heartbeat. */
  method ByHeartbeat(queue: AccountLists, locals: set<Address>, beats: map<Address, nat>) returns (order: seq<Address>)
    ensures Enumerates(order, NonLocals(queue, locals)) && OldestFirst(order, beats)
  {
    order := [];
    var todo := NonLocals(queue, locals);
    while todo != {}
      invariant todo <= NonLocals(queue, locals)
      invariant multiset(order) + multiset(todo) == multiset(NonLocals(queue, locals))
      decreases todo
    {
      var a :| a in todo;
      order := order + [a];
      todo := todo - {a};
    }
    var key := (a: Address) => Beat(beats, a);
    assert multiset(order) == multiset(NonLocals(queue, locals));
    order := Sort(order, key);
    OrderFacts(order, NonLocals(queue, locals), beats, key);
  }

  /** The lists without those of the accounts from the k-th on. */
  ghost function CutFrom(orig: AccountLists, order: seq<Address>, k: nat): (r: AccountLists)
    requires k <= |order|
  {
    map a | a in orig && a !in order[k..] :: orig[a]
  }

  /** The accounts after the k-th have lost all, and the k-th all but its first `keep` transactions. */
  ghost predicate CutAt(orig: AccountLists, after: AccountLists, order: seq<Address>, k: nat, keep: nat) {
    if k < |order| then
      order[k] in orig && after == SetList(CutFrom(orig, order, k + 1), order[k], Capped(orig[order[k]], keep))
    else
      k == |order| && after == orig
  }

  ghost function LocalPart(orig: AccountLists, locals: set<Address>): (r: AccountLists) {
    map a | a in orig && a in locals :: orig[a]
  }

  /** Latest heartbeat first, as many as exceed the limit, and no local ones. */
  ghost predicate QueueCut(orig: AccountLists, after: AccountLists, locals: set<Address>, beats: map<Address, nat>,
                           limit: nat, order: seq<Address>, k: nat, keep: nat) {
    && Enumerates(order, NonLocals(orig, locals)) && OldestFirst(order, beats)
    && CutAt(orig, after, order, k, keep)
    && Count(after) == (if Count(LocalPart(orig, locals)) <= limit then limit else Count(LocalPart(orig, locals)))
    && (Count(after) > limit ==> after == LocalPart(orig, locals))
  }

  lemma CutStartsAt(orig: AccountLists, order: seq<Address>)
    ensures CutAt(orig, orig, order, |order|, 0)
  {
  }

  lemma CappedNone(list: Txs)
    ensures Capped(list, 0) == map[] && Without(list, list) == map[]
  {
  }

  lemma CutFromStep(orig: AccountLists, order: seq<Address>, k: nat)
    requires k < |order|
    ensures CutFrom(orig, order, k) == Sans(CutFrom(orig, order, k + 1), order[k])
  {
    assert order[k..] == [order[k]] + order[k+1..];
  }

  /** Before its turn an account's list is untouched. */
  lemma CutNext(orig: AccountLists, locals: set<Address>, queue: AccountLists, order: seq<Address>, k: nat)
    requires Enumerates(order, NonLocals(orig, locals)) && 0 < k <= |order| && CutAt(orig, queue, order, k, 0)
    ensures queue == CutFrom(orig, order, k)
    ensures order[k-1] in orig && order[k-1] in queue && queue[order[k-1]] == orig[order[k-1]]
  {
    if k < |order| {
      CappedNone(orig[order[k]]);
      CutFromStep(orig, order, k);
    } else {
      assert order[k..] == [];
    }
    assert order[k-1] !in order[k..];
  }

  lemma CapParts(list: Txs, k: nat)
    ensures PartOf(Without(list, Capped(list, k)), list)
    ensures Without(list, Without(list, Capped(list, k))) == Capped(list, k)
  {
    assert PartOf(Capped(list, k), list);
    hide Capped;
  }

  lemma CutList(queue: AccountLists, a: Address, list: Txs, keep: nat)
    requires list == ListOf(queue, a) && keep <= |list|
    ensures var kept := Capped(list, keep); var gone := Without(list, kept);
      && PartOf(gone, list) && Without(list, gone) == kept && |kept| == keep
      && Count(SetList(queue, a, kept)) == Count(queue) - |list| + keep
    ensures keep == 0 ==> PartOf(list, list) && Without(list, list) == Capped(list, keep)
  {
    CapParts(list, keep);
    CappedSize(list, keep);
    CountSet(queue, a, Capped(list, keep));
    CappedNone(list);
  }

  lemma CutMore(orig: AccountLists, queue: AccountLists, order: seq<Address>, k: nat, keep: nat)
    requires 0 < k <= |order| && order[k-1] in orig
    requires queue == SetList(CutFrom(orig, order, k), order[k-1], Capped(orig[order[k-1]], keep))
    ensures CutAt(orig, queue, order, k - 1, keep)
  {
  }

  lemma {:induction false} CountPart(x: AccountLists, y: AccountLists)
    requires forall a | a in x :: a in y && |x[a]| <= |y[a]|
    ensures Count(x) <= Count(y)
    decreases |x|
  {
    if x != map[] {
      var a :| a in x;
      SansSize(x, a);
      CountWithout(x, a);
      CountWithout(y, a);
      assert forall b | b in Sans(x, a) :: b in Sans(y, a) && Sans(x, a)[b] == x[b] && Sans(y, a)[b] == y[b];
      hide Sans;
      CountPart(Sans(x, a), Sans(y, a));
    }
  }

  /** Local accounts keep their lists. */
  lemma CutLocals(orig: AccountLists, after: AccountLists, locals: set<Address>, order: seq<Address>, k: nat, keep: nat,
                  a: Address)
    requires Enumerates(order, NonLocals(orig, locals)) && CutAt(orig, after, order, k, keep) && a in orig
    requires a in locals
    ensures a in after && after[a] == orig[a]
  {
    assert a !in order;
    if k < |order| {
      assert order == order[..k] + [order[k]] + order[k+1..];
    }
  }

  lemma {:induction false} EnumeratesAll(s: seq<Address>, accounts: set<Address>)
    requires Enumerates(s, accounts)
    ensures forall a | a in accounts :: a in s
    decreases |s|
  {
    if s != [] {
      var k := |s| - 1;
      var rest := s[..k];
      assert forall i | 0 <= i < k :: rest[i] == s[i];
      EnumeratesAll(rest, accounts - {s[k]});
      assert s == rest + [s[k]];
    }
  }

  lemma CutAll(orig: AccountLists, after: AccountLists, locals: set<Address>, order: seq<Address>)
    requires Enumerates(order, NonLocals(orig, locals)) && CutAt(orig, after, order, 0, 0)
    ensures after == LocalPart(orig, locals)
  {
    EnumeratesAll(order, NonLocals(orig, locals));
    if 0 < |order| {
      CappedNone(orig[order[0]]);
      CutFromStep(orig, order, 0);
      CutFromAll(orig, locals, order);
      SansSet(CutFrom(orig, order, 1), order[0], map[]);
    } else {
      CutFromAll(orig, locals, order);
      assert order[0..] == [];
    }
    hide Capped, CutFrom, LocalPart, Sans;
  }

  lemma CutFromAll(orig: AccountLists, locals: set<Address>, order: seq<Address>)
    requires Enumerates(order, NonLocals(orig, locals)) && forall a | a in NonLocals(orig, locals) :: a in order
    ensures CutFrom(orig, order, 0) == LocalPart(orig, locals) && (order == [] ==> LocalPart(orig, locals) == orig)
  {
    assert order[0..] == order;
    forall a | a in orig
      ensures a in order <==> a !in locals
    {
    }
  }

  lemma QueueCutHolds(orig: AccountLists, after: AccountLists, locals: set<Address>, beats: map<Address, nat>,
                      limit: nat, order: seq<Address>, k: nat, keep: nat, drop: nat)
    requires Enumerates(order, NonLocals(orig, locals)) && OldestFirst(order, beats)
    requires CutAt(orig, after, order, k, keep)
    requires Count(after) == limit + drop && (drop > 0 ==> k == 0 && keep == 0)
    ensures QueueCut(orig, after, locals, beats, limit, order, k, keep)
  {
    if drop > 0 {
      CutAll(orig, after, locals, order);
    } else {
      forall a | a in LocalPart(orig, locals)
        ensures a in after && |LocalPart(orig, locals)[a]| <= |after[a]|
      {
        CutLocals(orig, after, locals, order, k, keep, a);
      }
      CountPart(LocalPart(orig, locals), after);
    }
    hide CutAt, Enumerates, OldestFirst, NonLocals, Count;
  }

  lemma QueueCutParts(orig: AccountLists, after: AccountLists, locals: set<Address>, beats: map<Address, nat>,
                      limit: nat, order: seq<Address>, k: nat, keep: nat)
    requires QueueCut(orig, after, locals, beats, limit, order, k, keep)
    ensures Enumerates(order, NonLocals(orig, locals)) && OldestFirst(order, beats)
    ensures CutAt(orig, after, order, k, keep)
  {
  }

  lemma OldestFirstAt(order: seq<Address>, beats: map<Address, nat>, i: nat, j: nat)
    requires OldestFirst(order, beats) && i < j < |order|
    ensures Beat(beats, order[i]) <= Beat(beats, order[j])
  {
  }

  lemma PlaceOf(orig: AccountLists, locals: set<Address>, order: seq<Address>, a: Address) returns (i: nat)
    requires Enumerates(order, NonLocals(orig, locals)) && a in orig && a !in locals
    ensures i < |order| && order[i] == a
  {
    EnumeratesAll(order, NonLocals(orig, locals));
    assert a in NonLocals(orig, locals);
    i :| 0 <= i < |order| && order[i] == a;
  }

  lemma CutPlace(orig: AccountLists, after: AccountLists, locals: set<Address>, order: seq<Address>, k: nat, keep: nat,
                 i: nat)
    requires Enumerates(order, NonLocals(orig, locals)) && CutAt(orig, after, order, k, keep) && i < |order|
    ensures order[i] in orig
    ensures i < k ==> ListOf(after, order[i]) == orig[order[i]]
    ensures i == k ==> ListOf(after, order[i]) == Capped(orig[order[i]], |ListOf(after, order[i])|)
    ensures i > k ==> order[i] !in after
  {
    if k < |order| {
      if i > k {
        assert order[k+1..][i - k - 1] == order[i];
      } else {
        assert order[i] !in order[k+1..];
      }
      CappedSize(orig[order[k]], keep);
      CappedAll(orig[order[k]], |orig[order[k]]|);
    }
    hide Capped;
  }

  /** What is left of each queue is its front, local accounts lose nothing, and an account loses transactions only when
      every account with a later heartbeat, local ones aside, has lost all. */
  lemma QueueCutFacts(orig: AccountLists, after: AccountLists, locals: set<Address>, beats: map<Address, nat>,
                      limit: nat, order: seq<Address>, k: nat, keep: nat, a: Address, b: Address)
    requires QueueCut(orig, after, locals, beats, limit, order, k, keep) && a in orig && b in orig
    ensures ListOf(after, a) == orig[a] || ListOf(after, a) == Capped(orig[a], |ListOf(after, a)|)
    ensures a in locals ==> ListOf(after, a) == orig[a]
    ensures a !in locals && b !in locals && Beat(beats, a) < Beat(beats, b) && ListOf(after, a) != orig[a] ==>
      b !in after
  {
    hide *;
    QueueCutParts(orig, after, locals, beats, limit, order, k, keep);
    ListOfIn(after, a);
    ListOfIn(after, b);
    CappedNone(orig[a]);
    if a in locals {
      CutLocals(orig, after, locals, order, k, keep, a);
    } else {
      var i := PlaceOf(orig, locals, order, a);
      CutPlace(orig, after, locals, order, k, keep, i);
      if b !in locals {
        var j := PlaceOf(orig, locals, order, b);
        CutPlace(orig, after, locals, order, k, keep, j);
        if j < i {
          OldestFirstAt(order, beats, j, i);
        }
      }
    }
  }

  lemma CutShrinks(orig: AccountLists, after: AccountLists, order: seq<Address>, k: nat, keep: nat)
    requires CutAt(orig, after, order, k, keep)
    ensures Shrunk(after, orig)
  {
  }
}
