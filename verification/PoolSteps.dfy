/** core/tx_pool.go: the steps of the pool's operations, on the lists, the lookup and the price list as values. */
module PoolSteps {
  import opened Common
  import opened Transactions
  import opened SortedMaps
  import opened TxLists
  import opened TxLookups
  import opened PricedLists
  import opened PoolAccounts
  import opened PoolLists
  import opened PoolTotals

  /** Every account with queued transactions has a heartbeat. */
  ghost predicate Timed(queue: AccountLists, beats: map<Address, nat>) {
    queue.Keys <= beats.Keys
  }

  /** No account but one has lost its heartbeat, nor has that one while it has queued transactions. */
  lemma TimedAfter(queue: AccountLists, beats: map<Address, nat>, after: AccountLists, now: map<Address, nat>,
                   a: Address)
    requires Timed(queue, beats) && after.Keys <= queue.Keys + {a}
    requires forall b | b != a && b in beats :: b in now
    requires a in after ==> a in now
    ensures Timed(after, now)
  {
  }

  lemma TimedMore(queue: AccountLists, beats: map<Address, nat>, now: map<Address, nat>)
    requires Timed(queue, beats) && beats.Keys <= now.Keys
    ensures Timed(queue, now)
  {
  }

  lemma EnqueuedKeys(queue: AccountLists, tx: Tx)
    ensures Enqueued(queue, tx).Keys == queue.Keys + {tx.sender}
  {
  }

  ghost predicate NoneLocal(remotes: set<Tx>, locals: set<Address>) {
    forall tx | tx in remotes :: tx.sender !in locals
  }

  /** Whether a list takes the transaction: its nonce is free or its price is high enough. */
  predicate Admits(l: Txs, tx: Tx, priceBump: Uint64) {
    tx.nonce in l ==> Outbids(tx, l[tx.nonce], priceBump)
  }

  /** The lookup without what the transaction takes the place of, and with the transaction if it is new to it. */
  function Displacing(all: set<Tx>, l: Txs, tx: Tx, add: bool): (r: set<Tx>) {
    var left := if tx.nonce in l then all - {l[tx.nonce]} else all;
    if add then left + {tx} else left
  }

  function Enqueued(queue: AccountLists, tx: Tx): (r: AccountLists) {
    queue[tx.sender := ListOf(queue, tx.sender)[tx.nonce := tx]]
  }

  function PendingWithout(pending: AccountLists, all: set<Tx>, tx: Tx): (r: AccountLists) {
    if tx in all then SetList(pending, tx.sender, LeftPending(ListOf(pending, tx.sender), tx.nonce)) else pending
  }

  function QueueWithout(pending: AccountLists, queue: AccountLists, all: set<Tx>, tx: Tx): (r: AccountLists) {
    if tx in all then
      SetList(queue, tx.sender, LeftQueued(ListOf(pending, tx.sender), ListOf(queue, tx.sender), tx.nonce))
    else
      queue
  }

  /** The virtual nonce of an account after a removal. */
  function NonceWithout(pending: AccountLists, all: set<Tx>, tx: Tx, a: Address, virtual: nat): (r: nat) {
    if a == tx.sender && tx in all && tx.nonce in ListOf(pending, a) then Min(virtual, tx.nonce) else virtual
  }

  lemma NonceParts(pending: AccountLists, all: set<Tx>, tx: Tx)
    requires tx in all
    ensures forall a, v: nat {:trigger NonceWithout(pending, all, tx, a, v)} ::
      NonceWithout(pending, all, tx, a, v)
      == (if a == tx.sender && tx.nonce in ListOf(pending, a) && tx.nonce < v then tx.nonce else v)
  {
  }

  lemma NoneLocalLess(remotes: set<Tx>, locals: set<Address>, tx: Tx)
    requires NoneLocal(remotes, locals)
    ensures NoneLocal(remotes - {tx}, locals)
  {
  }

  lemma NothingRemoved(pending: AccountLists, queue: AccountLists, all: set<Tx>, remotes: set<Tx>, tx: Tx)
    requires tx !in all && remotes <= all
    ensures all - {tx} == all && remotes - {tx} == remotes
    ensures PendingWithout(pending, all, tx) == pending && QueueWithout(pending, queue, all, tx) == queue
    ensures forall a, v: nat {:trigger NonceWithout(pending, all, tx, a, v)} ::
      NonceWithout(pending, all, tx, a, v) == v
  {
  }

  lemma RemovalPartition(pending: AccountLists, queue: AccountLists, all: set<Tx>, tx: Tx)
    requires Partition(pending, queue, all) && NoEmpty(pending) && NoEmpty(queue)
    ensures Partition(PendingWithout(pending, all, tx), QueueWithout(pending, queue, all, tx), all - {tx})
    ensures NoEmpty(PendingWithout(pending, all, tx)) && NoEmpty(QueueWithout(pending, queue, all, tx))
  {
    var a := tx.sender;
    var p, q := LeftPending(ListOf(pending, a), tx.nonce), LeftQueued(ListOf(pending, a), ListOf(queue, a), tx.nonce);
    if tx in all {
      PartitionAt(pending, queue, all, a);
      AccountRemove(a, ListOf(pending, a), ListOf(queue, a), all, tx);
      hide Partition, LeftPending, LeftQueued, AccountOk, NoEmpty, SetList;
      PartitionStep(pending, queue, all, a, p, q, all - {tx});
      NoEmptySet(pending, a, p);
      NoEmptySet(queue, a, q);
    } else {
      assert all - {tx} == all;
    }
  }

  lemma RemovalShape(a: Address, p: Txs, q: Txs, all: set<Tx>, tx: Tx)
    requires AccountOk(a, p, q, all) && tx in all && tx.sender == a
    ensures tx.nonce in p ==>
      LeftPending(p, tx.nonce) == Before(p, tx.nonce) && LeftQueued(p, q, tx.nonce) == q + From(p, tx.nonce + 1)
    ensures Owned(From(p, tx.nonce + 1), a) && From(p, tx.nonce + 1).Keys !! q.Keys
    ensures tx.nonce !in p ==>
      tx.nonce in q && LeftPending(p, tx.nonce) == p && LeftQueued(p, q, tx.nonce) == q - {tx.nonce}
  {
  }

  /** What the removal of a pooled transaction does to the lists. */
  lemma RemovalParts(pending: AccountLists, queue: AccountLists, all: set<Tx>, tx: Tx)
    requires Partition(pending, queue, all) && NoEmpty(pending) && tx in all
    ensures var a := tx.sender; var p, q := ListOf(pending, a), ListOf(queue, a);
      if tx.nonce in p then
        && PendingWithout(pending, all, tx) == SetList(pending, a, Before(p, tx.nonce))
        && QueueWithout(pending, queue, all, tx) == SetList(queue, a, q + From(p, tx.nonce + 1))
        && Owned(From(p, tx.nonce + 1), a) && From(p, tx.nonce + 1).Keys !! q.Keys
      else
        && a in queue && PendingWithout(pending, all, tx) == pending
        && QueueWithout(pending, queue, all, tx) == SetList(queue, a, queue[a] - {tx.nonce})
  {
    PartitionAt(pending, queue, all, tx.sender);
    RemovalShape(tx.sender, ListOf(pending, tx.sender), ListOf(queue, tx.sender), all, tx);
    SetSame(pending, tx.sender);
    hide Partition, SetList, AccountOk, Before, From, LeftPending, LeftQueued, Owned;
  }

  lemma RequeueStep(queue: AccountLists, a: Address, q: Txs, txs: Txs, todo: set<nat>, n: nat)
    requires n in todo && n in txs && n !in q
    ensures n !in q + (txs - todo)
    ensures txs[n].nonce == n && txs[n].sender == a ==>
      Enqueued(SetList(queue, a, q + (txs - todo)), txs[n]) == SetList(queue, a, q + (txs - (todo - {n})))
  {
    assert (q + (txs - todo))[n := txs[n]] == q + (txs - (todo - {n}));
  }

  lemma RequeueNothing(queue: AccountLists, a: Address, txs: Txs)
    requires NoEmpty(queue)
    ensures SetList(queue, a, ListOf(queue, a) + (txs - txs.Keys)) == queue
    ensures txs - {} == txs
  {
    assert ListOf(queue, a) + (txs - txs.Keys) == ListOf(queue, a);
    assert txs - {} == txs;
  }

  lemma LastInBounds(pending: AccountLists, queue: AccountLists, all: set<Tx>, a: Address)
    requires Partition(pending, queue, all) && NoEmpty(pending) && a in pending
    ensures ByNonce(pending[a]) && pending[a] != map[]
  {
    PartitionAt(pending, queue, all, a);
  }

  lemma LastIsGreatest(s: seq<Tx>, m: Txs)
    requires Lists(s, m) && Ascending(s)
    ensures m == map[] <==> s == []
    ensures s != [] ==> IsGreatest(m, s[|s|-1].nonce)
  {
    if s != [] {
      forall n | n in m
        ensures n <= s[|s|-1].nonce
      {
        var i := Position(s, m, n);
        assert i < |s| - 1 ==> Precedes(s, i, |s| - 1);
      }
    }
  }

  lemma LastNonce(s: seq<Tx>, m: Txs)
    requires Lists(s, m) && Ascending(s) && m != map[]
    ensures s != [] && NextNonce(m, 0, Wrap(s[|s|-1].nonce + 1))
  {
    LastIsGreatest(s, m);
  }

  /** What holds of an account in a phase. */
  ghost predicate Stands(phase: Phase, a: Address, p: Txs, h: Limits, virtual: nat) {
    && NonceOk(phase, p, h, virtual)
    && (phase.Since? ==> CutSince(ListOf(phase.was, a), p, h.nonce, virtual))
  }

  lemma RemovalStands(phase: Phase, a: Address, p: Txs, h: Limits, virtual: nat, n: nat)
    requires Stands(phase, a, p, h, virtual)
    ensures Stands(phase, a, LeftPending(p, n), h, if n in p then Min(virtual, n) else virtual)
  {
    hide NonceOk, CutSince, LeftPending, ListOf;
    RemovalKeeps(phase, p, h, virtual, n);
    if phase.Since? {
      RemovalCuts(ListOf(phase.was, a), p, h.nonce, virtual, n);
    }
  }

  lemma ResetStands(pending: AccountLists, a: Address, was: Limits, virtual: nat, h: Limits)
    requires NonceOk(Idle, ListOf(pending, a), was, virtual) && was.nonce <= h.nonce
    ensures Stands(Resetting, a, ListOf(pending, a), h, h.nonce)
    ensures Stands(Since(pending), a, ListOf(pending, a), h, h.nonce)
  {
    ResetKeeps(ListOf(pending, a), was.nonce, h);
  }

  lemma SameKeysStands(phase: Phase, a: Address, p: Txs, r: Txs, h: Limits, virtual: nat, tx: Tx)
    requires Stands(phase, a, p, h, virtual) && tx.gas <= h.gas
    requires r == p || (r == p[tx.nonce := tx] && tx.nonce in p && tx.cost <= h.balance)
    ensures Stands(phase, a, r, h, virtual)
  {
    hide NonceOk;
    SameKeysOk(phase, p, r, h, virtual, tx);
    assert r.Keys == p.Keys;
  }

  lemma ExactAt(p: Txs, h: Limits, virtual: nat, next: nat)
    requires ByNonce(p) && NonceOk(Idle, p, h, virtual) && if p != map[] then NextNonce(p, 0, next) else next == virtual
    ensures NonceOk(Idle, p, h, next) && NonceOk(Reported, p, h, next)
    ensures TWO_64 - 1 !in p ==> NonceOk(Counted, p, h, next)
    ensures if p != map[] then Consecutive(p, h.nonce) && next == Wrap(h.nonce + |p|) else next <= h.nonce
  {
    if p != map[] {
      GaplessIsConsecutive(p, h.nonce);
      var last: nat :| IsGreatest(p, last) && next == Wrap(last + 1);
      assert last == h.nonce + |p| - 1 && p[last].nonce == last;
      assert next == last + 1 || next == 0;
    } else {
      assert h.nonce < virtual ==> h.nonce in p;
    }
  }

  function Unexpired(queue: AccountLists, gone: set<Address>): (r: AccountLists) {
    map a | a in queue && a !in gone :: queue[a]
  }

  lemma UnexpiredShrinks(queue: AccountLists, gone: set<Address>)
    ensures Shrunk(Unexpired(queue, gone), queue)
  {
  }

  lemma UnexpiredStarts(queue: AccountLists)
    ensures Unexpired(queue, {}) == queue
  {
  }

  lemma ExpiredParts(queue: AccountLists, a: Address)
    requires a in queue
    ensures PartOf(queue[a], queue[a]) && Without(queue[a], queue[a]) == map[]
    ensures SetList(queue, a, map[]) == queue - {a}
  {
  }

  lemma UnexpiredStep(queue: AccountLists, gone: set<Address>, a: Address)
    ensures Unexpired(queue, gone) - {a} == Unexpired(queue, gone + {a})
  {
  }

  lemma UnexpiredEnds(queue: AccountLists, done: set<Address>, gone: set<Address>)
    requires done == queue.Keys
    ensures Unexpired(queue, done * gone) == Unexpired(queue, gone)
  {
  }

  lemma GreatestIsOne(p: Txs, g: nat)
    requires IsGreatest(p, g)
    ensures forall n: nat | IsGreatest(p, n) :: n == g
  {
  }

  /** The state of one account while it is being worked on: `list` is what its queue is becoming. */
  ghost predicate Midway(was: set<Tx>, all: set<Tx>, a: Address, p: Txs, list: Txs) {
    AccountOk(a, p, list, all) && SameOthers(was, all, a)
  }

  lemma CapOneParts(pending: AccountLists, a: Address, p: Txs, q: Txs, all: set<Tx>, g: nat)
    requires Midway(all, all, a, p, q) && IsGreatest(p, g) && |p| >= 2
    ensures var kept := Capped(p, |p| - 1); var caps := Without(p, kept);
      && kept == Before(p, g) && PartOf(caps, p) && Without(p, caps) == kept
      && caps.Keys == {g} && ByNonce(caps) && |caps| == 1
      && SetList(pending, a, kept) == pending[a := kept] && LeftPending(p, g) == kept && g in p
  {
    CapLess(p, g);
    assert map[g := p[g]].Keys == {g};
    hide Capped;
  }

  predicate Supersedes(tx: Tx, t: Tx, priceBump: Uint64) {
    t.sender == tx.sender && t.nonce == tx.nonce && Outbids(tx, t, priceBump)
  }

  /** The transaction cannot take the other's place. */
  predicate Resists(t: Tx, tx: Tx, priceBump: Uint64) {
    t.sender == tx.sender && t.nonce == tx.nonce && !Outbids(tx, t, priceBump)
  }

  lemma NotAdmitted(pending: AccountLists, queue: AccountLists, all: set<Tx>, tx: Tx, bump: Uint64)
    requires Partition(pending, queue, all)
    ensures !Admits(ListOf(pending, tx.sender), tx, bump) || !Admits(ListOf(queue, tx.sender), tx, bump) ==>
      exists t :: t in all && Resists(t, tx, bump)
  {
    hide Outbids;
    PartitionAt(pending, queue, all, tx.sender);
    var p, q := ListOf(pending, tx.sender), ListOf(queue, tx.sender);
    assert !Admits(p, tx, bump) ==> p[tx.nonce] in all && Resists(p[tx.nonce], tx, bump);
    assert !Admits(q, tx, bump) ==> q[tx.nonce] in all && Resists(q[tx.nonce], tx, bump);
  }

  /** Nothing in a sender's place resists exactly when the list that the transaction would go in admits it. */
  lemma AdmittedExactly(pending: AccountLists, queue: AccountLists, all: set<Tx>, tx: Tx, bump: Uint64)
    requires Partition(pending, queue, all)
    ensures var p, q := ListOf(pending, tx.sender), ListOf(queue, tx.sender);
      Admits(if tx.nonce in p then p else q, tx, bump) <==> !exists t :: t in all && Resists(t, tx, bump)
  {
    hide Outbids;
    PartitionAt(pending, queue, all, tx.sender);
    NotAdmitted(pending, queue, all, tx, bump);
    var p, q := ListOf(pending, tx.sender), ListOf(queue, tx.sender);
    forall t | t in all && Resists(t, tx, bump)
      ensures !Admits(if tx.nonce in p then p else q, tx, bump)
    {
      assert Has(p, t) || Has(q, t);
    }
  }

  /** A transaction of the same sender and nonce is pooled. */
  ghost predicate Occupied(all: set<Tx>, tx: Tx) {
    exists t :: t in all && t.sender == tx.sender && t.nonce == tx.nonce
  }

  lemma OccupyThemselves(all: set<Tx>)
    ensures forall t | t in all :: Occupied(all, t)
  {
  }

  lemma OccupiedListed(pending: AccountLists, queue: AccountLists, all: set<Tx>, tx: Tx)
    requires Partition(pending, queue, all) && Occupied(all, tx)
    ensures tx.nonce in ListOf(pending, tx.sender) || tx.nonce in ListOf(queue, tx.sender)
  {
    PartitionAt(pending, queue, all, tx.sender);
  }

  lemma OneMore(all: set<Tx>, after: set<Tx>, tx: Tx)
    requires after <= all + {tx}
    ensures |after| <= |all| + 1
  {
    if tx in after {
      assert after == (after - {tx}) + {tx} && after - {tx} <= all;
      SubsetSize(after - {tx}, all);
    } else {
      SubsetSize(after, all);
    }
  }

  /** The transaction came in for one of its sender and nonce that it outbids. */
  ghost predicate Replaces(tx: Tx, before: set<Tx>, after: set<Tx>, priceBump: Uint64) {
    exists t :: t in before && t !in after && Supersedes(tx, t, priceBump)
  }

  lemma ReplacesIs(tx: Tx, before: set<Tx>, after: set<Tx>, priceBump: Uint64)
    ensures Replaces(tx, before, after, priceBump) <==>
      exists t :: t in before && t !in after && Supersedes(tx, t, priceBump)
  {
  }

  /** The transaction has come in, and nothing left but one of the same sender and nonce that it outbids. */
  ghost predicate Placed(all: set<Tx>, after: set<Tx>, tx: Tx, priceBump: Uint64) {
    && tx in after && after <= all + {tx}
    && forall t | t in all && t !in after :: Supersedes(tx, t, priceBump)
  }

  lemma PlacedIs(all: set<Tx>, after: set<Tx>, tx: Tx, priceBump: Uint64)
    requires after == all || Placed(all, after, tx, priceBump)
    ensures after <= all + {tx} && (Placed(all, after, tx, priceBump) ==> tx in after)
    ensures forall t | t in all && t !in after :: Supersedes(tx, t, priceBump)
  {
    hide Supersedes;
  }

  lemma PlacedFacts(pending: AccountLists, queue: AccountLists, all: set<Tx>, tx: Tx, bump: Uint64)
    requires Partition(pending, queue, all)
    ensures Admits(ListOf(pending, tx.sender), tx, bump) ==>
      Placed(all, Displacing(all, ListOf(pending, tx.sender), tx, true), tx, bump)
    ensures Admits(ListOf(queue, tx.sender), tx, bump) ==>
      Placed(all, Displacing(all, ListOf(queue, tx.sender), tx, true), tx, bump)
  {
    PartitionAt(pending, queue, all, tx.sender);
  }

  lemma ReplacementParts(pending: AccountLists, queue: AccountLists, all: set<Tx>, tx: Tx)
    requires Partition(pending, queue, all) && NoEmpty(pending) && NoEmpty(queue)
    requires tx !in all && tx.nonce in ListOf(pending, tx.sender)
    ensures Partition(Enqueued(pending, tx), queue, Displacing(all, ListOf(pending, tx.sender), tx, true))
    ensures NoEmpty(Enqueued(pending, tx))
  {
    var a := tx.sender;
    var p, q := ListOf(pending, a), ListOf(queue, a);
    PartitionAt(pending, queue, all, a);
    AccountReplace(a, p, q, all, tx);
    SetSame(queue, a);
    assert SameOthers(all, all - {p[tx.nonce]} + {tx}, a);
    PartitionStep(pending, queue, all, a, p[tx.nonce := tx], q, all - {p[tx.nonce]} + {tx});
    hide Partition, AccountOk, SameOthers;
  }

  lemma AdditionParts(pending: AccountLists, queue: AccountLists, all: set<Tx>, tx: Tx)
    requires Partition(pending, queue, all) && NoEmpty(pending) && NoEmpty(queue)
    requires tx !in all && tx.nonce !in ListOf(pending, tx.sender)
    ensures Partition(pending, Enqueued(queue, tx), Displacing(all, ListOf(queue, tx.sender), tx, true))
    ensures NoEmpty(Enqueued(queue, tx))
  {
    var a := tx.sender;
    var p, q := ListOf(pending, a), ListOf(queue, a);
    PartitionAt(pending, queue, all, a);
    AccountAdd(a, p, q, all, tx);
    SetSame(pending, a);
    assert SameOthers(all, Displacing(all, q, tx, true), a);
    PartitionStep(pending, queue, all, a, p, q[tx.nonce := tx], Displacing(all, q, tx, true));
    hide Partition, AccountOk, SameOthers;
  }

  lemma NoneLocalDisplacing(remotes: set<Tx>, locals: set<Address>, l: Txs, tx: Tx, add: bool)
    requires NoneLocal(remotes, locals) && (add ==> tx.sender !in locals)
    ensures NoneLocal(Displacing(remotes, l, tx, add), locals)
  {
  }

  lemma DisplacingParts(all: set<Tx>, l: Txs, tx: Tx)
    ensures forall add: bool {:trigger Displacing(all, l, tx, add)} ::
      && (tx.nonce !in l ==> Displacing(all, l, tx, add) == if add then all + {tx} else all)
      && (tx.nonce in l ==>
            Displacing(all, l, tx, add) == if add then all - {l[tx.nonce]} + {tx} else all - {l[tx.nonce]})
  {
  }

  lemma NoneLocalMigrated(remotes: set<Tx>, locals: set<Address>)
    ensures NoneLocal(remotes - OfSenders(remotes, locals), locals)
  {
  }

  lemma TracksFewer(heap: seq<Tx>, stales: int, live: set<Tx>, left: set<Tx>, count: nat)
    requires Tracks(heap, stales, live) && left <= live && count == |live| - |left|
    ensures Tracks(heap, stales + count, left)
  {
  }

  lemma SameKeysOk(phase: Phase, p: Txs, r: Txs, h: Limits, virtual: nat, tx: Tx)
    requires NonceOk(phase, p, h, virtual) && tx.gas <= h.gas
    requires r == p || (r == p[tx.nonce := tx] && tx.nonce in p && tx.cost <= h.balance)
    ensures NonceOk(phase, r, h, virtual)
  {
    assert forall n :: n in p <==> n in r;
    assert r.Keys == p.Keys && |r| == |r.Keys| == |p|;
    forall n | n in r && n >= h.nonce
      ensures Stretch(r, h.nonce, n)
    {
      assert Stretch(p, h.nonce, n);
    }
    if Costly(p, h) == map[] {
      forall n | n in r
        ensures n !in Costly(r, h)
      {
        assert n !in Costly(p, h);
      }
    }
  }

  lemma MidwayStarts(pending: AccountLists, queue: AccountLists, all: set<Tx>, a: Address)
    requires Partition(pending, queue, all)
    ensures Midway(all, all, a, ListOf(pending, a), ListOf(queue, a))
  {
    PartitionAt(pending, queue, all, a);
  }

  ghost function Minus(all: set<Tx>, m: Txs): (r: set<Tx>) {
    all - TxSet(m)
  }

  lemma MidwayDrop(was: set<Tx>, all: set<Tx>, a: Address, p: Txs, list: Txs, gone: Txs)
    requires Midway(was, all, a, p, list) && PartOf(gone, list)
    ensures Midway(was, Minus(all, gone), a, p, Without(list, gone)) && ByNonce(gone)
  {
    AccountDropQueued(a, p, list, all, gone);
  }

  lemma MidwayDropPending(was: set<Tx>, all: set<Tx>, a: Address, p: Txs, q: Txs, gone: Txs)
    requires Midway(was, all, a, p, q) && PartOf(gone, p)
    ensures Midway(was, Minus(all, gone), a, Without(p, gone), q) && ByNonce(gone)
  {
    AccountDropPending(a, p, q, all, gone);
  }

  lemma MidwayDemote(was: set<Tx>, all: set<Tx>, a: Address, p: Txs, q: Txs, moved: Txs)
    requires Midway(was, all, a, p, q) && PartOf(moved, p)
    ensures Midway(was, all, a, Without(p, moved), q + moved) && Owned(moved, a) && moved.Keys !! q.Keys
  {
    AccountDemote(a, p, q, all, moved);
  }

  lemma MidwayGap(was: set<Tx>, all: set<Tx>, a: Address, p: Txs, q: Txs)
    requires Midway(was, all, a, p, q)
    ensures Midway(was, all, a, map[], q + p) && Owned(p, a) && p.Keys !! q.Keys
  {
    MidwayDemote(was, all, a, p, q, p);
    assert Without(p, p) == map[];
  }

  lemma DemotedMidway(was: set<Tx>, all: set<Tx>, a: Address, p: Txs, q: Txs, h: Limits)
    requires Midway(was, all, a, Payable(p, h), q + Following(Young(p, h), Costly(p, h)))
    ensures Midway(was, all, a, Demoted(p, h), q + Requeued(p, h))
    ensures var kept, invalids := Payable(p, h), Following(Young(p, h), Costly(p, h));
      if kept != map[] && h.nonce !in kept then Demoted(p, h) == map[] && Requeued(p, h) == invalids + kept
      else Demoted(p, h) == kept && Requeued(p, h) == invalids + map[]
  {
    hide Midway, Payable, Following, Young, Costly, Owned;
    var kept, invalids := Payable(p, h), Following(Young(p, h), Costly(p, h));
    MidwayGap(was, all, a, kept, q + invalids);
    MergeAssociates(q, invalids, kept);
    MergeAssociates(q, invalids, map[]);
  }

  lemma KeysAfterSet(lists: AccountLists, a: Address, l: Txs)
    ensures SetList(lists, a, l).Keys <= lists.Keys + {a} && lists.Keys - {a} <= SetList(lists, a, l).Keys
  {
  }

  lemma DemoteParts(p: Txs, h: Limits)
    ensures var young := From(p, h.nonce); var drops := Unpayable(young, h.balance, h.gas);
      && PartOf(Before(p, h.nonce), p) && Without(p, Before(p, h.nonce)) == young && young == Young(p, h)
      && PartOf(drops, young) && drops == Costly(p, h)
      && PartOf(Following(young, drops), Without(young, drops))
      && Without(Without(young, drops), Following(young, drops)) == Leading(young, drops) == Payable(p, h)
  {
    LeadingIsWithout(From(p, h.nonce), Unpayable(From(p, h.nonce), h.balance, h.gas));
  }

  /** What a turn of the demotion makes of an account's lists and virtual nonce. */
  ghost predicate Demotes(h: Limits, p: Txs, q: Txs, virtual: nat, newP: Txs, newQ: Txs, next: nat) {
    newP == Demoted(p, h) && newQ == q + Requeued(p, h) && next == virtual
  }

  lemma MidwayPromote(was: set<Tx>, all: set<Tx>, a: Address, p: Txs, list: Txs, start: nat)
    requires Midway(was, all, a, p, list)
    ensures var run := ReadyTxs(list, start);
      Owned(run, a) && run.Keys !! p.Keys && Midway(was, all, a, p + run, Without(list, run))
  {
    var run := ReadyTxs(list, start);
    assert PartOf(run, list);
    AccountPromote(a, p, list, all, run);
    hide ReadyTxs;
  }

  lemma MidwayEnds(pending: AccountLists, queue: AccountLists, was: set<Tx>, all: set<Tx>, a: Address, p: Txs, q: Txs)
    requires Partition(pending, queue, was) && NoEmpty(pending) && NoEmpty(queue) && Midway(was, all, a, p, q)
    ensures Partition(SetList(pending, a, p), SetList(queue, a, q), all)
    ensures NoEmpty(SetList(pending, a, p)) && NoEmpty(SetList(queue, a, q))
  {
    PartitionStep(pending, queue, was, a, p, q, all);
    NoEmptySet(pending, a, p);
    NoEmptySet(queue, a, q);
  }

  /** What a turn makes of an account's lists and virtual nonce. */
  ghost predicate Promotes(h: Limits, cap: Option<nat>, p: Txs, q: Txs, virtual: nat, newP: Txs, newQ: Txs, next: nat) {
    && newP == Promoted(p, q, h, virtual)
    && newQ == Unpromoted(q, h, virtual, cap)
    && NextNonce(Promotable(q, h, virtual), virtual, next)
  }

  /** What a run makes of an account's lists: a promotion if it looks at the account, then a demotion after a reset. */
  ghost predicate Turned(h: Limits, cap: Option<nat>, look: bool, demote: bool, p: Txs, q: Txs, virtual: nat,
                         newP: Txs, newQ: Txs) {
    var p1 := if look then Promoted(p, q, h, virtual) else p;
    var q1 := if look then Unpromoted(q, h, virtual, cap) else q;
    if demote then newP == Demoted(p1, h) && newQ == q1 + Requeued(p1, h) else newP == p1 && newQ == q1
  }

  ghost predicate Unmoved(p: Txs, q: Txs, virtual: nat, newP: Txs, newQ: Txs, next: nat) {
    newP == p && newQ == q && next == virtual
  }

  lemma PromotesKeeps(h: Limits, p: Txs, q: Txs, virtual: nat, newP: Txs, next: nat, turn: bool)
    requires p.Keys !! q.Keys
    requires if turn then newP == Promoted(p, q, h, virtual) && NextNonce(Promotable(q, h, virtual), virtual, next)
             else newP == p && next == virtual
    ensures NonceOk(Idle, p, h, virtual) ==> NonceOk(Idle, newP, h, next)
    ensures NonceOk(Resetting, p, h, virtual) ==> FreshOk(newP, h, next)
  {
    if turn {
      if NonceOk(Idle, p, h, virtual) {
        PromotionKeeps(p, q, h, virtual, next);
      }
      if NonceOk(Resetting, p, h, virtual) {
        PromotionFresh(p, q, h, virtual, next);
      }
    }
    hide Promoted, Promotable, NextNonce, Costly;
  }

  /** Every transaction of either list was in one of two others. */
  ghost predicate Within(newP: Txs, newQ: Txs, p: Txs, q: Txs) {
    forall tx :: Has(newP, tx) || Has(newQ, tx) ==> Has(p, tx) || Has(q, tx)
  }

  lemma PromotesWithin(h: Limits, cap: Option<nat>, p: Txs, q: Txs, virtual: nat, newP: Txs, newQ: Txs, next: nat)
    requires Promotes(h, cap, p, q, virtual, newP, newQ, next)
    ensures Within(newP, newQ, p, q)
  {
    hide Promotable, Unready, Executable, Rank;
    RunCosts(q, h, virtual);
    UnpromotedPart(q, h, virtual, cap);
    UnreadyPart(q, h, virtual);
  }

  lemma UnreadyPart(q: Txs, h: Limits, virtual: nat)
    ensures PartOf(Unready(q, h, virtual), q)
  {
  }

  lemma DemotesWithin(h: Limits, p: Txs, q: Txs, virtual: nat, newP: Txs, newQ: Txs, next: nat)
    requires Demotes(h, p, q, virtual, newP, newQ, next)
    ensures Within(newP, newQ, p, q)
  {
  }

  /** Then a pool that the lists make up has gained nothing. */
  lemma NothingGained(pending: AccountLists, queue: AccountLists, all: set<Tx>,
                      newPending: AccountLists, newQueue: AccountLists, after: set<Tx>)
    requires Partition(pending, queue, all) && Partition(newPending, newQueue, after)
    requires forall a :: Within(ListOf(newPending, a), ListOf(newQueue, a), ListOf(pending, a), ListOf(queue, a))
    ensures after <= all
  {
    hide Has;
    forall tx | tx in after
      ensures tx in all
    {
      PartitionAt(pending, queue, all, tx.sender);
      PartitionAt(newPending, newQueue, after, tx.sender);
    }
  }

  lemma ShrunkWithin(pending: AccountLists, queue: AccountLists, newPending: AccountLists, newQueue: AccountLists,
                     a: Address)
    requires Shrunk(newPending, pending) && Shrunk(newQueue, queue)
    ensures Within(ListOf(newPending, a), ListOf(newQueue, a), ListOf(pending, a), ListOf(queue, a))
  {
    hide ListOf;
  }

  /** No transaction has the last 64-bit nonce. */
  ghost predicate NoLast(txs: set<Tx>) {
    forall tx | tx in txs :: tx.nonce < TWO_64 - 1
  }

  lemma NoLastPending(pending: AccountLists, queue: AccountLists, all: set<Tx>, a: Address)
    requires Partition(pending, queue, all) && NoLast(all)
    ensures TWO_64 - 1 !in ListOf(pending, a)
  {
    PartitionAt(pending, queue, all, a);
    var p := ListOf(pending, a);
    assert forall n | n in p :: p[n] in all;
  }

  lemma NothingPending(h: Limits, virtual: nat)
    ensures FreshOk(map[], h, virtual) ==> NonceOk(Idle, map[], h, virtual)
  {
  }

  lemma PromoteIs(p: Txs, q: Txs, h: Limits, virtual: nat, list: Txs)
    requires list == Executable(q, h)
    ensures ReadyTxs(list, virtual) == Promotable(q, h, virtual)
    ensures p + ReadyTxs(list, virtual) == Promoted(p, q, h, virtual)
    ensures Without(list, ReadyTxs(list, virtual)) == Unready(q, h, virtual)
  {
  }

  /** What stays queued is capped, and an account with nothing queued has nothing to promote. */
  lemma PromotedParts(pending: AccountLists, queue: AccountLists, a: Address, h: Limits, virtual: nat, cap: Option<nat>)
    requires NoEmpty(pending) && NoEmpty(queue)
    ensures Unpromoted(ListOf(queue, a), h, virtual, cap) == CappedTo(Unready(ListOf(queue, a), h, virtual), cap)
    ensures a !in queue ==> SetList(pending, a, Promoted(ListOf(pending, a), ListOf(queue, a), h, virtual)) == pending
    ensures a !in queue ==> SetList(queue, a, Unpromoted(ListOf(queue, a), h, virtual, cap)) == queue
    ensures a !in queue ==> NextNonce(Promotable(ListOf(queue, a), h, virtual), virtual, virtual)
  {
    if a !in queue {
      assert Executable(map[], h) == map[] && Promotable(map[], h, virtual) == map[];
      assert Unpromoted(map[], h, virtual, cap) == map[];
      assert Promoted(ListOf(pending, a), map[], h, virtual) == ListOf(pending, a);
      SetSame(pending, a);
      assert queue - {a} == queue;
    }
  }

  lemma NoneLocalMinus(remotes: set<Tx>, locals: set<Address>, m: Txs)
    requires NoneLocal(remotes, locals)
    ensures NoneLocal(Minus(remotes, m), locals)
  {
  }

  lemma CleanParts(q: Txs, h: Limits)
    ensures var rest := From(q, h.nonce); var drops := Unpayable(rest, h.balance, h.gas);
      && PartOf(Before(q, h.nonce), q) && Without(q, Before(q, h.nonce)) == rest
      && PartOf(drops, rest) && Executable(q, h) == Without(rest, drops)
  {
  }

  ghost predicate GoneAre(gone: set<Tx>, drop: seq<Tx>, i: nat) {
    i <= |drop| && (forall tx | tx in gone :: tx in drop) && forall j | 0 <= j < i :: drop[j] in gone
  }

  ghost function Left(all: set<Tx>, gone: set<Tx>): (r: set<Tx>) {
    all - gone
  }

  lemma GoneStarts(drop: seq<Tx>, all: set<Tx>)
    ensures GoneAre({}, drop, 0) && Left(all, {}) == all
  {
  }

  lemma GoneStep(gone: set<Tx>, drop: seq<Tx>, i: nat)
    requires GoneAre(gone, drop, i) && i < |drop|
    ensures GoneAre(gone + {drop[i]}, drop, i + 1)
  {
  }

  lemma GoneMore(all: set<Tx>, gone: set<Tx>, tx: Tx)
    ensures Left(all, gone) - {tx} == Left(all, gone + {tx})
  {
  }

  lemma GoneAll(gone: set<Tx>, drop: seq<Tx>, all: set<Tx>)
    requires GoneAre(gone, drop, |drop|)
    ensures forall tx :: tx in Left(all, gone) <==> tx in all && tx !in drop
  {
  }

  lemma TracksLess(heap: seq<Tx>, stales: int, live: set<Tx>, tx: Tx)
    requires Tracks(heap, stales, live)
    ensures Tracks(heap, stales + 1, live - {tx})
  {
  }

  lemma MinusNone(all: set<Tx>, m: Txs)
    ensures Minus(all, m - m.Keys) == all && m - {} == m
  {
  }

  lemma VisitedSet(m: Txs, todo: set<nat>, n: nat)
    requires todo <= m.Keys && n in todo
    ensures TxSet(m - (todo - {n})) == TxSet(m - todo) + {m[n]}
  {
    var a, b := m - todo, m - (todo - {n});
    assert n in b && b[n] == m[n];
    forall tx | tx in TxSet(a)
      ensures tx in TxSet(b)
    {
      var k :| k in a && a[k] == tx;
      assert k in b && b[k] == tx;
    }
    forall tx | tx in TxSet(b)
      ensures tx in TxSet(a) + {m[n]}
    {
      var k :| k in b && b[k] == tx;
      assert k != n ==> k in a && a[k] == tx;
    }
  }

  lemma MinusStep(all: set<Tx>, m: Txs, todo: set<nat>, n: nat)
    requires todo <= m.Keys && n in todo
    ensures Minus(all, m - (todo - {n})) == Minus(all, m - todo) - {m[n]}
  {
    VisitedSet(m, todo, n);
  }

  lemma FreeAdmits(l: Txs, tx: Tx, priceBump: Uint64)
    ensures tx.nonce in l || Admits(l, tx, priceBump)
  {
  }

  /** The nonces of the listing's transactions from the i-th on. */
  ghost predicate Remaining(todo: set<nat>, s: seq<Tx>, i: nat) {
    i <= |s| && |todo| == |s| - i && forall j | i <= j < |s| :: s[j].nonce in todo
  }

  /** The first `i` transactions of the listing of `run` have been added to the account's list. */
  ghost predicate Promoting(was: AccountLists, pending: AccountLists, a: Address, p: Txs, run: Txs, s: seq<Tx>,
                            i: nat) {
    && Lists(s, run) && Ascending(s) && Owned(run, a) && run.Keys !! p.Keys && i <= |s|
    && exists todo: set<nat> :: pending == SetList(was, a, p + (run - todo)) && Remaining(todo, s, i)
  }

  lemma OwnedByNonce(m: Txs, a: Address)
    requires Owned(m, a)
    ensures ByNonce(m)
  {
  }

  lemma RemainingStep(todo: set<nat>, s: seq<Tx>, i: nat)
    requires Remaining(todo, s, i) && Ascending(s) && i < |s|
    ensures s[i].nonce in todo && Remaining(todo - {s[i].nonce}, s, i + 1)
  {
    forall j | i < j < |s|
      ensures s[j].nonce in todo - {s[i].nonce}
    {
      assert Precedes(s, i, j);
    }
  }

  /** The virtual nonce after promoting the first `i` transactions. */
  ghost predicate NextAfter(s: seq<Tx>, i: nat, virtual: nat, next: nat) {
    i <= |s| && next == if i == 0 then virtual else Wrap(s[i-1].nonce + 1)
  }

  lemma PromotingStarts(pending: AccountLists, a: Address, run: Txs, s: seq<Tx>, virtual: nat)
    requires Lists(s, run) && Ascending(s) && Owned(run, a) && run.Keys !! ListOf(pending, a).Keys && NoEmpty(pending)
    ensures Promoting(pending, pending, a, ListOf(pending, a), run, s, 0)
    ensures NextAfter(s, 0, virtual, virtual)
  {
    RequeueNothing(pending, a, run);
    assert Remaining(run.Keys, s, 0);
  }

  lemma PromotingNext(was: AccountLists, pending: AccountLists, a: Address, p: Txs, run: Txs, s: seq<Tx>, i: nat,
                      todo: set<nat>)
    requires Lists(s, run) && Ascending(s) && Owned(run, a) && run.Keys !! p.Keys && i <= |s|
    requires pending == SetList(was, a, p + (run - todo)) && Remaining(todo, s, i)
    ensures Promoting(was, pending, a, p, run, s, i)
  {
  }

  lemma PromotingStep(was: AccountLists, pending: AccountLists, a: Address, p: Txs, run: Txs, s: seq<Tx>, i: nat,
                      bump: Uint64)
    requires Promoting(was, pending, a, p, run, s, i) && i < |s|
    ensures s[i].sender == a && s[i].nonce !in ListOf(pending, a) && Admits(ListOf(pending, a), s[i], bump)
    ensures Promoting(was, Enqueued(pending, s[i]), a, p, run, s, i + 1)
  {
    var todo: set<nat> :| pending == SetList(was, a, p + (run - todo)) && Remaining(todo, s, i);
    var n := s[i].nonce;
    assert n in run && run[n] == s[i] && s[i].sender == a;
    RemainingStep(todo, s, i);
    ListOfSet(was, a, p + (run - todo), a);
    hide *;
    RequeueStep(was, a, p, run, todo, n);
    FreeAdmits(p + (run - todo), s[i], bump);
    PromotingNext(was, Enqueued(pending, s[i]), a, p, run, s, i + 1, todo - {n});
  }

  lemma PromotingEnds(was: AccountLists, pending: AccountLists, a: Address, p: Txs, run: Txs, s: seq<Tx>)
    requires Promoting(was, pending, a, p, run, s, |s|)
    ensures pending == SetList(was, a, p + run)
  {
    var todo: set<nat> :| pending == SetList(was, a, p + (run - todo)) && Remaining(todo, s, |s|);
    assert todo == {} && run - todo == run;
  }

  lemma NextAfterStep(s: seq<Tx>, i: nat, virtual: nat)
    requires i < |s|
    ensures NextAfter(s, i + 1, virtual, Wrap(s[i].nonce + 1))
  {
  }

  lemma NextIs(run: Txs, virtual: nat, s: seq<Tx>, next: nat)
    requires Lists(s, run) && Ascending(s) && NextAfter(s, |s|, virtual, next)
    ensures NextNonce(run, virtual, next)
  {
    LastIsGreatest(s, run);
  }

  /** What a transaction takes the place of leaves the pool. */
  lemma ReplacedGone(pending: AccountLists, queue: AccountLists, all: set<Tx>, tx: Tx)
    requires Partition(pending, queue, all) && tx !in all
    ensures tx.nonce in ListOf(pending, tx.sender) ==>
      exists t :: t in all && t !in Displacing(all, ListOf(pending, tx.sender), tx, true)
    ensures tx.nonce in ListOf(queue, tx.sender) ==>
      exists t :: t in all && t !in Displacing(all, ListOf(queue, tx.sender), tx, true)
  {
    var p, q := ListOf(pending, tx.sender), ListOf(queue, tx.sender);
    PartitionAt(pending, queue, all, tx.sender);
    if tx.nonce in p {
      assert Has(p, p[tx.nonce]) && p[tx.nonce] in all && p[tx.nonce] !in Displacing(all, p, tx, true);
    }
    if tx.nonce in q {
      assert Has(q, q[tx.nonce]) && q[tx.nonce] in all && q[tx.nonce] !in Displacing(all, q, tx, true);
    }
  }

  lemma EnqueuedHas(lists: AccountLists, tx: Tx)
    ensures Has(ListOf(Enqueued(lists, tx), tx.sender), tx)
  {
  }

  lemma PromotedAccountUnstuck(pending: AccountLists, queue: AccountLists, all: set<Tx>, a: Address, h: Limits,
                               virtual: nat, cap: Option<nat>, next: nat)
    requires Partition(pending, queue, all) && NextNonce(Promotable(ListOf(queue, a), h, virtual), virtual, next)
    ensures next !in Unpromoted(ListOf(queue, a), h, virtual, cap)
  {
    PartitionAt(pending, queue, all, a);
    PromotionUnstuck(ListOf(queue, a), h, virtual, cap, next);
  }
}
