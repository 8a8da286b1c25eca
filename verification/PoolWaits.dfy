/** core/tx_pool.go, one account at a time: when a run of the pool leaves a transaction queued although its nonce is
    the one right after the account's pending list. */
module PoolWaits {
  import opened Common
  import opened Transactions
  import opened SortedMaps
  import opened TxLists
  import opened PoolAccounts
  import opened PoolLists
  import opened PoolSteps
  import opened PoolTotals

  /** The nonce right after a pending list is queued. */
  predicate NextQueued(p: Txs, q: Txs, nonce: nat) {
    nonce + |p| in q
  }

  /** Nothing is ready at the virtual nonce, and what stays queued holds the nonce after what stays pending. */
  predicate Waits(p: Txs, q: Txs, h: Limits, virtual: nat, cap: Option<nat>) {
    Promotable(q, h, virtual) == map[] && NextQueued(Payable(p, h), Unpromoted(q, h, virtual, cap), h.nonce)
  }

  /** The queue that a promotion and the demotion after it leave. */
  function QueueLeft(p: Txs, q: Txs, h: Limits, virtual: nat, cap: Option<nat>): (r: Txs) {
    Unpromoted(q, h, virtual, cap) + Requeued(Promoted(p, q, h, virtual), h)
  }

  /** What goes back to the queue does not start where the pending list stops. */
  lemma RequeuedLater(p: Txs, h: Limits)
    requires Contiguous(p, h.nonce)
    ensures Demoted(p, h) == Payable(p, h) && !NextQueued(Payable(p, h), Requeued(p, h), h.nonce)
    ensures Consecutive(Payable(p, h), h.nonce)
  {
    assert FreshOk(p, h, h.nonce);
    DemotionKeeps(p, h, h.nonce);
    GaplessIsConsecutive(Payable(p, h), h.nonce);
    assert forall k | k in Costly(p, h) :: k >= h.nonce && k !in Payable(p, h);
  }

  lemma PromotedNothing(p: Txs, q: Txs, h: Limits, virtual: nat)
    requires Promotable(q, h, virtual) == map[]
    ensures Promoted(p, q, h, virtual) == p
  {
    hide Promotable;
  }

  lemma QueueLeftHas(p: Txs, q: Txs, h: Limits, virtual: nat, cap: Option<nat>, n: nat)
    ensures n in QueueLeft(p, q, h, virtual, cap)
       <==> n in Unpromoted(q, h, virtual, cap) || n in Requeued(Promoted(p, q, h, virtual), h)
  {
    hide Unpromoted, Requeued, Promoted;
  }

  lemma WaitsUnready(p: Txs, q: Txs, h: Limits, virtual: nat, cap: Option<nat>)
    requires Contiguous(p, h.nonce) && Promotable(q, h, virtual) == map[]
    ensures NextQueued(Demoted(Promoted(p, q, h, virtual), h), QueueLeft(p, q, h, virtual, cap), h.nonce)
       <==> Waits(p, q, h, virtual, cap)
  {
    hide Promotable, Promoted, Payable, Demoted, Requeued, Unpromoted, QueueLeft, Contiguous, Consecutive;
    PromotedNothing(p, q, h, virtual);
    RequeuedLater(p, h);
    QueueLeftHas(p, q, h, virtual, cap, h.nonce + |Payable(p, h)|);
  }

  /** A run that is ready starts at the virtual nonce and ends where the executable transactions have a gap. */
  lemma RunEnds(p: Txs, q: Txs, h: Limits, virtual: nat) returns (last: nat)
    requires Reaches(p, h.nonce, virtual) && p.Keys !! q.Keys && Promotable(q, h, virtual) != map[]
    ensures IsGreatest(Promotable(q, h, virtual), last) && h.nonce <= virtual <= last && virtual !in p
    ensures last + 1 !in Executable(q, h)
  {
    var ex, run := Executable(q, h), Promotable(q, h, virtual);
    RunMeets(p, q, h, virtual);
    last := HasGreatest(run);
    var low := HasLeast(ex);
    ReadyRun(ex, low, virtual);
    RunStops(ex, low, last);
  }

  /** A list without gaps ends below a nonce it lacks. */
  lemma EndsBelow(p: Txs, nonce: nat, n: nat)
    requires Contiguous(p, nonce) && n >= nonce
    ensures n in p || forall k | k in p :: k < n
  {
    forall k | k in p && k >= n
      ensures n in p
    {
      assert Stretch(p, nonce, k);
    }
  }

  lemma PromotedCosts(phase: Phase, p: Txs, q: Txs, h: Limits, virtual: nat)
    requires phase in {Idle, Resetting} && NonceOk(phase, p, h, virtual) && p.Keys !! q.Keys
    requires Promotable(q, h, virtual) != map[]
    ensures Contiguous(Promoted(p, q, h, virtual), h.nonce) && Costly(Promoted(p, q, h, virtual), h) == map[]
  {
    hide Promotable, Costly, Contiguous, Reaches;
    RunMeets(p, q, h, virtual);
    RunCosts(q, h, virtual);
    JoinContiguous(p, Promotable(q, h, virtual), h.nonce, virtual);
    if phase == Idle {
      CostlyJoin(p, Promotable(q, h, virtual), h);
    } else {
      EndsBelow(p, h.nonce, virtual);
      OnlyRunCosts(p, Promotable(q, h, virtual), h);
    }
  }

  /** The last of the run is the last of the list it joins. */
  lemma JoinedLast(p: Txs, run: Txs, h: Limits, last: nat)
    requires Consecutive(Young(p + run, h), h.nonce) && IsGreatest(run, last) && last >= h.nonce
    requires forall k | k in p :: k < last
    ensures h.nonce + |Young(p + run, h)| == last + 1
  {
    var left := Young(p + run, h);
    assert last in left && last + 1 !in left;
  }

  lemma NothingRequeued(p: Txs, h: Limits)
    requires Costly(p, h) == map[] && Contiguous(p, h.nonce)
    ensures Requeued(p, h) == map[] && Demoted(p, h) == Young(p, h) && Consecutive(Young(p, h), h.nonce)
  {
    NothingCostly(p, h);
    RequeuedLater(p, h);
    assert FreshOk(p, h, h.nonce);
    DemotionKeeps(p, h, h.nonce);
  }

  lemma ReadyNeverWaits(phase: Phase, p: Txs, q: Txs, h: Limits, virtual: nat, cap: Option<nat>)
    requires phase in {Idle, Resetting} && NonceOk(phase, p, h, virtual) && p.Keys !! q.Keys
    requires Promotable(q, h, virtual) != map[]
    ensures !NextQueued(Demoted(Promoted(p, q, h, virtual), h), QueueLeft(p, q, h, virtual, cap), h.nonce)
  {
    hide Promotable, Executable, Unpromoted, Requeued, Demoted, QueueLeft, Young, Costly, Contiguous, Consecutive,
      Reaches;
    var last := RunEnds(p, q, h, virtual);
    EndsBelow(p, h.nonce, virtual);
    PromotedCosts(phase, p, q, h, virtual);
    NothingRequeued(Promoted(p, q, h, virtual), h);
    JoinedLast(p, Promotable(q, h, virtual), h, last);
    UnpromotedExecutable(q, h, virtual, cap);
    QueueLeftHas(p, q, h, virtual, cap, last + 1);
  }

  /** A run leaves a transaction queued right after the pending list exactly when `Waits` held before it: with nothing
      ready at the virtual nonce, and queued what would come next. */
  lemma WaitsExactly(phase: Phase, p: Txs, q: Txs, h: Limits, virtual: nat, cap: Option<nat>)
    requires phase in {Idle, Resetting} && NonceOk(phase, p, h, virtual) && p.Keys !! q.Keys
    ensures NextQueued(Demoted(Promoted(p, q, h, virtual), h), QueueLeft(p, q, h, virtual, cap), h.nonce)
       <==> Waits(p, q, h, virtual, cap)
  {
    hide Promotable, Demoted, QueueLeft, NextQueued;
    if Promotable(q, h, virtual) == map[] {
      WaitsUnready(p, q, h, virtual, cap);
    } else {
      ReadyNeverWaits(phase, p, q, h, virtual, cap);
    }
  }

  lemma EmptyQueue(p: Txs, h: Limits, virtual: nat, cap: Option<nat>)
    ensures Promoted(p, map[], h, virtual) == p && Unpromoted(map[], h, virtual, cap) == map[]
    ensures Promotable(map[], h, virtual) == map[]
  {
    RunCosts(map[], h, virtual);
    UnpromotedExecutable(map[], h, virtual, cap);
  }

  /** Something promoted stays pending. */
  lemma ReadyStays(phase: Phase, p: Txs, q: Txs, h: Limits, virtual: nat)
    requires phase in {Idle, Resetting} && NonceOk(phase, p, h, virtual) && p.Keys !! q.Keys
    requires Promotable(q, h, virtual) != map[]
    ensures Demoted(Promoted(p, q, h, virtual), h) != map[]
  {
    hide Promotable, Executable, Demoted, Costly, Contiguous, Consecutive, Reaches, Requeued;
    var last := RunEnds(p, q, h, virtual);
    PromotedCosts(phase, p, q, h, virtual);
    NothingRequeued(Promoted(p, q, h, virtual), h);
    assert last in Young(Promoted(p, q, h, virtual), h);
  }

  /** What an account's turn of the promotion, or the lack of one, makes of what the demotion will find. */
  lemma PromotionLeaves(phase: Phase, p: Txs, q: Txs, h: Limits, virtual: nat, cap: Option<nat>,
                        newP: Txs, newQ: Txs, next: nat, turn: bool)
    requires phase in {Idle, Resetting} && NonceOk(phase, p, h, virtual) && p.Keys !! q.Keys
    requires if turn then Promotes(h, cap, p, q, virtual, newP, newQ, next)
             else Unmoved(p, q, virtual, newP, newQ, next)
    ensures turn || q == map[] ==>
      (NextQueued(Demoted(newP, h), newQ + Requeued(newP, h), h.nonce) <==> Waits(p, q, h, virtual, cap))
    ensures Demoted(newP, h) == map[] ==> next == virtual
  {
    hide Promotable, Promoted, Unpromoted, Demoted, Requeued, Waits, NextQueued, NonceOk;
    EmptyQueue(p, h, virtual, cap);
    WaitsExactly(phase, p, q, h, virtual, cap);
    if Promotable(q, h, virtual) != map[] {
      ReadyStays(phase, p, q, h, virtual);
    }
  }

  /** Between two resets the demotion has nothing to do. */
  lemma NothingToDemote(p: Txs, q: Txs, h: Limits, virtual: nat)
    requires NonceOk(Idle, p, h, virtual)
    ensures Demoted(p, h) == p && q + Requeued(p, h) == q
  {
    hide Demoted, Requeued, Young, Costly, Consecutive, Contiguous;
    NothingRequeued(p, h);
    AllYoung(p, h);
  }

  /** A list cut at its end is followed by something that was pending, so not by something queued. */
  lemma ShorterNext(p: Txs, r: Txs, q: Txs, h: Limits, virtual: nat)
    requires NonceOk(Idle, p, h, virtual) && p.Keys !! q.Keys && |r| <= |p| && !NextQueued(p, q, h.nonce)
    ensures !NextQueued(r, q, h.nonce)
  {
    GaplessIsConsecutive(p, h.nonce);
    assert |r| < |p| ==> h.nonce + |r| in p;
  }

  /** A promotion or none, then a demotion or none, is a turn; with nothing queued a promotion changes nothing. */
  lemma TurnEnds(h: Limits, cap: Option<nat>, turn: bool, look: bool, demote: bool, p: Txs, q: Txs, virtual: nat,
                 p1: Txs, q1: Txs, next: nat, newP: Txs, newQ: Txs)
    requires if turn then Promotes(h, cap, p, q, virtual, p1, q1, next) else Unmoved(p, q, virtual, p1, q1, next)
    requires if demote && p1 != map[] then Demotes(h, p1, q1, next, newP, newQ, next)
             else Unmoved(p1, q1, next, newP, newQ, next)
    requires turn == look || q == map[]
    ensures Turned(h, cap, look, demote, p, q, virtual, newP, newQ)
  {
    hide Promotable, Promoted, Unpromoted, Demoted, Requeued, NextNonce;
    EmptyQueue(p, h, virtual, cap);
    NothingToDemote(map[], q1, h, 0);
  }

  /** What is executable at the virtual nonce is ready. */
  lemma ReadyAtVirtual(q: Txs, h: Limits, virtual: nat)
    requires virtual in Executable(q, h)
    ensures Promotable(q, h, virtual) != map[]
  {
    var ex := Executable(q, h);
    var low := HasLeast(ex);
    ReadyRun(ex, low, virtual);
    RunHasFirst(ex, low);
  }

  lemma UnpromotedExecutable(q: Txs, h: Limits, virtual: nat, cap: Option<nat>)
    ensures PartOf(Unpromoted(q, h, virtual, cap), Executable(q, h))
  {
    hide Unpromoted, Executable, Promotable;
    UnpromotedPart(q, h, virtual, cap);
  }

  /** Between two resets an account waits exactly when its virtual nonce was not the one after its pending list, and
      that one was queued and can be executed. */
  lemma WaitsBetweenResets(p: Txs, q: Txs, h: Limits, virtual: nat, cap: Option<nat>)
    requires NonceOk(Idle, p, h, virtual) && p.Keys !! q.Keys
    ensures Waits(p, q, h, virtual, cap)
       <==> virtual != h.nonce + |p| && NextQueued(p, Unpromoted(q, h, virtual, cap), h.nonce)
  {
    hide Promotable, Executable, Unpromoted, Payable, Costly, Young;
    AllYoung(p, h);
    NothingCostly(p, h);
    assert Payable(p, h) == p;
    GaplessIsConsecutive(p, h.nonce);
    UnpromotedExecutable(q, h, virtual, cap);
    if Promotable(q, h, virtual) != map[] {
      RunMeets(p, q, h, virtual);
      assert virtual !in p;
      assert h.nonce + |p| !in p;
      assert virtual == h.nonce + |p|;
    } else if virtual in Executable(q, h) {
      ReadyAtVirtual(q, h, virtual);
    }
  }

  /** Right after a reset, with the virtual nonce back at the state nonce, an account waits exactly when its pending
      list survives at the front, the state nonce is not queued, and the nonce after the list is. */
  lemma WaitsAfterReset(p: Txs, q: Txs, h: Limits, cap: Option<nat>)
    ensures Waits(p, q, h, h.nonce, cap)
       <==> h.nonce !in Executable(q, h) && Payable(p, h) != map[]
            && NextQueued(Payable(p, h), Unpromoted(q, h, h.nonce, cap), h.nonce)
  {
    hide Promotable, Executable, Unpromoted, Payable, RunFrom;
    RunFromNonce(q, h);
    RunNonEmpty(Executable(q, h), h.nonce);
    UnpromotedExecutable(q, h, h.nonce, cap);
  }

  /** With the virtual nonce right after the pending list nothing waits. */
  lemma NeverWaitsExact(phase: Phase, p: Txs, q: Txs, h: Limits, virtual: nat, cap: Option<nat>)
    requires phase in {Idle, Resetting} && NonceOk(phase, p, h, virtual) && p.Keys !! q.Keys
    requires virtual == h.nonce + |p|
    ensures !Waits(p, q, h, virtual, cap)
  {
    hide Waits, Costly, Contiguous, Reaches, Executable, NextQueued, Unpromoted;
    if phase == Idle {
      WaitsBetweenResets(p, q, h, virtual, cap);
    } else {
      WaitsAfterReset(p, q, h, cap);
      assert |p.Keys| == 0 && p == map[];
    }
  }

  /** One queued transaction that can be executed. */
  lemma OneQueued(q: Txs, h: Limits, n: nat, virtual: nat)
    requires q.Keys == {n} && h.nonce <= n && Unpayable(q, h.balance, h.gas) == map[]
    ensures Promotable(q, h, virtual) == (if n <= virtual then q else map[])
    ensures virtual < n ==> Unpromoted(q, h, virtual, None) == q
  {
    AllExecutable(q, h);
    OneRun(q, n);
    ReadyRun(q, n, virtual);
    assert virtual < n ==> Without(q, map[]) == q;
    hide Executable, ReadyTxs, RunFrom, Unpayable;
  }

  lemma OnePending(p: Txs, h: Limits)
    requires p.Keys == {h.nonce} && Unpayable(p, h.balance, h.gas) == map[]
    ensures Payable(p, h) == p && |p| == 1 && NonceOk(Reported, p, h, h.nonce + 1)
    ensures NonceOk(Resetting, p, h, h.nonce)
  {
    AllPayable(p, h);
    AllYoung(p, h);
    assert |p| == |p.Keys| == 1;
    assert p != map[];
  }

  /** Nonce 5 pending, nonce 6 just queued, and a head that changes nothing for the account taken up by the same run:
      without the head nonce 6 would be promoted; with it the virtual nonce is back at 5 and nonce 6 stays queued. */
  lemma WaitsOccur(p: Txs, q: Txs, h: Limits)
    requires p.Keys == {5} && q.Keys == {6} && h.nonce == 5
    requires Unpayable(p, h.balance, h.gas) == map[] && Unpayable(q, h.balance, h.gas) == map[]
    ensures NonceOk(Reported, p, h, 6) && Promotable(q, h, 6) == q
    ensures NonceOk(Resetting, p, h, 5) && AfterReset(p, q, h) == p && NextQueued(p, QueueLeft(p, q, h, 5, None), 5)
  {
    hide Executable, Payable, RunFrom, Unpayable, Unpromoted, Promotable, Requeued, Promoted, NonceOk, QueueLeft,
      Costly;
    OneQueued(q, h, 6, 6);
    OneQueued(q, h, 6, 5);
    OnePending(p, h);
    PromotedNothing(p, q, h, 5);
    ResetsContiguous(p, h, 5);
    RequeuedLater(p, h);
    QueueLeftHas(p, q, h, 5, None, 6);
  }

  lemma ResetsContiguous(p: Txs, h: Limits, virtual: nat)
    requires NonceOk(Resetting, p, h, virtual)
    ensures Contiguous(p, h.nonce)
  {
  }

  /** Nonces 5 and 6 pending, a head that moves the account to nonce 7, nonce 7 queued, and nonce 5 evicted to make
      room before the promotion: the virtual nonce is 5 and nothing is ready, so nonce 7 stays queued. */
  lemma LaggingOccurs(p: Txs, q: Txs, h: Limits)
    requires p.Keys == {5, 6} && q.Keys == {7} && h.nonce == 7
    requires Unpayable(q, h.balance, h.gas) == map[]
    ensures NonceOk(Resetting, p, h, 7) && !Waits(p, q, h, 7, None)
    ensures LeftPending(p, 5) == map[] && Min(7, 5) == 5 && Waits(map[], q, h, 5, None)
  {
    hide Executable, Unpromoted, Promotable;
    OneQueued(q, h, 7, 7);
    OneQueued(q, h, 7, 5);
    assert q != map[];
  }

  // ---- Nothing of use is lost ----

  /** A transaction the head still takes and pays for. */
  predicate Useful(tx: Tx, h: Limits) {
    tx.nonce >= h.nonce && tx.cost <= h.balance && tx.gas <= h.gas
  }

  /** The transactions of either list. */
  ghost predicate Either(p: Txs, q: Txs, tx: Tx) {
    Has(p, tx) || Has(q, tx)
  }

  lemma DemotionKeepsUseful(p: Txs, h: Limits, tx: Tx)
    ensures Either(Demoted(p, h), Requeued(p, h), tx) <==> Has(p, tx) && Useful(tx, h)
  {
    var young, costly := Young(p, h), Costly(p, h);
    assert Has(p, tx) && Useful(tx, h) <==> Has(young, tx) && tx.nonce !in costly;
    assert Has(young, tx) && tx.nonce !in costly <==>
      Has(Leading(young, costly), tx) || Has(Following(young, costly), tx);
  }

  lemma ExecutableUseful(q: Txs, h: Limits, tx: Tx)
    ensures Has(Executable(q, h), tx) <==> Has(q, tx) && Useful(tx, h)
  {
  }

  lemma PromotionSplits(q: Txs, h: Limits, virtual: nat, cap: Option<nat>, tx: Tx)
    requires cap.None? || |Unready(q, h, virtual)| <= cap.value
    ensures Either(Promotable(q, h, virtual), Unpromoted(q, h, virtual, cap), tx) <==> Has(Executable(q, h), tx)
  {
    var ex, run, rest := Executable(q, h), Promotable(q, h, virtual), Unready(q, h, virtual);
    assert PartOf(run, ex);
    assert Has(ex, tx) <==> Has(run, tx) || Has(rest, tx);
    hide Executable, Promotable, Unready, Rank;
    if cap.Some? {
      CappedAll(rest, cap.value);
    }
  }

  /** An account over its allowance keeps exactly that many queued, those with the lowest nonces. */
  lemma AllowanceKeeps(q: Txs, h: Limits, virtual: nat, cap: nat)
    ensures var rest, kept := Unready(q, h, virtual), Unpromoted(q, h, virtual, Some(cap));
      && |kept| == Min(|rest|, cap)
      && forall n, k | n in kept && k in rest && k !in kept :: n < k
  {
    hide Unready;
    var rest, kept := Unready(q, h, virtual), Unpromoted(q, h, virtual, Some(cap));
    CappedSize(rest, cap);
    forall n, k | n in kept && k in rest && k !in kept
      ensures n < k
    {
      if k < n {
        assert (set j | j in rest && j < k) <= (set j | j in rest && j < n);
        SubsetSize(set j | j in rest && j < k, set j | j in rest && j < n);
      }
    }
  }

  /** Promotion and demotion lose exactly the transactions that are no longer of use, as long as the account is within
      its allowance of queued ones. */
  lemma TurnKeeps(h: Limits, cap: Option<nat>, p: Txs, q: Txs, virtual: nat, newP: Txs, newQ: Txs, tx: Tx)
    requires Turned(h, cap, true, true, p, q, virtual, newP, newQ) && p.Keys !! q.Keys
    requires cap.None? || |Unready(q, h, virtual)| <= cap.value
    ensures Either(newP, newQ, tx) <==> Either(p, q, tx) && Useful(tx, h)
  {
    hide Promotable, Executable, Unpromoted, Demoted, Requeued, Unready, Useful;
    var run, left := Promotable(q, h, virtual), Unpromoted(q, h, virtual, cap);
    DemotionKeepsUseful(p + run, h, tx);
    ExecutableUseful(q, h, tx);
    PromotionSplits(q, h, virtual, cap, tx);
    TurnDisjoint(p, q, h, virtual, cap);
    assert Has(p + run, tx) <==> Has(p, tx) || Has(run, tx);
  }

  lemma TurnDisjoint(p: Txs, q: Txs, h: Limits, virtual: nat, cap: Option<nat>)
    requires p.Keys !! q.Keys
    ensures var run := Promotable(q, h, virtual);
      run.Keys !! p.Keys && Unpromoted(q, h, virtual, cap).Keys !! Requeued(p + run, h).Keys
  {
    var run := Promotable(q, h, virtual);
    RunCosts(q, h, virtual);
    UnpromotedPart(q, h, virtual, cap);
    UnreadyPart(q, h, virtual);
    assert PartOf(Requeued(p + run, h), p + run);
    assert forall n | n in Unready(q, h, virtual) :: n !in run;
    hide Promotable, Unready, Unpromoted, Requeued;
  }
}
