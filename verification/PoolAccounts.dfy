/** core/tx_pool.go, one account at a time: what promotion, demotion and removal do to the account's pending
    and queued lists and to its virtual nonce, as functions of plain maps. */
module PoolAccounts {
  import opened Common
  import opened Transactions
  import opened SortedMaps
  import opened TxLists

  /** What the head says of an account: its nonce, its balance and the block gas limit. */
  datatype Limits = Limits(nonce: Uint64, balance: int, gas: nat)

  // ---- Promotion ----

  /** The queued transactions that are neither too old nor too costly. */
  function Executable(q: Txs, h: Limits): (r: Txs) {
    Without(From(q, h.nonce), Unpayable(From(q, h.nonce), h.balance, h.gas))
  }

  function Promotable(q: Txs, h: Limits, virtual: nat): (r: Txs) {
    ReadyTxs(Executable(q, h), virtual)
  }

  function Promoted(p: Txs, q: Txs, h: Limits, virtual: nat): (r: Txs) {
    p + Promotable(q, h, virtual)
  }

  /** What stays queued; `cap` is absent for local accounts. */
  function Unpromoted(q: Txs, h: Limits, virtual: nat, cap: Option<nat>): (r: Txs) {
    CappedTo(Unready(q, h, virtual), cap)
  }

  function Unready(q: Txs, h: Limits, virtual: nat): (r: Txs) {
    Without(Executable(q, h), Promotable(q, h, virtual))
  }

  function CappedTo(list: Txs, cap: Option<nat>): (r: Txs) {
    if cap.Some? then Capped(list, cap.value) else list
  }

  ghost predicate IsGreatest(m: Txs, n: nat) {
    n in m && forall k | k in m :: k <= n
  }

  /** The virtual nonce after promoting a run. */
  ghost predicate NextNonce(run: Txs, virtual: nat, next: nat) {
    if run == map[] then next == virtual else exists last: nat :: IsGreatest(run, last) && next == Wrap(last + 1)
  }

  // ---- Demotion ----

  function Young(p: Txs, h: Limits): (r: Txs) {
    From(p, h.nonce)
  }

  function Costly(p: Txs, h: Limits): (r: Txs) {
    Unpayable(Young(p, h), h.balance, h.gas)
  }

  /** What is left of the strict list before the check for a gap at its front. */
  function Payable(p: Txs, h: Limits): (r: Txs) {
    Leading(Young(p, h), Costly(p, h))
  }

  predicate FrontGap(p: Txs, h: Limits) {
    Payable(p, h) != map[] && h.nonce !in Payable(p, h)
  }

  function Demoted(p: Txs, h: Limits): (r: Txs) {
    if FrontGap(p, h) then map[] else Payable(p, h)
  }

  /** What goes back to the queue. */
  function Requeued(p: Txs, h: Limits): (r: Txs) {
    Following(Young(p, h), Costly(p, h)) + if FrontGap(p, h) then Payable(p, h) else map[]
  }

  // ---- Removal ----

  function LeftPending(p: Txs, n: nat): (r: Txs) {
    if n in p then Before(p, n) else p
  }

  function LeftQueued(p: Txs, q: Txs, n: nat): (r: Txs) {
    if n in p then q + From(p, n + 1) else q - {n}
  }

  // ---- Nonces ----

  /** From the state nonce on, the pending list has no gap. */
  ghost predicate Contiguous(p: Txs, nonce: nat) {
    forall n | n in p && n >= nonce :: Stretch(p, nonce, n)
  }

  ghost predicate AtLeast(p: Txs, nonce: nat) {
    forall n | n in p :: n >= nonce
  }

  /** The nonces from the state nonce up to the virtual one are pending. */
  ghost predicate Reaches(p: Txs, nonce: nat, virtual: nat) {
    forall n | nonce <= n < virtual :: n in p
  }

  /** Between two resets; from a reset until the account's promotion; between two resets once a run has reported
      the virtual nonces, and the same while no list has reached the last 64-bit nonce; from a reset until the
      promotion, with the pending lists of before it. */
  datatype Phase = Idle | Resetting | Reported | Counted | Since(was: map<Address, Txs>)

  /** The pending list has no gap and reaches up to the virtual nonce. Between two resets it starts at the state nonce
      and the head pays for all of it; from a reset until the promotion the virtual nonce is not above the state nonce.
      Once reported, the virtual nonce is the one after the last, or 0 if that was once the last 64-bit nonce. */
  ghost predicate NonceOk(phase: Phase, p: Txs, h: Limits, virtual: nat) {
    && Contiguous(p, h.nonce)
    && Reaches(p, h.nonce, virtual)
    && (if phase.Resetting? || phase.Since? then virtual <= h.nonce
        else AtLeast(p, h.nonce) && Costly(p, h) == map[])
    && (phase.Reported? && p != map[] ==> virtual == h.nonce + |p| || virtual == 0)
    && (phase.Counted? && p != map[] ==> virtual == h.nonce + |p| < TWO_64)
  }

  /** A list that evictions have cut since the virtual nonce was the state nonce: the virtual nonce is the lowest
      nonce that was lost, if that is below the state nonce. */
  ghost predicate CutSince(was: Txs, p: Txs, nonce: nat, virtual: nat) {
    && p.Keys <= was.Keys
    && (forall n | n in was && n !in p :: virtual <= n)
    && (virtual == nonce || (virtual < nonce && virtual in was && virtual !in p))
  }

  lemma RemovalCuts(was: Txs, p: Txs, nonce: nat, virtual: nat, n: nat)
    requires CutSince(was, p, nonce, virtual)
    ensures CutSince(was, LeftPending(p, n), nonce, if n in p then Min(virtual, n) else virtual)
  {
  }

  /** Nothing below the nonce was lost. */
  ghost predicate KeptBelow(was: Txs, p: Txs, nonce: nat) {
    forall n | n in was && n < nonce :: n in p
  }

  /** The virtual nonce is still the state nonce exactly when nothing below the state nonce was lost. */
  lemma CutExactly(was: Txs, p: Txs, nonce: nat, virtual: nat)
    requires CutSince(was, p, nonce, virtual)
    ensures virtual == nonce <==> KeptBelow(was, p, nonce)
  {
    assert virtual != nonce ==> virtual in was && virtual !in p;
  }

  /** Between promotion and demotion after a reset: a virtual nonce above the state nonce comes from
      transactions that the new head pays for. */
  ghost predicate FreshOk(p: Txs, h: Limits, virtual: nat) {
    && Contiguous(p, h.nonce)
    && Reaches(p, h.nonce, virtual)
    && (virtual > h.nonce ==> Costly(p, h) == map[])
  }

  /** The list is exactly the state nonce, the one after it, and so on. */
  ghost predicate Consecutive(p: Txs, nonce: nat) {
    forall n: nat :: n in p <==> nonce <= n < nonce + |p|
  }

  ghost function Span(lo: nat, hi: nat): (r: set<nat>)
    requires lo <= hi
    ensures |r| == hi - lo && forall n: nat :: n in r <==> lo <= n < hi
    decreases hi
  {
    if lo == hi then {} else Span(lo, hi - 1) + {hi - 1}
  }

  lemma {:induction false} HasGreatest(p: Txs) returns (n: nat)
    requires p != map[]
    ensures IsGreatest(p, n)
    decreases |p|
  {
    var k :| k in p;
    var rest := p - {k};
    if rest == map[] {
      n := k;
      forall j | j in p ensures j <= k {
        assert j != k ==> j in rest;
      }
    } else {
      assert rest.Keys == p.Keys - {k};
      var g := HasGreatest(rest);
      n := if g < k then k else g;
      forall j | j in p ensures j <= n {
        assert j != k ==> j in rest;
      }
    }
  }

  lemma {:induction false} HasLeast(p: Txs) returns (n: nat)
    requires p != map[]
    ensures IsLeast(p, n)
    decreases |p|
  {
    var k :| k in p;
    var rest := p - {k};
    if rest == map[] {
      n := k;
      forall j | j in p ensures j >= k {
        assert j != k ==> j in rest;
      }
    } else {
      assert rest.Keys == p.Keys - {k};
      var g := HasLeast(rest);
      n := if g > k then k else g;
      forall j | j in p ensures j >= n {
        assert j != k ==> j in rest;
      }
    }
  }

  lemma GaplessIsConsecutive(p: Txs, nonce: nat)
    requires Contiguous(p, nonce) && AtLeast(p, nonce)
    ensures Consecutive(p, nonce)
    ensures p != map[] ==> IsGreatest(p, nonce + |p| - 1)
  {
    if p != map[] {
      var g := HasGreatest(p);
      assert Stretch(p, nonce, g);
      assert p.Keys == Span(nonce, g + 1);
    }
  }

  /** A run that is ready starts at the virtual nonce, and everything between the state nonce and it is pending. */
  lemma RunMeets(p: Txs, q: Txs, h: Limits, virtual: nat)
    requires Reaches(p, h.nonce, virtual) && p.Keys !! q.Keys
    ensures RunAt(Promotable(q, h, virtual), virtual)
    ensures Promotable(q, h, virtual) != map[] ==> h.nonce <= virtual && virtual in q
  {
    var ex, run := Executable(q, h), Promotable(q, h, virtual);
    if run != map[] {
      var low := HasLeast(ex);
      ReadyRun(ex, low, virtual);
      assert low in q && low >= h.nonce && low <= virtual;
      assert low < virtual ==> low in p;
      assert low == virtual && low in run;
      forall n | n in run
        ensures Stretch(run, low, n)
      {
        assert forall k: nat | low <= k <= n :: Stretch(ex, low, k) && k in run;
      }
    }
  }

  /** A run that starts at the virtual nonce. */
  ghost predicate RunAt(run: Txs, virtual: nat) {
    run != map[] ==> IsLeast(run, virtual) && forall n | n in run :: Stretch(run, virtual, n)
  }

  lemma JoinContiguous(p: Txs, run: Txs, nonce: nat, virtual: nat)
    requires Contiguous(p, nonce) && Reaches(p, nonce, virtual) && RunAt(run, virtual)
    ensures Contiguous(p + run, nonce)
  {
    forall n | n in p + run && n >= nonce
      ensures Stretch(p + run, nonce, n)
    {
      if n in run {
        assert Stretch(run, virtual, n);
      } else {
        assert Stretch(p, nonce, n);
      }
    }
  }

  lemma JoinReaches(p: Txs, run: Txs, nonce: nat, virtual: nat, next: nat)
    requires Contiguous(p, nonce) && Reaches(p, nonce, virtual) && RunAt(run, virtual)
    requires NextNonce(run, virtual, next)
    ensures Reaches(p + run, nonce, next)
  {
    if run == map[] {
      assert p + run == p;
    } else {
      var last: nat :| IsGreatest(run, last) && next == Wrap(last + 1);
      assert next <= last + 1;
      assert Stretch(run, virtual, last);
      hide NextNonce, Wrap;
    }
  }

  lemma CostlyJoin(p: Txs, run: Txs, h: Limits)
    requires Costly(run, h) == map[]
    ensures Costly(p, h) == map[] ==> Costly(p + run, h) == map[]
  {
    if Costly(p, h) == map[] {
      forall n | n in p + run && n >= h.nonce
        ensures n !in Costly(p + run, h)
      {
        if n in run {
          assert n !in Costly(run, h);
        } else {
          assert n !in Costly(p, h);
        }
      }
    }
  }

  /** Promotion extends the pending list without a gap, and the new virtual nonce is covered. */
  lemma PromotionKeeps(p: Txs, q: Txs, h: Limits, virtual: nat, next: nat)
    requires Contiguous(p, h.nonce) && Reaches(p, h.nonce, virtual) && p.Keys !! q.Keys
    requires NextNonce(Promotable(q, h, virtual), virtual, next)
    ensures Contiguous(Promoted(p, q, h, virtual), h.nonce) && Reaches(Promoted(p, q, h, virtual), h.nonce, next)
    ensures NonceOk(Idle, p, h, virtual) ==> NonceOk(Idle, Promoted(p, q, h, virtual), h, next)
  {
    hide Promotable, Contiguous, Reaches, Costly, NextNonce, RunAt;
    RunMeets(p, q, h, virtual);
    RunCosts(q, h, virtual);
    CostlyJoin(p, Promotable(q, h, virtual), h);
    JoinContiguous(p, Promotable(q, h, virtual), h.nonce, virtual);
    JoinReaches(p, Promotable(q, h, virtual), h.nonce, virtual, next);
    JoinAtLeast(p, Promotable(q, h, virtual), h.nonce, virtual);
  }

  lemma JoinAtLeast(p: Txs, run: Txs, nonce: nat, virtual: nat)
    requires RunAt(run, virtual) && (run != map[] ==> nonce <= virtual)
    ensures AtLeast(p, nonce) ==> AtLeast(p + run, nonce)
  {
  }

  /** A list without gaps that lacks the state nonce has nothing from there on. */
  lemma NothingAbove(p: Txs, nonce: nat)
    requires Contiguous(p, nonce)
    ensures nonce in p || forall n | n in p :: n < nonce
  {
    forall n | n in p && n >= nonce
      ensures nonce in p
    {
      assert Stretch(p, nonce, n);
    }
  }

  lemma RunCosts(q: Txs, h: Limits, virtual: nat)
    ensures var run := Promotable(q, h, virtual);
      Costly(run, h) == map[] && PartOf(run, q)
  {
    var ex := Executable(q, h);
    assert Costly(ex, h) == map[];
    assert PartOf(Promotable(q, h, virtual), ex);
    hide Promotable;
  }

  lemma OnlyRunCosts(p: Txs, run: Txs, h: Limits)
    requires Costly(run, h) == map[] && forall n | n in p :: n < h.nonce
    ensures Costly(p + run, h) == map[]
  {
    forall n | n in p + run && n >= h.nonce
      ensures n in run
    {
    }
    assert Young(p + run, h) == Young(run, h);
  }

  lemma PromotionFresh(p: Txs, q: Txs, h: Limits, virtual: nat, next: nat)
    requires NonceOk(Resetting, p, h, virtual) && p.Keys !! q.Keys
    requires NextNonce(Promotable(q, h, virtual), virtual, next)
    ensures FreshOk(Promoted(p, q, h, virtual), h, next)
  {
    PromotionKeeps(p, q, h, virtual, next);
    RunMeets(p, q, h, virtual);
    RunCosts(q, h, virtual);
    hide Promotable, Costly;
    if next > h.nonce {
      NothingAbove(p, h.nonce);
      OnlyRunCosts(p, Promotable(q, h, virtual), h);
    }
  }

  /** Nothing is left at the nonce after a run that was taken. */
  lemma RunUnstuck(ex: Txs, low: nat, last: nat)
    requires ByNonce(ex) && IsLeast(ex, low) && IsGreatest(RunFrom(ex, low), last)
    ensures Wrap(last + 1) !in Without(ex, RunFrom(ex, low))
  {
    RunStops(ex, low, last);
    assert ex[last].nonce == last;
    assert forall k | k in Without(ex, RunFrom(ex, low)) :: k > last && ex[k].nonce == k;
    hide RunFrom;
  }

  /** Nor at the virtual nonce if none was. */
  lemma ReadyUnstuck(ex: Txs, virtual: nat, next: nat)
    requires ByNonce(ex) && NextNonce(ReadyTxs(ex, virtual), virtual, next)
    ensures next !in Without(ex, ReadyTxs(ex, virtual))
  {
    hide ReadyTxs, RunFrom, ByNonce, IsGreatest;
    if ex != map[] {
      var low := HasLeast(ex);
      ReadyRun(ex, low, virtual);
      RunHasFirst(ex, low);
      if low <= virtual {
        var last: nat :| IsGreatest(RunFrom(ex, low), last) && next == Wrap(last + 1);
        RunUnstuck(ex, low, last);
      }
    }
  }

  lemma RunHasFirst(ex: Txs, low: nat)
    requires low in ex
    ensures low in RunFrom(ex, low)
  {
    assert Stretch(ex, low, low);
  }

  lemma RunStops(ex: Txs, low: nat, last: nat)
    requires IsLeast(ex, low) && IsGreatest(RunFrom(ex, low), last)
    ensures last + 1 !in ex && forall k | k in ex && k !in RunFrom(ex, low) :: k > last
  {
    assert Stretch(ex, low, last);
    RunNext(ex, low, last);
    forall k | k in ex && k <= last
      ensures k in RunFrom(ex, low)
    {
      assert Stretch(ex, low, k);
    }
  }

  lemma RunNext(ex: Txs, low: nat, last: nat)
    requires low <= last && Stretch(ex, low, last)
    ensures last + 1 in ex ==> last + 1 in RunFrom(ex, low)
  {
    assert last + 1 in ex ==> Stretch(ex, low, last + 1);
  }

  lemma UnpromotedPart(q: Txs, h: Limits, virtual: nat, cap: Option<nat>)
    ensures PartOf(Unpromoted(q, h, virtual, cap), Unready(q, h, virtual))
  {
    hide Unready, Rank;
  }

  /** After its promotion nothing is queued at an account's virtual nonce. */
  lemma PromotionUnstuck(q: Txs, h: Limits, virtual: nat, cap: Option<nat>, next: nat)
    requires ByNonce(q) && NextNonce(Promotable(q, h, virtual), virtual, next)
    ensures next !in Unpromoted(q, h, virtual, cap)
  {
    UnpromotedPart(q, h, virtual, cap);
    ReadyUnstuck(Executable(q, h), virtual, next);
    hide ReadyTxs, Unpromoted, NextNonce;
  }

  lemma NothingCostly(p: Txs, h: Limits)
    requires Costly(p, h) == map[]
    ensures Payable(p, h) == Young(p, h)
  {
  }

  /** After demotion the list starts at the state nonce or is empty, so the check for a gap finds none. */
  lemma DemotionKeeps(p: Txs, h: Limits, virtual: nat)
    requires FreshOk(p, h, virtual)
    ensures !FrontGap(p, h) && Demoted(p, h) == Payable(p, h)
    ensures NonceOk(Idle, Demoted(p, h), h, virtual)
  {
    assert Costly(Payable(p, h), h) == map[] by {
      forall n | n in Payable(p, h)
        ensures n !in Costly(Payable(p, h), h)
      {
        assert n !in Costly(p, h);
      }
    }
    var young, kept := Young(p, h), Payable(p, h);
    forall n | n in kept
      ensures Stretch(kept, h.nonce, n)
    {
      assert Stretch(p, h.nonce, n);
      assert forall k: nat | h.nonce <= k <= n :: k in young && k in kept;
    }
    if kept != map[] {
      var n :| n in kept;
      assert Stretch(kept, h.nonce, n);
    }
    if virtual > h.nonce {
      NothingCostly(p, h);
    }
  }

  /** An account that the demotion leaves without pending transactions has nothing queued at its virtual nonce. */
  lemma DemotionUnstuck(p: Txs, q: Txs, h: Limits, virtual: nat)
    requires FreshOk(p, h, virtual) && virtual !in q && Demoted(p, h) == map[]
    ensures virtual !in q + Requeued(p, h)
  {
    DemotionKeeps(p, h, virtual);
    assert virtual > h.nonce ==> h.nonce in Demoted(p, h);
    assert forall n | n in Following(Young(p, h), Costly(p, h)) :: n > h.nonce;
  }

  /** Removing a pending transaction cuts the list there and lowers the virtual nonce to it. */
  lemma RemovalKeeps(phase: Phase, p: Txs, h: Limits, virtual: nat, n: nat)
    requires NonceOk(phase, p, h, virtual)
    ensures NonceOk(phase, LeftPending(p, n), h, if n in p then Min(virtual, n) else virtual)
  {
    var r := LeftPending(p, n);
    forall k | k in r && k >= h.nonce
      ensures Stretch(r, h.nonce, k)
    {
      assert Stretch(p, h.nonce, k);
    }
    if Costly(p, h) == map[] {
      forall k | k in r
        ensures k !in Costly(r, h)
      {
        assert k !in Costly(p, h);
      }
    }
    if (phase.Reported? || phase.Counted?) && n in p {
      GaplessIsConsecutive(p, h.nonce);
      BeforeSize(p, h.nonce, n);
    }
  }

  /** A gapless list cut at one of its nonces. */
  lemma BeforeSize(p: Txs, nonce: nat, n: nat)
    requires Consecutive(p, nonce) && n in p
    ensures |Before(p, n)| == n - nonce
  {
    assert Before(p, n).Keys == Span(nonce, n);
  }

  /** A removal leaves the virtual nonce the one after the last exactly when the list did not reach the last 64-bit
      nonce, or is left empty. */
  lemma RemovalExactly(p: Txs, nonce: nat, virtual: nat, n: nat)
    requires ByNonce(p) && Consecutive(p, nonce) && n in p && virtual == Wrap(nonce + |p|)
    ensures var r := LeftPending(p, n);
      (r == map[] || Min(virtual, n) == Wrap(nonce + |r|)) <==> !(nonce + |p| == TWO_64 && n > nonce)
  {
    BeforeSize(p, nonce, n);
    var last := nonce + |p| - 1;
    assert p[last].nonce == last && p[n].nonce == n;
    assert n > nonce ==> nonce in Before(p, n);
  }

  /** The last two 64-bit nonces pending, so that the virtual nonce is 0, and the second one removed. */
  lemma ZeroStays(p: Txs)
    requires ByNonce(p) && p.Keys == {TWO_64 - 2, TWO_64 - 1}
    ensures Consecutive(p, TWO_64 - 2) && Wrap(TWO_64 - 2 + |p|) == 0
    ensures var r := LeftPending(p, TWO_64 - 1);
      r.Keys == {TWO_64 - 2} && Min(0, TWO_64 - 1) == 0 && Wrap(TWO_64 - 2 + |r|) == TWO_64 - 1
  {
    assert |p| == |p.Keys| == 2;
    var r := LeftPending(p, TWO_64 - 1);
    assert r.Keys == {TWO_64 - 2};
    assert |r| == |r.Keys| == 1;
  }

  /** A reset to a head whose nonce is not lower. */
  lemma ResetKeeps(p: Txs, nonce: nat, h: Limits)
    requires Contiguous(p, nonce) && AtLeast(p, nonce) && nonce <= h.nonce
    ensures NonceOk(Resetting, p, h, h.nonce)
  {
    var next := h.nonce;
    forall n | n in p && n >= next
      ensures Stretch(p, next, n)
    {
      assert Stretch(p, nonce, n);
    }
  }

  // ---- Heads that lower an account's nonce ----

  /** A list that a reset, the promotion and the demotion leave, with no truncation. */
  function AfterReset(p: Txs, q: Txs, h: Limits): (r: Txs) {
    Demoted(Promoted(p, q, h, h.nonce), h)
  }

  /** The queue can be promoted at the new nonce, the run stops short of the pending list, and the pending list's
      front survives. */
  predicate LeavesGap(p: Txs, q: Txs, h: Limits, low: nat) {
    && h.nonce < low
    && h.nonce in Executable(q, h)
    && !Stretch(Executable(q, h), h.nonce, low - 1)
    && low !in Costly(p, h)
  }

  lemma RunFromNonce(q: Txs, h: Limits)
    ensures Promotable(q, h, h.nonce) == RunFrom(Executable(q, h), h.nonce)
  {
    var ex := Executable(q, h);
    if ex != map[] {
      var low := HasLeast(ex);
      ReadyRun(ex, low, h.nonce);
      assert low >= h.nonce;
      assert h.nonce !in ex ==> RunFrom(ex, h.nonce) == map[];
    }
  }

  lemma AllYoung(p: Txs, h: Limits)
    requires AtLeast(p, h.nonce)
    ensures Young(p, h) == p
  {
  }

  lemma UnpayableJoin(p: Txs, run: Txs, balance: int, gas: nat)
    requires Unpayable(run, balance, gas) == map[] && p.Keys !! run.Keys
    ensures Unpayable(p + run, balance, gas) == Unpayable(p, balance, gas)
  {
    assert forall n | n in run :: n !in Unpayable(run, balance, gas);
  }

  lemma LeadingJoin(p: Txs, run: Txs, c: Txs)
    requires forall k, n | k in c && n in run :: n < k
    ensures p.Keys !! run.Keys ==> Leading(p + run, c) == run + Leading(p, c)
  {
  }

  lemma JoinPayable(p: Txs, run: Txs, h: Limits, low: nat)
    requires AtLeast(p, low) && h.nonce < low && p.Keys !! run.Keys
    requires Costly(run, h) == map[] && AtLeast(run, h.nonce) && forall n | n in run :: n < low
    ensures Payable(p + run, h) == run + Payable(p, h)
  {
    AllYoung(p, h);
    AllYoung(run, h);
    AllYoung(p + run, h);
    UnpayableJoin(p, run, h.balance, h.gas);
    assert AtLeast(Costly(p, h), low);
    hide Unpayable, Young, Leading;
    LeadingJoin(p, run, Costly(p, h));
  }

  /** What is left of a gapless list starts where the list started. */
  lemma PayableFront(p: Txs, h: Limits, low: nat)
    requires IsLeast(p, low) && h.nonce <= low
    ensures low in Payable(p, h) <==> low !in Costly(p, h)
    ensures Payable(p, h) != map[] ==> low in Payable(p, h)
    ensures AtLeast(Payable(p, h), low)
  {
    AllYoung(p, h);
    assert AtLeast(Costly(p, h), low);
  }

  lemma GapPart(p: Txs, q: Txs, h: Limits, low: nat)
    requires Consecutive(p, low) && p != map[] && p.Keys !! q.Keys && h.nonce < low
    ensures var run := RunFrom(Executable(q, h), h.nonce);
      && (forall n | n in run :: n < low) && AtLeast(run, h.nonce) && Costly(run, h) == map[] && p.Keys !! run.Keys
  {
    RunFromNonce(q, h);
    RunCosts(q, h, h.nonce);
    var run := RunFrom(Executable(q, h), h.nonce);
    assert low in p;
    assert forall n | n in run :: Stretch(Executable(q, h), h.nonce, n);
    assert low !in Executable(q, h);
  }

  lemma DemotedJoin(p: Txs, run: Txs, h: Limits, low: nat)
    requires AtLeast(p, low) && h.nonce < low && p.Keys !! run.Keys
    requires Costly(run, h) == map[] && AtLeast(run, h.nonce) && forall n | n in run :: n < low
    requires run != map[] ==> h.nonce in run
    ensures Demoted(p + run, h) == if run == map[] then map[] else run + Payable(p, h)
  {
    JoinPayable(p, run, h, low);
    AllYoung(p, h);
    assert AtLeast(Payable(p, h), low);
    hide Payable, Costly;
    if run == map[] {
      assert run + Payable(p, h) == Payable(p, h);
    }
  }

  /** What a reset leaves, when the pending list starts above the new nonce. */
  lemma ResetParts(p: Txs, q: Txs, h: Limits, low: nat)
    requires Consecutive(p, low) && p != map[] && p.Keys !! q.Keys && h.nonce < low
    ensures var run := RunFrom(Executable(q, h), h.nonce);
      AfterReset(p, q, h) == if run == map[] then map[] else run + Payable(p, h)
  {
    var ex := Executable(q, h);
    var run := RunFrom(ex, h.nonce);
    GapPart(p, q, h, low);
    RunFromNonce(q, h);
    RunNonEmpty(ex, h.nonce);
    assert AtLeast(p, low);
    hide *;
    DemotedJoin(p, run, h, low);
    assert AfterReset(p, q, h) == Demoted(p + run, h) by {
      AfterResetIs(p, q, h);
    }
  }

  lemma AfterResetIs(p: Txs, q: Txs, h: Limits)
    ensures AfterReset(p, q, h) == Demoted(p + Promotable(q, h, h.nonce), h)
  {
  }

  lemma RunNonEmpty(ex: Txs, nonce: nat)
    ensures RunFrom(ex, nonce) != map[] ==> nonce in RunFrom(ex, nonce)
    ensures RunFrom(ex, nonce) == map[] <==> nonce !in ex
  {
    if nonce in ex {
      RunHasFirst(ex, nonce);
    }
    assert forall n | n in RunFrom(ex, nonce) :: Stretch(ex, nonce, n);
  }

  lemma KeptContiguous(p: Txs, h: Limits, low: nat)
    requires Consecutive(p, low) && h.nonce <= low
    ensures Contiguous(Payable(p, h), low)
  {
    var kept := Payable(p, h);
    assert AtLeast(p, low);
    AllYoung(p, h);
    forall n | n in kept && n >= low
      ensures Stretch(kept, low, n)
    {
      assert forall k: nat | low <= k <= n :: k in p;
    }
  }

  /** A reset leaves an account's pending list without a gap unless `LeavesGap` held before it. */
  lemma GapExactly(p: Txs, q: Txs, h: Limits, low: nat)
    requires Consecutive(p, low) && p != map[] && p.Keys !! q.Keys
    ensures AtLeast(AfterReset(p, q, h), h.nonce)
    ensures Contiguous(AfterReset(p, q, h), h.nonce) <==> !LeavesGap(p, q, h, low)
  {
    var r := AfterReset(p, q, h);
    if low <= h.nonce {
      assert Contiguous(p, low) && AtLeast(p, low);
      ResetKeeps(p, low, h);
      if Promotable(q, h, h.nonce) != map[] {
        var last := HasGreatest(Promotable(q, h, h.nonce));
        PromotionFresh(p, q, h, h.nonce, Wrap(last + 1));
        DemotionKeeps(Promoted(p, q, h, h.nonce), h, Wrap(last + 1));
      } else {
        PromotionFresh(p, q, h, h.nonce, h.nonce);
        DemotionKeeps(Promoted(p, q, h, h.nonce), h, h.nonce);
      }
    } else {
      ResetParts(p, q, h, low);
      GapPart(p, q, h, low);
      assert IsLeast(p, low);
      PayableFront(p, h, low);
      KeptContiguous(p, h, low);
      RunNonEmpty(Executable(q, h), h.nonce);
      hide AfterReset, Payable, Costly, Executable, RunFrom;
      GapAbove(Executable(q, h), Payable(p, h), h.nonce, low);
    }
  }

  /** A run and what starts at `low` above it have no gap between them when the run ends right below `low`. */
  lemma GapAbove(ex: Txs, kept: Txs, nonce: nat, low: nat)
    requires nonce < low && (kept == map[] || IsLeast(kept, low)) && Contiguous(kept, low)
    requires forall n | n in RunFrom(ex, nonce) :: n < low
    ensures Contiguous(RunFrom(ex, nonce) + kept, nonce) <==> kept == map[] || Stretch(ex, nonce, low - 1)
  {
    var run := RunFrom(ex, nonce);
    assert forall n | n in run :: Stretch(ex, nonce, n);
    if Stretch(ex, nonce, low - 1) {
      assert forall n | nonce <= n < low :: n in run by {
        assert forall n: nat | nonce <= n < low :: Stretch(ex, nonce, n);
      }
    }
    if Contiguous(run + kept, nonce) && kept != map[] {
      assert Stretch(run + kept, nonce, low);
      forall n: nat | nonce <= n <= low - 1
        ensures n in ex
      {
        assert n in run + kept;
      }
    }
    forall n | n in run + kept && n >= nonce && (kept == map[] || Stretch(ex, nonce, low - 1))
      ensures Stretch(run + kept, nonce, n)
    {
      if n in kept {
        assert Stretch(kept, low, n);
      } else {
        assert Stretch(ex, nonce, n);
        assert forall k: nat | nonce <= k <= n :: k in run by {
          assert forall k: nat | nonce <= k <= n :: Stretch(ex, nonce, k);
        }
      }
    }
  }

  lemma AllExecutable(q: Txs, h: Limits)
    requires AtLeast(q, h.nonce) && Unpayable(q, h.balance, h.gas) == map[]
    ensures Executable(q, h) == q
  {
    assert From(q, h.nonce) == q;
  }

  lemma AllPayable(p: Txs, h: Limits)
    requires AtLeast(p, h.nonce) && Unpayable(p, h.balance, h.gas) == map[]
    ensures Payable(p, h) == p
  {
    AllYoung(p, h);
  }

  lemma OneRun(q: Txs, n: nat)
    requires q.Keys == {n}
    ensures RunFrom(q, n) == q
  {
    assert Stretch(q, n, n);
  }

  /** Nonce 5 pending and nonce 3 queued, and a head that lowers the account's nonce from 5 to 3. */
  lemma GapsOccur(p: Txs, q: Txs, h: Limits)
    requires p.Keys == {5} && q.Keys == {3} && h.nonce == 3
    requires Unpayable(p, h.balance, h.gas) == map[] && Unpayable(q, h.balance, h.gas) == map[]
    ensures Consecutive(p, 5) && AfterReset(p, q, h).Keys == {3, 5}
  {
    AllExecutable(q, h);
    AllPayable(p, h);
    OneRun(q, 3);
    assert |p| == |p.Keys| == 1;
    hide Executable, Payable, RunFrom, AfterReset, Unpayable;
    ResetParts(p, q, h, 5);
    assert q != map[];
  }
}
