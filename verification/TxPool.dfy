/** core/tx_pool.go: the transaction pool. The account lists are held by value: `TxLists` shows that the lists of
    core/tx_list.go behave as the functions of plain maps used here. Wall-clock readings come from `now`; 0 is the
    zero time. */
module TxPools {
  import opened Common
  import opened Transactions
  import opened SortedMaps
  import opened TxLists
  import opened TxLookups
  import opened PricedLists
  import opened TxNoncers
  import opened PoolAccounts
  import opened PoolLists
  import opened PoolTotals
  import opened PoolSteps
  import opened PoolWaits
  import opened QueueLimits
  import opened PendingLimits
  import ReorgSchedulers

  datatype Account = Account(nonce: Uint64, balance: int)

  /** What a run is asked for: nothing of the head, a reset that fails before it takes effect, or a new head with
      the transactions that its fork left behind. */
  datatype ResetRequest = NoReset | FailedReset | ResetTo(state: Address -> Account, maxGas: nat, reinject: seq<Tx>)

  /** A run looks at the accounts that asked for it, or at all of them when there is a reset. */
  predicate LooksAt(reset: ResetRequest, dirty: set<Address>, a: Address) {
    reset.NoReset? ==> a in dirty
  }

  /** What the pool is asked for by a run of the scheduler. */
  ghost predicate AskedBy(r: ReorgSchedulers.Run, reset: ResetRequest, dirty: set<Address>) {
    && (reset.NoReset? <==> r.reset.None?)
    && dirty == if r.dirty.Some? then r.dirty.value else {}
  }

  /** The account lists, virtual nonces and heartbeats at one point of a run. */
  datatype Snapshot = Snapshot(pending: AccountLists, queue: AccountLists, virtual: Address -> Uint64,
                               beats: map<Address, nat>)

  /** A transaction, or another of its sender and nonce, is pending or queued. */
  predicate Listed(s: Snapshot, tx: Tx) {
    tx.nonce in ListOf(s.pending, tx.sender) || tx.nonce in ListOf(s.queue, tx.sender)
  }

  /** What the pool is asked to do, in the order in which it takes its lock. */
  datatype Request = AddTxs(txs: seq<Tx>, local: bool) | Price(price: nat) | EvictionTick(expired: set<Address>)
                   | Reorg(reset: ResetRequest, dirty: set<Address>)

  /** No new head of the run lowers an account's nonce. */
  ghost predicate NeverLowers(state: Address -> Account, requests: seq<Request>)
    decreases |requests|
  {
    if requests == [] then true
    else if requests[0].Reorg? && requests[0].reset.ResetTo? then
      && (forall a :: state(a).nonce <= requests[0].reset.state(a).nonce)
      && NeverLowers(requests[0].reset.state, requests[1..])
    else
      NeverLowers(state, requests[1..])
  }

  /** The transaction comes in with one of the requests. */
  ghost predicate Sends(requests: seq<Request>, tx: Tx) {
    exists i :: 0 <= i < |requests| && Sent(requests[i], tx)
  }

  predicate Sent(request: Request, tx: Tx) {
    || (request.AddTxs? && tx in request.txs)
    || (request.Reorg? && request.reset.ResetTo? && tx in request.reset.reinject)
  }

  ghost predicate NoneSendsLast(requests: seq<Request>) {
    forall tx | Sends(requests, tx) :: tx.nonce < TWO_64 - 1
  }

  /** What the pool goes by: the head's state and gas limit, and the price it asks for. */
  datatype Terms = Terms(state: Address -> Account, maxGas: nat, price: nat)

  /** What the pool takes: a transaction of bounded size that the head can include and its sender can pay for, priced
      as the pool asks unless it is local. */
  predicate AdmissibleOn(t: Terms, tx: Tx, local: bool) {
    && tx.size <= 128 * 1024 && tx.value >= 0
    && tx.intrinsic <= tx.gas <= t.maxGas
    && (local || tx.price >= t.price)
    && tx.nonce >= t.state(tx.sender).nonce
    && tx.cost <= t.state(tx.sender).balance
  }

  /** What a request may do to the pooled transactions, and must: where there is room, what is admissible comes in or
      finds its place taken, and no place is lost; a new price drops nothing at or above it; nothing else adds any but
      what a reset adds back. */
  ghost predicate HandledAs(t: Terms, request: Request, before: set<Tx>, after: set<Tx>, limit: nat) {
    match request
    case AddTxs(txs, local) =>
      |before| + SeqSlots(txs) <= limit ==>
        forall tx | tx in before || (tx in txs && AdmissibleOn(t, tx, local)) :: Occupied(after, tx)
    case Price(price) => after <= before && forall tx | tx in before && tx.price >= price :: tx in after
    case EvictionTick(_) => after <= before
    case Reorg(reset, _) => forall tx | tx in after :: tx in before || (reset.ResetTo? && tx in reset.reinject)
  }

  function TermsAfter(t: Terms, request: Request): (r: Terms) {
    match request
    case Price(price) => t.(price := price)
    case Reorg(ResetTo(state, maxGas, _), _) => t.(state := state, maxGas := maxGas)
    case _ => t
  }

  /** The terms in the end: those of the last head and the last price, or the first ones. */
  ghost function TermsAtEnd(t: Terms, requests: seq<Request>): (r: Terms) {
    if requests == [] then t
    else TermsAfter(TermsAtEnd(t, requests[..|requests|-1]), requests[|requests|-1])
  }

  lemma TermsStep(t: Terms, requests: seq<Request>, i: nat)
    requires i < |requests|
    ensures TermsAtEnd(t, requests[..i+1]) == TermsAfter(TermsAtEnd(t, requests[..i]), requests[i])
  {
    assert requests[..i+1][..i] == requests[..i];
  }

  lemma TermsStart(t: Terms, requests: seq<Request>)
    ensures TermsAtEnd(t, requests[..0]) == t && requests[..|requests|] == requests
  {
  }

  lemma TermsOf(t: Terms, request: Request)
    ensures TermsAfter(t, request).state
         == if request.Reorg? && request.reset.ResetTo? then request.reset.state else t.state
    ensures TermsAfter(t, request).maxGas
         == if request.Reorg? && request.reset.ResetTo? then request.reset.maxGas else t.maxGas
    ensures TermsAfter(t, request).price == if request.Price? then request.price else t.price
  {
  }

  /** The head is that of the last request with one, whatever was asked before and after. */
  lemma {:induction false} LastHead(t: Terms, requests: seq<Request>, i: nat)
    requires i < |requests| && requests[i].Reorg? && requests[i].reset.ResetTo?
    requires forall j | i < j < |requests| :: !(requests[j].Reorg? && requests[j].reset.ResetTo?)
    ensures TermsAtEnd(t, requests).state == requests[i].reset.state
    ensures TermsAtEnd(t, requests).maxGas == requests[i].reset.maxGas
    decreases |requests|
  {
    if i + 1 < |requests| {
      LastHead(t, requests[..|requests|-1], i);
    }
  }

  lemma SendsSent(requests: seq<Request>, i: nat)
    requires i < |requests|
    ensures forall tx | Sent(requests[i], tx) :: Sends(requests, tx)
  {
  }

  lemma SentIs(request: Request)
    ensures request.AddTxs? ==> forall tx | tx in request.txs :: Sent(request, tx)
    ensures request.Reorg? && request.reset.ResetTo? ==> forall tx | tx in request.reset.reinject :: Sent(request, tx)
  {
  }

  /** Every request of a run was answered, at the terms of its time. */
  ghost predicate AllHandled(t: Terms, requests: seq<Request>, pools: seq<set<Tx>>, limit: nat) {
    && |pools| == |requests| + 1
    && forall i {:trigger requests[i]} | 0 <= i < |requests| ::
         HandledAs(TermsAtEnd(t, requests[..i]), requests[i], pools[i], pools[i+1], limit)
  }

  lemma HandledStart(t: Terms, requests: seq<Request>, pools: seq<set<Tx>>, limit: nat)
    requires |pools| == 1
    ensures AllHandled(t, requests[..0], pools, limit)
  {
  }

  lemma HandledStep(t: Terms, requests: seq<Request>, pools: seq<set<Tx>>, i: nat, after: set<Tx>, limit: nat)
    requires i < |requests| && |pools| == i + 1 && AllHandled(t, requests[..i], pools, limit)
    requires HandledAs(TermsAtEnd(t, requests[..i]), requests[i], pools[i], after, limit)
    ensures AllHandled(t, requests[..i+1], pools + [after], limit)
  {
    hide HandledAs, TermsAtEnd;
    var rs, ps := requests[..i+1], pools + [after];
    forall j | 0 <= j < |rs|
      ensures HandledAs(TermsAtEnd(t, rs[..j]), rs[j], ps[j], ps[j+1], limit)
    {
      assert rs[..j] == requests[..j];
      if j < i {
        assert requests[..i][..j] == requests[..j] && requests[..i][j] == rs[j];
      }
    }
  }

  lemma OthersHandled(t: Terms, request: Request, before: set<Tx>, after: set<Tx>, limit: nat)
    requires match request
      case AddTxs(_, _) => false
      case Price(price) => after <= before && forall tx | tx in before && tx.price >= price :: tx in after
      case EvictionTick(_) => after <= before
      case Reorg(reset, _) => forall tx | tx in after :: tx in before || (reset.ResetTo? && tx in reset.reinject)
    ensures HandledAs(t, request, before, after, limit)
  {
  }

  lemma StillNoLast(before: set<Tx>, requests: seq<Request>, all: set<Tx>)
    requires forall tx | tx in all :: tx in before || Sends(requests, tx)
    ensures NoLast(before) && NoneSendsLast(requests) ==> NoLast(all)
  {
  }

  datatype Config = Config(priceBump: Uint64, accountSlots: Positive, globalSlots: Positive, accountQueue: Positive,
                           globalQueue: Positive)

  const TX_MAX_SIZE: nat := 4 * TX_SLOT_SIZE

  datatype Error = NoError | AlreadyKnown | OversizedData | NegativeValue | GasLimit | Underpriced | NonceTooLow
                 | InsufficientFunds | IntrinsicGas | TxPoolOverflow | ReplaceUnderpriced

  lemma LowersNext(state: Address -> Account, requests: seq<Request>, i: nat)
    requires i < |requests|
    ensures NeverLowers(state, requests[i..]) ==>
      if requests[i].Reorg? && requests[i].reset.ResetTo? then
        && (forall a :: state(a).nonce <= requests[i].reset.state(a).nonce)
        && NeverLowers(requests[i].reset.state, requests[i+1..])
      else
        NeverLowers(state, requests[i+1..])
    ensures requests[0..] == requests
  {
    assert requests[i..][1..] == requests[i+1..];
  }

  class TxPool {
    const config: Config
    const all: TxLookup
    const priced: TxPricedList
    var pendingNonces: TxNoncer
    var currentState: Address -> Account
    var currentMaxGas: nat
    var gasPrice: nat
    var locals: set<Address>
    var pending: AccountLists
    var queue: AccountLists
    var beats: map<Address, nat>
    var now: nat

    /** The lookup is the disjoint union of the lists, no list is empty, queued accounts have a heartbeat, and remote
        means not from a local account. */
    ghost predicate Core()
      reads `pending, `queue, `beats, `locals, all
    {
      && all.Valid() && priced.all == all
      && Partition(pending, queue, all.Txs())
      && NoEmpty(pending) && NoEmpty(queue)
      && NoneLocal(all.remotes, locals) && Timed(queue, beats)
    }

    ghost predicate Settled(phase: Phase)
      reads `pending, `currentState, `currentMaxGas, `pendingNonces, pendingNonces
    {
      forall a: Address {:trigger pendingNonces.View(a)} ::
        Stands(phase, a, ListOf(pending, a), Head(a), pendingNonces.View(a))
    }

    /** After a reset, between the promotion and the demotion. */
    ghost predicate Fresh()
      reads `pending, `currentState, `currentMaxGas, `pendingNonces, pendingNonces
    {
      forall a: Address {:trigger pendingNonces.View(a)} :: FreshOk(ListOf(pending, a), Head(a), pendingNonces.View(a))
    }

    /** Pending lists are exactly the state nonce and up, and the virtual nonce is the next one. Without pending
        transactions the virtual nonce is not above the state nonce; `Served` says what it is after a run. */
    ghost predicate Exact()
      reads `pending, `currentState, `pendingNonces, pendingNonces
    {
      forall a: Address {:trigger pendingNonces.View(a)} ::
        if a in pending then
          && Consecutive(pending[a], currentState(a).nonce)
          && pendingNonces.View(a) == Wrap(currentState(a).nonce + |pending[a]|)
        else
          pendingNonces.View(a) <= currentState(a).nonce
    }

    /** Nothing is queued at the account's virtual nonce. */
    ghost predicate Clear(a: Address)
      reads `queue, `pendingNonces, pendingNonces
    {
      pendingNonces.View(a) !in ListOf(queue, a)
    }

    /** An account without pending transactions has none queued at its virtual nonce. */
    ghost predicate Free(a: Address)
      reads `pending, `queue, `pendingNonces, pendingNonces
    {
      a !in pending ==> Clear(a)
    }

    /** Of the accounts a run has looked at, none waits at its virtual nonce for want of a pending list. */
    ghost predicate Unstuck(reset: ResetRequest, dirty: set<Address>)
      reads `pending, `queue, `pendingNonces, pendingNonces
    {
      forall a: Address {:trigger Free(a)} | LooksAt(reset, dirty, a) :: Free(a)
    }

    /** From what a run starts its promotion with, the account will wait. */
    ghost predicate StartWaits(start: Snapshot, a: Address)
      reads `currentState, `currentMaxGas, `locals
    {
      Waits(ListOf(start.pending, a), ListOf(start.queue, a), Head(a), start.virtual(a), QueueCap(a))
    }

    /** Of the accounts a run has looked at, only those wait that had to, and none whose virtual nonce was the one
        after its pending list; and an account without pending transactions has the virtual nonce it started with. */
    ghost predicate Served(start: Snapshot, reset: ResetRequest, dirty: set<Address>)
      reads this, pendingNonces
    {
      && (forall a: Address {:trigger NextFree(a)} | LooksAt(reset, dirty, a) && !StartWaits(start, a) :: NextFree(a))
      && (forall a: Address {:trigger NextFree(a)} | LooksAt(reset, dirty, a)
            && start.virtual(a) == currentState(a).nonce + |ListOf(start.pending, a)| :: NextFree(a))
      && (forall a: Address {:trigger pendingNonces.View(a)} | a !in pending ::
            pendingNonces.View(a) == start.virtual(a))
    }

    /** The nonce right after the account's pending list is not queued. */
    ghost predicate NextFree(a: Address)
      reads `pending, `queue, `currentState
    {
      !NextQueued(ListOf(pending, a), ListOf(queue, a), currentState(a).nonce)
    }

    /** A promotion and a demotion would leave that nonce queued. */
    ghost predicate WouldWait(a: Address)
      reads `pending, `queue, `currentState, `currentMaxGas, `locals, `pendingNonces, pendingNonces
    {
      Waits(ListOf(pending, a), ListOf(queue, a), Head(a), pendingNonces.View(a), QueueCap(a))
    }

    /** So would a demotion. */
    ghost predicate LeavesNext(a: Address)
      reads `pending, `queue, `currentState, `currentMaxGas
    {
      var p, h := ListOf(pending, a), Head(a);
      NextQueued(Demoted(p, h), ListOf(queue, a) + Requeued(p, h), h.nonce)
    }

    /** A demotion would leave nothing pending. */
    ghost predicate LeavesNone(a: Address)
      reads `pending, `currentState, `currentMaxGas
    {
      Demoted(ListOf(pending, a), Head(a)) == map[]
    }

    lemma NothingDemoted()
      requires NoEmpty(pending)
      ensures Settled(Idle) ==> forall a :: LeavesNext(a) <==> !NextFree(a)
      ensures Settled(Idle) ==> forall a :: LeavesNone(a) <==> a !in pending
    {
      hide NonceOk, Demoted, Requeued, NextQueued;
      forall a: Address | Settled(Idle)
        ensures (LeavesNext(a) <==> !NextFree(a)) && (LeavesNone(a) <==> a !in pending)
      {
        assert Stands(Idle, a, ListOf(pending, a), Head(a), pendingNonces.View(a));
        NothingToDemote(ListOf(pending, a), ListOf(queue, a), Head(a), pendingNonces.View(a));
      }
    }

    /** Shorter pending lists, or queues with less in them, leave the next nonce free. */
    twostate lemma StaysNext()
      requires old(Core()) && currentState == old(currentState) && currentMaxGas == old(currentMaxGas)
      requires Shrunk(pending, old(pending)) && Shrunk(queue, old(queue))
      ensures old(Settled(Idle)) ==> forall a :: old(NextFree(a)) ==> NextFree(a)
    {
      hide NonceOk, Partition, ListOf;
      forall a: Address | old(Settled(Idle)) && old(NextFree(a))
        ensures NextFree(a)
      {
        assert old(Head(a)) == Head(a);
        assert Stands(Idle, a, ListOf(old(pending), a), Head(a), old(pendingNonces.View(a)));
        PartitionAt(old(pending), old(queue), old(all.Txs()), a);
        PartSize(ListOf(pending, a), ListOf(old(pending), a));
        ShorterNext(ListOf(old(pending), a), ListOf(pending, a), ListOf(old(queue), a), Head(a),
                    old(pendingNonces.View(a)));
      }
    }

    twostate lemma StaysFree()
      requires pending.Keys == old(pending.Keys) && pendingNonces == old(pendingNonces)
      requires forall a | a !in pending :: pendingNonces.View(a) == old(pendingNonces.View(a))
      requires Shrunk(queue, old(queue))
      ensures forall a :: old(Free(a)) ==> Free(a)
    {
      hide ListOf;
    }

    twostate lemma NothingNew()
      requires old(Core()) && Core() && Shrunk(pending, old(pending)) && Shrunk(queue, old(queue))
      ensures all.Txs() <= old(all.Txs())
    {
      hide Partition, Shrunk, Within, ListOf;
      forall a: Address
        ensures Within(ListOf(pending, a), ListOf(queue, a), ListOf(old(pending), a), ListOf(old(queue), a))
      {
        ShrunkWithin(old(pending), old(queue), pending, queue, a);
      }
      NothingGained(old(pending), old(queue), old(all.Txs()), pending, queue, all.Txs());
    }

    function Head(a: Address): (h: Limits)
      reads `currentState, `currentMaxGas
    {
      Limits(currentState(a).nonce, currentState(a).balance, currentMaxGas)
    }

    constructor (config: Config, locals: set<Address>, state: Address -> Account, maxGas: nat, price: nat, now: nat)
      ensures Core() && priced.Valid() && Settled(Idle) && fresh(all) && fresh(priced) && fresh(pendingNonces)
      ensures pending == map[] && queue == map[] && this.locals == locals
    {
      hide Core, Settled;
      this.config, this.locals, this.now, gasPrice := config, locals, now, price;
      pending, queue, beats := map[], map[], map[];
      currentState, currentMaxGas := state, maxGas;
      var lookup := new TxLookup();
      all := lookup;
      priced := new TxPricedList(lookup);
      pendingNonces := new TxNoncer(a => state(a).nonce);
      new;
      NothingPooled();
    }

    lemma NothingPooled()
      requires all.Valid() && all.locals == {} && all.remotes == {} && priced.all == all
      requires pending == map[] && queue == map[] && beats == map[]
      requires forall a :: pendingNonces.View(a) == currentState(a).nonce
      ensures Core() && Settled(Idle)
    {
      forall a: Address
        ensures NonceOk(Idle, ListOf(pending, a), Head(a), pendingNonces.View(a))
      {
      }
      assert Partition(map[], map[], {}) by {
        forall a: Address
          ensures AccountIn(map[], map[], {}, a)
        {
        }
      }
      hide TxLookup.Valid, NonceOk, Partition;
    }

    /** Deletes a replaced transaction from the lookup and tells the price list. */
    method Displace(tx: Tx)
      requires all.Valid() && priced.all == all && priced.Valid()
      modifies all, priced
      ensures all.Valid() && priced.Valid()
      ensures all.Txs() == old(all.Txs()) - {tx} && all.remotes == old(all.remotes) - {tx}
    {
      TracksLess(priced.remotes, priced.stales, all.remotes, tx);
      all.Remove(tx);
      priced.Removed(1);
    }

    /** Adds a transaction to the lookup and the price list. */
    method Admit(tx: Tx, local: bool)
      requires all.Valid() && priced.all == all && priced.Valid() && tx !in all.Txs()
      modifies all, priced
      ensures all.Valid() && priced.Valid()
      ensures all.Txs() == old(all.Txs()) + {tx}
      ensures all.remotes == if local then old(all.remotes) else old(all.remotes) + {tx}
    {
      assert local || all.remotes + {tx} - {tx} == all.remotes;
      all.Add(tx, local);
      priced.Put(tx, local);
    }

    method EnqueueTx(tx: Tx, local: bool, addAll: bool) returns (replaced: bool, ok: bool)
      requires all.Valid() && priced.all == all
      requires addAll ==> tx !in all.Txs()
      requires addAll || tx.nonce in ListOf(queue, tx.sender) ==> priced.Valid()
      modifies `queue, `beats, all, priced
      ensures all.Valid()
      ensures ok == Admits(ListOf(old(queue), tx.sender), tx, config.priceBump)
      ensures replaced == (ok && tx.nonce in ListOf(old(queue), tx.sender))
      ensures queue == if ok then Enqueued(old(queue), tx) else old(queue)
      ensures ok ==> all.Txs() == Displacing(old(all.Txs()), ListOf(old(queue), tx.sender), tx, addAll)
      ensures ok ==> all.remotes == Displacing(old(all.remotes), ListOf(old(queue), tx.sender), tx, addAll && !local)
      ensures beats == if ok && tx.sender !in old(beats) then old(beats)[tx.sender := now] else old(beats)
      ensures !ok || (!replaced && !addAll) ==> unchanged(all) && unchanged(priced)
      ensures addAll || tx.nonce in ListOf(old(queue), tx.sender) ==> priced.Valid()
    {
      hide *;
      var from := tx.sender;
      var list: Txs := ListOf(queue, from);
      DisplacingParts(all.Txs(), list, tx);
      DisplacingParts(all.remotes, list, tx);
      FreeAdmits(list, tx, config.priceBump);
      if !Admits(list, tx, config.priceBump) {
        return false, false;
      }
      queue := Enqueued(queue, tx);
      replaced, ok := tx.nonce in list, true;
      if replaced {
        Displace(list[tx.nonce]);
      }
      if addAll {
        Admit(tx, local);
      }
      if from !in beats {
        beats := beats[from := now];
      }
    }

    /** Puts transactions that stay pooled into their account's queue. */
    method Requeue(txs: Txs, a: Address)
      requires all.Valid() && priced.all == all && NoEmpty(queue)
      requires Owned(txs, a) && txs.Keys !! ListOf(queue, a).Keys
      modifies `queue, `beats, all, priced
      ensures queue == SetList(old(queue), a, ListOf(old(queue), a) + txs)
      ensures unchanged(all) && unchanged(priced)
      ensures old(Timed(queue, beats)) ==> Timed(queue, beats)
    {
      ghost var q := ListOf(queue, a);
      var todo := txs.Keys;
      RequeueNothing(queue, a, txs);
      while todo != {}
        invariant todo <= txs.Keys && unchanged(all) && unchanged(priced)
        invariant old(Timed(queue, beats)) ==> Timed(queue, beats)
        invariant queue == SetList(old(queue), a, q + (txs - todo))
        decreases todo
      {
        var n :| n in todo;
        ListOfSet(old(queue), a, q + (txs - todo), a);
        RequeueStep(old(queue), a, q, txs, todo, n);
        var _, _ := EnqueueTx(txs[n], false, false);
        todo := todo - {n};
      }
    }

    /** Deletes transactions from the lookup; the caller tells the price list later. */
    method Forget(txs: Txs, ghost stales: int)
      requires all.Valid() && priced.all == all && Tracks(priced.remotes, stales, all.remotes)
      requires ByNonce(txs)
      modifies all
      ensures all.Valid() && Tracks(priced.remotes, stales + |txs|, all.remotes)
      ensures all.Txs() == Minus(old(all.Txs()), txs) && all.remotes == Minus(old(all.remotes), txs)
    {
      hide *;
      var todo := txs.Keys;
      ghost var owed := stales;
      MinusNone(all.Txs(), txs);
      MinusNone(all.remotes, txs);
      while todo != {}
        invariant todo <= txs.Keys && all.Valid() && Tracks(priced.remotes, owed, all.remotes)
        invariant owed == stales + |txs| - |todo|
        invariant all.Txs() == Minus(old(all.Txs()), txs - todo) && all.remotes == Minus(old(all.remotes), txs - todo)
        decreases todo
      {
        var n :| n in todo;
        MinusStep(old(all.Txs()), txs, todo, n);
        MinusStep(old(all.remotes), txs, todo, n);
        TracksLess(priced.remotes, owed, all.remotes, txs[n]);
        all.Remove(txs[n]);
        todo := todo - {n};
        owed := owed + 1;
      }
    }


    /** Puts a ready transaction into its account's pending list, and moves the virtual nonce past it. */
    method PromoteTx(addr: Address, tx: Tx) returns (inserted: bool)
      requires all.Valid() && priced.all == all && tx.sender == addr
      requires tx.nonce in ListOf(pending, addr) ==> priced.Valid()
      modifies `pending, `beats, all, priced, pendingNonces
      ensures all.Valid()
      ensures inserted == Admits(ListOf(old(pending), addr), tx, config.priceBump)
      ensures inserted ==> pending == Enqueued(old(pending), tx)
      ensures inserted ==> all.Txs() == Displacing(old(all.Txs()), ListOf(old(pending), addr), tx, false)
      ensures !inserted ==> pending == old(pending) && all.Txs() == old(all.Txs()) - {tx}
      ensures forall a ::
        pendingNonces.View(a) == if inserted && a == addr then Wrap(tx.nonce + 1) else old(pendingNonces.View(a))
      ensures beats == if inserted then old(beats)[addr := now] else old(beats)
      ensures tx.nonce !in ListOf(old(pending), addr) ==> unchanged(all) && unchanged(priced)
    {
      hide *;
      var list: Txs := ListOf(pending, addr);
      DisplacingParts(all.Txs(), list, tx);
      FreeAdmits(list, tx, config.priceBump);
      if !Admits(list, tx, config.priceBump) {
        Displace(tx);
        return false;
      }
      pending := Enqueued(pending, tx);
      if tx.nonce in list {
        Displace(list[tx.nonce]);
      }
      pendingNonces.Set(addr, Wrap(tx.nonce + 1));
      beats := beats[addr := now];
      inserted := true;
    }

    /** Promotes a run in nonce order. */
    method PromoteAll(addr: Address, run: Txs)
      requires all.Valid() && priced.all == all && NoEmpty(pending)
      requires Owned(run, addr) && run.Keys !! ListOf(pending, addr).Keys
      modifies `pending, `beats, all, priced, pendingNonces
      ensures pending == SetList(old(pending), addr, ListOf(old(pending), addr) + run)
      ensures NextNonce(run, old(pendingNonces.View(addr)), pendingNonces.View(addr))
      ensures forall a | a != addr :: pendingNonces.View(a) == old(pendingNonces.View(a))
      ensures unchanged(all) && unchanged(priced) && old(beats.Keys) <= beats.Keys
    {
      hide *;
      OwnedByNonce(run, addr);
      var txs := FlattenTxs(run);
      ghost var p := ListOf(pending, addr);
      PromotingStarts(pending, addr, run, txs, pendingNonces.View(addr));
      for i := 0 to |txs|
        invariant unchanged(all) && unchanged(priced) && old(beats.Keys) <= beats.Keys
        invariant Promoting(old(pending), pending, addr, p, run, txs, i)
        invariant NextAfter(txs, i, old(pendingNonces.View(addr)), pendingNonces.View(addr))
        invariant forall a | a != addr :: pendingNonces.View(a) == old(pendingNonces.View(a))
      {
        PromotingStep(old(pending), pending, addr, p, run, txs, i, config.priceBump);
        NextAfterStep(txs, i, old(pendingNonces.View(addr)));
        var _ := PromoteTx(addr, txs[i]);
      }
      PromotingEnds(old(pending), pending, addr, p, run, txs);
      NextIs(run, old(pendingNonces.View(addr)), txs, pendingNonces.View(addr));
    }

    lemma CoreParts()
      requires Core()
      ensures all.Valid() && priced.all == all && Partition(pending, queue, all.Txs()) && NoEmpty(pending)
      ensures NoEmpty(queue)
      ensures NoneLocal(all.remotes, locals) && Timed(queue, beats)
    {
    }

    lemma PricedParts()
      requires priced.all == all
      ensures priced.Valid() <==> Tracks(priced.remotes, priced.stales, all.remotes)
    {
    }

    lemma CoreHolds()
      requires all.Valid() && priced.all == all && Partition(pending, queue, all.Txs()) && NoEmpty(pending)
      requires NoEmpty(queue)
      requires NoneLocal(all.remotes, locals) && Timed(queue, beats)
      ensures Core()
    {
    }

    /** Writes back what is left of an account's queue; with nothing left, the entry and the heartbeat go. */
    method StoreQueue(addr: Address, list: Txs)
      requires addr in queue
      modifies `queue, `beats
      ensures queue == SetList(old(queue), addr, list)
      ensures beats == if list == map[] then old(beats) - {addr} else old(beats)
      ensures old(Timed(queue, beats)) ==> Timed(queue, beats)
    {
      queue := SetList(queue, addr, list);
      if list == map[] {
        beats := beats - {addr};
      }
    }

    /** Takes a transaction of the pool off its list; pending ones that follow it go back to the queue. */
    method Unlist(tx: Tx, ghost pool: set<Tx>)
      requires all.Valid() && priced.all == all
      requires Partition(pending, queue, pool) && NoEmpty(pending) && NoEmpty(queue) && tx in pool
      modifies `pending, `queue, `beats, all, priced, pendingNonces
      ensures unchanged(all) && unchanged(priced)
      ensures pending == PendingWithout(old(pending), pool, tx)
      ensures queue == QueueWithout(old(pending), old(queue), pool, tx)
      ensures forall a :: pendingNonces.View(a) == NonceWithout(old(pending), pool, tx, a, old(pendingNonces.View(a)))
      ensures old(Timed(queue, beats)) ==> Timed(queue, beats)
    {
      hide *;
      var addr := tx.sender;
      var list: Txs := ListOf(pending, addr);
      RemovalParts(pending, queue, pool, tx);
      NonceParts(pending, pool, tx);
      if tx.nonce in list {
        pending := SetList(pending, addr, Before(list, tx.nonce));
        Requeue(From(list, tx.nonce + 1), addr);
        pendingNonces.SetIfLower(addr, tx.nonce);
        return;
      }
      StoreQueue(addr, queue[addr] - {tx.nonce});
    }

    method RemoveTx(tx: Tx, outofbound: bool)
      requires Core() && (outofbound ==> priced.Valid())
      modifies `pending, `queue, `beats, all, priced, pendingNonces
      ensures Core() && (if outofbound then priced.Valid() else unchanged(priced))
      ensures all.Txs() == old(all.Txs()) - {tx} && all.remotes == old(all.remotes) - {tx}
      ensures pending == PendingWithout(old(pending), old(all.Txs()), tx)
      ensures queue == QueueWithout(old(pending), old(queue), old(all.Txs()), tx)
      ensures forall a ::
        pendingNonces.View(a) == NonceWithout(old(pending), old(all.Txs()), tx, a, old(pendingNonces.View(a)))
      ensures forall r: Phase :: old(Settled(r)) ==> Settled(r)
    {
      hide *;
      CoreParts();
      var found := all.Get(tx);
      if !found {
        NothingRemoved(pending, queue, all.Txs(), all.remotes, tx);
        RemovalSettled(tx);
        return;
      }
      RemovalPartition(pending, queue, all.Txs(), tx);
      TracksLess'(outofbound, tx);
      NoneLocalLess(all.remotes, locals, tx);
      all.Remove(tx);
      if outofbound {
        priced.Removed(1);
      }
      Unlist(tx, old(all.Txs()));
      CoreHolds();
      if outofbound {
        PricedParts();
      }
      RemovalSettled(tx);
    }

    twostate lemma RemovalSettled(tx: Tx)
      requires pending == PendingWithout(old(pending), old(all.Txs()), tx)
      requires pendingNonces == old(pendingNonces) && currentState == old(currentState)
      requires currentMaxGas == old(currentMaxGas)
      requires forall a ::
        pendingNonces.View(a) == NonceWithout(old(pending), old(all.Txs()), tx, a, old(pendingNonces.View(a)))
      ensures forall r: Phase :: old(Settled(r)) ==> Settled(r)
    {
      forall r: Phase, a: Address | old(Settled(r))
        ensures Stands(r, a, ListOf(pending, a), Head(a), pendingNonces.View(a))
      {
        var p := ListOf(old(pending), a);
        assert Stands(r, a, p, Head(a), old(pendingNonces.View(a)));
        RemovalStands(r, a, p, Head(a), old(pendingNonces.View(a)), tx.nonce);
        ListOfSet(old(pending), tx.sender, LeftPending(ListOf(old(pending), tx.sender), tx.nonce), a);
        hide Stands, LeftPending, SetList, ListOf;
      }
    }

    lemma TracksLess'(outofbound: bool, tx: Tx)
      requires priced.all == all && (outofbound ==> priced.Valid())
      ensures outofbound ==> Tracks(priced.remotes, priced.stales + 1, all.remotes - {tx})
    {
      if outofbound {
        TracksLess(priced.remotes, priced.stales, all.remotes, tx);
      }
    }

    /** Removes transactions that the price list has already given up. */
    method DropAll(drop: seq<Tx>)
      requires Core() && Holds(priced.remotes, priced.stales, all.remotes, drop)
      modifies `pending, `queue, `beats, all, priced, pendingNonces
      ensures Core() && priced.Valid()
      ensures forall tx :: tx in all.Txs() <==> tx in old(all.Txs()) && tx !in drop
      ensures forall tx :: tx in all.remotes <==> tx in old(all.remotes) && tx !in drop
      ensures forall r: Phase :: old(Settled(r)) ==> Settled(r)
    {
      hide *;
      ghost var gone: set<Tx> := {};
      GoneStarts(drop, all.Txs());
      GoneStarts(drop, all.remotes);
      CoreParts();
      for i := 0 to |drop|
        invariant Core() && unchanged(priced)
        invariant GoneAre(gone, drop, i)
        invariant all.Txs() == Left(old(all.Txs()), gone) && all.remotes == Left(old(all.remotes), gone)
        invariant forall r: Phase :: old(Settled(r)) ==> Settled(r)
      {
        RemoveTx(drop[i], false);
        GoneStep(gone, drop, i);
        GoneMore(old(all.Txs()), gone, drop[i]);
        GoneMore(old(all.remotes), gone, drop[i]);
        gone := gone + {drop[i]};
      }
      GoneAll(gone, drop, old(all.Txs()));
      GoneAll(gone, drop, old(all.remotes));
      OutIsGone(priced.remotes, priced.stales, old(all.remotes), drop, all.remotes);
      PricedParts();
    }

    /** Drops exactly the remote transactions below the new price. */
    method SetGasPrice(price: nat)
      requires Core() && priced.Valid()
      modifies `gasPrice, `pending, `queue, `beats, all, priced, pendingNonces
      ensures Core() && priced.Valid() && gasPrice == price
      ensures forall tx :: tx in all.Txs() <==> tx in old(all.Txs()) && !(tx in old(all.remotes) && tx.price < price)
      ensures forall r: Phase :: old(Settled(r)) ==> Settled(r)
    {
      gasPrice := price;
      var drop := priced.Cap(price);
      DropAll(drop);
    }

    /** Removes queued transactions of one account; pending lists and virtual nonces stay as they are. */
    method RemoveQueued(a: Address, gone: Txs)
      requires Core() && priced.Valid() && PartOf(gone, ListOf(queue, a))
      modifies `pending, `queue, `beats, all, priced, pendingNonces
      ensures Core() && priced.Valid() && pending == old(pending)
      ensures queue == SetList(old(queue), a, Without(ListOf(old(queue), a), gone))
      ensures all.Txs() == Minus(old(all.Txs()), gone)
      ensures forall b :: pendingNonces.View(b) == old(pendingNonces.View(b))
    {
      ghost var q := ListOf(queue, a);
      var todo := gone.Keys;
      QueuedStarts(queue, a, gone);
      MinusNone(all.Txs(), gone);
      hide *;
      while todo != {}
        invariant Core() && priced.Valid() && pending == old(pending) && todo <= gone.Keys
        invariant queue == SetList(old(queue), a, Without(q, gone - todo))
        invariant all.Txs() == Minus(old(all.Txs()), gone - todo)
        invariant forall b :: pendingNonces.View(b) == old(pendingNonces.View(b))
        decreases todo
      {
        var n :| n in todo;
        QueuedRemoval(old(queue), a, q, gone, todo, n);
        MinusStep(old(all.Txs()), gone, todo, n);
        RemoveTx(gone[n], true);
        todo := todo - {n};
      }
    }

    lemma QueuedRemoval(was: AccountLists, a: Address, q: Txs, gone: Txs, todo: set<nat>, n: nat)
      requires Core() && PartOf(gone, q) && todo <= gone.Keys && n in todo
      requires queue == SetList(was, a, Without(q, gone - todo))
      ensures PendingWithout(pending, all.Txs(), gone[n]) == pending
      ensures QueueWithout(pending, queue, all.Txs(), gone[n]) == SetList(was, a, Without(q, gone - (todo - {n})))
      ensures forall b, v: nat {:trigger NonceWithout(pending, all.Txs(), gone[n], b, v)} ::
        NonceWithout(pending, all.Txs(), gone[n], b, v) == v
    {
      var l := Without(q, gone - todo);
      ListOfSet(was, a, l, a);
      PartitionAt(pending, queue, all.Txs(), a);
      assert n in l && l[n] == gone[n];
      assert Has(l, gone[n]);
      assert gone[n] in all.Txs() && gone[n].sender == a && gone[n].nonce == n && n !in ListOf(pending, a);
      assert l - {n} == Without(q, gone - (todo - {n}));
      SetSame(pending, a);
      SetSet(was, a, l, l - {n});
      hide Partition, SetList, AccountOk;
    }

    lemma {:induction false} QueuedStarts(lists: AccountLists, a: Address, gone: Txs)
      requires NoEmpty(lists)
      ensures SetList(lists, a, Without(ListOf(lists, a), gone - gone.Keys)) == lists
    {
      assert Without(ListOf(lists, a), gone - gone.Keys) == ListOf(lists, a);
      SetSame(lists, a);
    }

    /** The queue limit of an account. */
    function QueueCap(a: Address): (r: Option<nat>)
      reads `locals
    {
      if a in locals then None else Some(config.accountQueue)
    }

    lemma HeadIs(addr: Address)
      ensures Head(addr).nonce == currentState(addr).nonce && Head(addr).balance == currentState(addr).balance
      ensures Head(addr).gas == currentMaxGas
    {
    }

    lemma QueueCapIs(addr: Address, list: Txs)
      ensures CappedTo(list, QueueCap(addr)) == if addr in locals then list else Capped(list, config.accountQueue)
    {
    }

    /** Deletes part of an account's queue from the lookup. */
    method ForgetQueued(addr: Address, gone: Txs, ghost list: Txs, ghost was: set<Tx>, ghost p: Txs, ghost stales: int)
      requires all.Valid() && priced.all == all && NoneLocal(all.remotes, locals)
      requires Tracks(priced.remotes, stales, all.remotes) && Midway(was, all.Txs(), addr, p, list)
      requires PartOf(gone, list)
      modifies all
      ensures all.Valid() && NoneLocal(all.remotes, locals) && Tracks(priced.remotes, stales + |gone|, all.remotes)
      ensures Midway(was, all.Txs(), addr, p, Without(list, gone))
    {
      hide *;
      MidwayDrop(was, all.Txs(), addr, p, list, gone);
      NoneLocalMinus(all.remotes, locals, gone);
      Forget(gone, stales);
    }

    /** Deletes what is too old or too costly from an account's queue; `count` has yet to reach the price list. */
    method CleanQueue(addr: Address) returns (list: Txs, count: nat)
      requires Core() && priced.Valid() && addr in queue
      modifies all
      ensures all.Valid() && Tracks(priced.remotes, priced.stales + count, all.remotes)
      ensures NoneLocal(all.remotes, locals)
      ensures list == Executable(queue[addr], Head(addr))
      ensures Midway(old(all.Txs()), all.Txs(), addr, ListOf(pending, addr), list)
    {
      hide *;
      CoreParts();
      PricedParts();
      ListOfIn(queue, addr);
      ghost var p, was := ListOf(pending, addr), all.Txs();
      var h, q := Head(addr), queue[addr];
      MidwayStarts(pending, queue, was, addr);
      CleanParts(q, h);
      var forwards: Txs := Before(q, h.nonce);
      var rest: Txs := From(q, h.nonce);
      var drops: Txs := Unpayable(rest, h.balance, h.gas);
      ForgetQueued(addr, forwards, q, was, p, priced.stales);
      ForgetQueued(addr, drops, rest, was, p, priced.stales + |forwards|);
      list := Without(rest, drops);
      count := |forwards| + |drops|;
    }

    /** Deletes what exceeds the account's queue limit from the lookup. */
    method CapQueue(addr: Address, list: Txs, ghost was: set<Tx>, ghost p: Txs, ghost count: nat)
      returns (kept: Txs, more: nat)
      requires all.Valid() && priced.all == all && NoneLocal(all.remotes, locals)
      requires Tracks(priced.remotes, priced.stales + count, all.remotes) && Midway(was, all.Txs(), addr, p, list)
      modifies all
      ensures all.Valid() && NoneLocal(all.remotes, locals)
      ensures Tracks(priced.remotes, priced.stales + count + more, all.remotes) && Midway(was, all.Txs(), addr, p, kept)
      ensures kept == CappedTo(list, QueueCap(addr))
    {
      hide *;
      QueueCapIs(addr, list);
      if addr in locals {
        return list, 0;
      }
      kept := Capped(list, config.accountQueue);
      var caps := Without(list, kept);
      CapParts(list, config.accountQueue);
      ForgetQueued(addr, caps, list, was, p, priced.stales + count);
      more := |caps|;
    }

    /** Cleans an account's queue and promotes what is ready. */
    method PromoteReady(addr: Address) returns (list: Txs, count: nat)
      requires Core() && priced.Valid() && addr in queue
      modifies `pending, `beats, all, priced, pendingNonces
      ensures all.Valid() && NoneLocal(all.remotes, locals)
      ensures Tracks(priced.remotes, priced.stales + count, all.remotes)
      ensures old(beats.Keys) <= beats.Keys
      ensures pending == SetList(old(pending), addr,
        Promoted(ListOf(old(pending), addr), queue[addr], Head(addr), old(pendingNonces.View(addr))))
      ensures list == Unready(queue[addr], Head(addr), old(pendingNonces.View(addr)))
      ensures Midway(old(all.Txs()), all.Txs(), addr,
        Promoted(ListOf(old(pending), addr), queue[addr], Head(addr), old(pendingNonces.View(addr))), list)
      ensures NextNonce(Promotable(queue[addr], Head(addr), old(pendingNonces.View(addr))),
        old(pendingNonces.View(addr)), pendingNonces.View(addr))
      ensures forall a | a != addr :: pendingNonces.View(a) == old(pendingNonces.View(a))
    {
      hide *;
      ghost var p, h, virtual := ListOf(pending, addr), Head(addr), pendingNonces.View(addr);
      CoreParts();
      list, count := CleanQueue(addr);
      var start := pendingNonces.Get(addr);
      var readies := ReadyTxs(list, start);
      MidwayPromote(old(all.Txs()), all.Txs(), addr, p, list, start);
      PromoteIs(p, queue[addr], h, virtual, list);
      PromoteAll(addr, readies);
      list := Without(list, readies);
    }

    /** One account's turn in promoteExecutables. */
    method PromoteAccount(addr: Address)
      requires Core() && priced.Valid()
      modifies `pending, `queue, `beats, all, priced, pendingNonces
      ensures Core() && priced.Valid()
      ensures forall a: Address {:trigger pendingNonces.View(a)} ::
        if a == addr then
          Promotes(Head(a), QueueCap(a), ListOf(old(pending), a), ListOf(old(queue), a), old(pendingNonces.View(a)),
                   ListOf(pending, a), ListOf(queue, a), pendingNonces.View(a))
        else
          Unmoved(ListOf(old(pending), a), ListOf(old(queue), a), old(pendingNonces.View(a)),
                  ListOf(pending, a), ListOf(queue, a), pendingNonces.View(a))
    {
      hide *;
      CoreParts();
      ListOfIn(queue, addr);
      PromotedParts(pending, queue, addr, Head(addr), pendingNonces.View(addr), QueueCap(addr));
      if addr !in queue {
        PromotedNow(addr);
        return;
      }
      ghost var p, was := Promoted(ListOf(pending, addr), queue[addr], Head(addr), pendingNonces.View(addr)), all.Txs();
      var list, count := PromoteReady(addr);
      var more;
      list, more := CapQueue(addr, list, was, p, count);
      TimedMore(queue, old(beats), beats);
      priced.Removed(count + more);
      StoreQueue(addr, list);
      MidwayEnds(old(pending), old(queue), was, all.Txs(), addr, p, list);
      CoreHolds();
      PromotedNow(addr);
    }

    twostate lemma PromotedNow(addr: Address)
      requires pending == SetList(old(pending), addr,
        Promoted(ListOf(old(pending), addr), ListOf(old(queue), addr), Head(addr), old(pendingNonces.View(addr))))
      requires queue == SetList(old(queue), addr,
        Unpromoted(ListOf(old(queue), addr), Head(addr), old(pendingNonces.View(addr)), QueueCap(addr)))
      requires NextNonce(Promotable(ListOf(old(queue), addr), Head(addr), old(pendingNonces.View(addr))),
        old(pendingNonces.View(addr)), pendingNonces.View(addr))
      requires pendingNonces == old(pendingNonces)
      requires forall a | a != addr :: pendingNonces.View(a) == old(pendingNonces.View(a))
      ensures forall a: Address {:trigger pendingNonces.View(a)} ::
        if a == addr then
          Promotes(Head(a), QueueCap(a), ListOf(old(pending), a), ListOf(old(queue), a), old(pendingNonces.View(a)),
                   ListOf(pending, a), ListOf(queue, a), pendingNonces.View(a))
        else
          Unmoved(ListOf(old(pending), a), ListOf(old(queue), a), old(pendingNonces.View(a)),
                  ListOf(pending, a), ListOf(queue, a), pendingNonces.View(a))
    {
      hide Promoted, Unpromoted, Promotable, NextNonce, SetList;
      forall a: Address
        ensures if a == addr then
          Promotes(Head(a), QueueCap(a), ListOf(old(pending), a), ListOf(old(queue), a), old(pendingNonces.View(a)),
                   ListOf(pending, a), ListOf(queue, a), pendingNonces.View(a))
        else
          Unmoved(ListOf(old(pending), a), ListOf(old(queue), a), old(pendingNonces.View(a)),
                  ListOf(pending, a), ListOf(queue, a), pendingNonces.View(a))
      {
        ListOfSet(old(pending), addr, Promoted(ListOf(old(pending), addr), ListOf(old(queue), addr), Head(addr),
                                               old(pendingNonces.View(addr))), a);
        ListOfSet(old(queue), addr,
                  Unpromoted(ListOf(old(queue), addr), Head(addr), old(pendingNonces.View(addr)), QueueCap(addr)), a);
      }
    }

    /** Gives each of the accounts its turn. */
    method PromoteExecutables(accounts: set<Address>)
      requires Core() && priced.Valid()
      modifies `pending, `queue, `beats, all, priced, pendingNonces
      ensures Core() && priced.Valid()
      ensures forall a: Address {:trigger pendingNonces.View(a)} ::
        if a in accounts then
          Promotes(Head(a), QueueCap(a), ListOf(old(pending), a), ListOf(old(queue), a), old(pendingNonces.View(a)),
                   ListOf(pending, a), ListOf(queue, a), pendingNonces.View(a))
        else
          Unmoved(ListOf(old(pending), a), ListOf(old(queue), a), old(pendingNonces.View(a)),
                  ListOf(pending, a), ListOf(queue, a), pendingNonces.View(a))
      ensures (old(Settled(Idle)) ==> Settled(Idle)) && (old(Settled(Resetting)) ==> Fresh())
      ensures forall a | a in accounts || a !in old(queue) :: Clear(a)
      ensures old(Settled(Idle)) || old(Settled(Resetting)) ==>
        && (forall a | a in accounts || a !in old(queue) :: LeavesNext(a) <==> old(WouldWait(a)))
        && (forall a | LeavesNone(a) :: pendingNonces.View(a) == old(pendingNonces.View(a)))
      ensures all.Txs() <= old(all.Txs())
    {
      hide Core, TxPricedList.Valid, Promotes, ListOf, Head, QueueCap, TxNoncer.View;
      var todo := accounts;
      while todo != {}
        invariant todo <= accounts && Core() && priced.Valid()
        invariant forall a: Address {:trigger pendingNonces.View(a)} ::
        if a in accounts && a !in todo then
          Promotes(Head(a), QueueCap(a), ListOf(old(pending), a), ListOf(old(queue), a), old(pendingNonces.View(a)),
                   ListOf(pending, a), ListOf(queue, a), pendingNonces.View(a))
        else
          Unmoved(ListOf(old(pending), a), ListOf(old(queue), a), old(pendingNonces.View(a)),
                  ListOf(pending, a), ListOf(queue, a), pendingNonces.View(a))
        decreases todo
      {
        var addr :| addr in todo;
        PromoteAccount(addr);
        todo := todo - {addr};
      }
      PromotedSettled(accounts);
      PromotedWaits(accounts);
      PromotedNothingNew(accounts);
    }

    twostate lemma PromotedNothingNew(accounts: set<Address>)
      requires old(Core()) && Core() && pendingNonces == old(pendingNonces)
      requires forall a: Address {:trigger pendingNonces.View(a)} ::
        if a in accounts then
          Promotes(Head(a), QueueCap(a), ListOf(old(pending), a), ListOf(old(queue), a), old(pendingNonces.View(a)),
                   ListOf(pending, a), ListOf(queue, a), pendingNonces.View(a))
        else
          Unmoved(ListOf(old(pending), a), ListOf(old(queue), a), old(pendingNonces.View(a)),
                  ListOf(pending, a), ListOf(queue, a), pendingNonces.View(a))
      ensures all.Txs() <= old(all.Txs())
    {
      hide Partition, Promotes, ListOf;
      forall a: Address
        ensures Within(ListOf(pending, a), ListOf(queue, a), ListOf(old(pending), a), ListOf(old(queue), a))
      {
        var next := pendingNonces.View(a);
        if a in accounts {
          PromotesWithin(Head(a), QueueCap(a), ListOf(old(pending), a), ListOf(old(queue), a),
                         old(pendingNonces.View(a)), ListOf(pending, a), ListOf(queue, a), next);
        }
      }
      NothingGained(old(pending), old(queue), old(all.Txs()), pending, queue, all.Txs());
    }

    twostate lemma PromotedWaits(accounts: set<Address>)
      requires old(Core()) && pendingNonces == old(pendingNonces) && locals == old(locals)
      requires currentState == old(currentState) && currentMaxGas == old(currentMaxGas)
      requires forall a: Address {:trigger pendingNonces.View(a)} ::
        if a in accounts then
          Promotes(Head(a), QueueCap(a), ListOf(old(pending), a), ListOf(old(queue), a), old(pendingNonces.View(a)),
                   ListOf(pending, a), ListOf(queue, a), pendingNonces.View(a))
        else
          Unmoved(ListOf(old(pending), a), ListOf(old(queue), a), old(pendingNonces.View(a)),
                  ListOf(pending, a), ListOf(queue, a), pendingNonces.View(a))
      ensures old(Settled(Idle)) || old(Settled(Resetting)) ==>
        && (forall a | a in accounts || a !in old(queue) :: LeavesNext(a) <==> old(WouldWait(a)))
        && (forall a | LeavesNone(a) :: pendingNonces.View(a) == old(pendingNonces.View(a)))
    {
      hide NonceOk, Partition, Promotes, Unmoved, Demoted, Requeued, Waits, NextQueued;
      if old(Settled(Idle)) || old(Settled(Resetting)) {
        var phase := if old(Settled(Idle)) then Idle else Resetting;
        forall a: Address
          ensures a in accounts || a !in old(queue) ==> (LeavesNext(a) <==> old(WouldWait(a)))
          ensures LeavesNone(a) ==> pendingNonces.View(a) == old(pendingNonces.View(a))
        {
          assert old(Head(a)) == Head(a);
          assert Stands(phase, a, ListOf(old(pending), a), Head(a), old(pendingNonces.View(a)));
          PartitionAt(old(pending), old(queue), old(all.Txs()), a);
          PromotionLeaves(phase, ListOf(old(pending), a), ListOf(old(queue), a), Head(a), old(pendingNonces.View(a)),
                          QueueCap(a), ListOf(pending, a), ListOf(queue, a), pendingNonces.View(a), a in accounts);
        }
      }
    }

    twostate lemma PromotedSettled(accounts: set<Address>)
      requires old(Core()) && pendingNonces == old(pendingNonces)
      requires currentState == old(currentState) && currentMaxGas == old(currentMaxGas)
      requires forall a: Address {:trigger pendingNonces.View(a)} ::
        if a in accounts then
          Promotes(Head(a), QueueCap(a), ListOf(old(pending), a), ListOf(old(queue), a), old(pendingNonces.View(a)),
                   ListOf(pending, a), ListOf(queue, a), pendingNonces.View(a))
        else
          Unmoved(ListOf(old(pending), a), ListOf(old(queue), a), old(pendingNonces.View(a)),
                  ListOf(pending, a), ListOf(queue, a), pendingNonces.View(a))
      ensures (old(Settled(Idle)) ==> Settled(Idle)) && (old(Settled(Resetting)) ==> Fresh())
      ensures forall a | a in accounts || a !in old(queue) :: Clear(a)
    {
      hide Promoted, Promotable, NextNonce, NonceOk, FreshOk, Partition;
      forall a: Address
        ensures old(Settled(Idle)) ==> NonceOk(Idle, ListOf(pending, a), Head(a), pendingNonces.View(a))
        ensures old(Settled(Resetting)) ==> FreshOk(ListOf(pending, a), Head(a), pendingNonces.View(a))
        ensures a in accounts || a !in old(queue) ==> Clear(a)
      {
        if a in accounts {
          PromotedAccountUnstuck(old(pending), old(queue), old(all.Txs()), a, Head(a), old(pendingNonces.View(a)),
                                 QueueCap(a), pendingNonces.View(a));
        }
        PartitionAt(old(pending), old(queue), old(all.Txs()), a);
        assert old(Head(a)) == Head(a);
        assert old(Settled(Idle)) ==> NonceOk(Idle, ListOf(old(pending), a), Head(a), old(pendingNonces.View(a)));
        assert old(Settled(Resetting)) ==>
          NonceOk(Resetting, ListOf(old(pending), a), Head(a), old(pendingNonces.View(a)));
        PromotesKeeps(Head(a), ListOf(old(pending), a), ListOf(old(queue), a), old(pendingNonces.View(a)),
                      ListOf(pending, a), pendingNonces.View(a), a in accounts);
      }
    }

    /** Deletes part of an account's pending list from the lookup. */
    method ForgetPending(addr: Address, gone: Txs, ghost list: Txs, ghost was: set<Tx>, ghost q: Txs, ghost stales: int)
      requires all.Valid() && priced.all == all && NoneLocal(all.remotes, locals)
      requires Tracks(priced.remotes, stales, all.remotes) && Midway(was, all.Txs(), addr, list, q)
      requires PartOf(gone, list)
      modifies all
      ensures all.Valid() && NoneLocal(all.remotes, locals) && Tracks(priced.remotes, stales + |gone|, all.remotes)
      ensures Midway(was, all.Txs(), addr, Without(list, gone), q)
    {
      hide *;
      MidwayDropPending(was, all.Txs(), addr, list, q, gone);
      NoneLocalMinus(all.remotes, locals, gone);
      Forget(gone, stales);
    }

    /** Deletes what is too old or too costly from an account's pending list. */
    method CleanPending(addr: Address) returns (list: Txs, invalids: Txs)
      requires Core() && priced.Valid() && addr in pending
      modifies all, priced
      ensures all.Valid() && NoneLocal(all.remotes, locals) && priced.Valid()
      ensures list == Payable(pending[addr], Head(addr))
      ensures invalids == Following(Young(pending[addr], Head(addr)), Costly(pending[addr], Head(addr)))
      ensures Midway(old(all.Txs()), all.Txs(), addr, list, ListOf(queue, addr) + invalids)
      ensures Owned(invalids, addr) && invalids.Keys !! ListOf(queue, addr).Keys
    {
      hide *;
      CoreParts();
      PricedParts();
      ListOfIn(pending, addr);
      ghost var q, was := ListOf(queue, addr), all.Txs();
      var h, p := Head(addr), pending[addr];
      MidwayStarts(pending, queue, was, addr);
      DemoteParts(p, h);
      var olds: Txs := Before(p, h.nonce);
      var young: Txs := From(p, h.nonce);
      var drops: Txs := Unpayable(young, h.balance, h.gas);
      ForgetPending(addr, olds, p, was, q, priced.stales);
      ForgetPending(addr, drops, young, was, q, priced.stales + |olds|);
      priced.Removed(|olds| + |drops|);
      list, invalids := Leading(young, drops), Following(young, drops);
      MidwayDemote(was, all.Txs(), addr, Without(young, drops), q, invalids);
    }

    /** Queues invalidated transactions again, and all of the list if it does not start at the account's nonce. */
    method RequeueDemoted(addr: Address, list: Txs, invalids: Txs) returns (left: Txs)
      requires all.Valid() && priced.all == all && NoEmpty(queue)
      requires Owned(invalids, addr) && invalids.Keys !! ListOf(queue, addr).Keys
      requires Owned(list, addr) && list.Keys !! (ListOf(queue, addr) + invalids).Keys
      modifies `queue, `beats, all, priced
      ensures unchanged(all) && unchanged(priced)
      ensures var gap := list != map[] && currentState(addr).nonce !in list;
        && left == (if gap then map[] else list)
        && queue == SetList(old(queue), addr, ListOf(old(queue), addr) + (invalids + if gap then list else map[]))
      ensures old(Timed(queue, beats)) ==> Timed(queue, beats)
    {
      hide *;
      ghost var q := ListOf(queue, addr);
      Requeue(invalids, addr);
      ListOfSet(old(queue), addr, q + invalids, addr);
      NoEmptySet(old(queue), addr, q + invalids);
      if list != map[] && currentState(addr).nonce !in list {
        Requeue(list, addr);
        SetSet(old(queue), addr, q + invalids, q + invalids + list);
        MergeAssociates(q, invalids, list);
        return map[];
      }
      MergeAssociates(q, invalids, map[]);
      left := list;
    }

    /** One account's turn in demoteUnexecutables. */
    method DemoteAccount(addr: Address)
      requires Core() && priced.Valid() && addr in pending
      modifies `pending, `queue, `beats, all, priced
      ensures Core() && priced.Valid() && old(pending.Keys) - {addr} <= pending.Keys <= old(pending.Keys)
      ensures forall a: Address {:trigger pendingNonces.View(a)} ::
        if a == addr then
          Demotes(Head(a), ListOf(old(pending), a), ListOf(old(queue), a), old(pendingNonces.View(a)),
                  ListOf(pending, a), ListOf(queue, a), pendingNonces.View(a))
        else
          Unmoved(ListOf(old(pending), a), ListOf(old(queue), a), old(pendingNonces.View(a)),
                  ListOf(pending, a), ListOf(queue, a), pendingNonces.View(a))
    {
      hide *;
      CoreParts();
      ListOfIn(pending, addr);
      HeadIs(addr);
      ghost var p, q, h := pending[addr], ListOf(queue, addr), Head(addr);
      var list, invalids := CleanPending(addr);
      MidwayGap(old(all.Txs()), all.Txs(), addr, list, q + invalids);
      DemotedMidway(old(all.Txs()), all.Txs(), addr, p, q, h);
      list := RequeueDemoted(addr, list, invalids);
      pending := SetList(pending, addr, list);
      MidwayEnds(old(pending), old(queue), old(all.Txs()), all.Txs(), addr, Demoted(p, h), q + Requeued(p, h));
      KeysAfterSet(old(pending), addr, list);
      CoreHolds();
      DemotedNow(addr);
    }

    twostate lemma DemotedNow(addr: Address)
      requires pending == SetList(old(pending), addr, Demoted(ListOf(old(pending), addr), Head(addr)))
      requires queue == SetList(old(queue), addr,
                                ListOf(old(queue), addr) + Requeued(ListOf(old(pending), addr), Head(addr)))
      requires pendingNonces == old(pendingNonces) && forall a :: pendingNonces.View(a) == old(pendingNonces.View(a))
      ensures forall a: Address {:trigger pendingNonces.View(a)} ::
        if a == addr then
          Demotes(Head(a), ListOf(old(pending), a), ListOf(old(queue), a), old(pendingNonces.View(a)),
                  ListOf(pending, a), ListOf(queue, a), pendingNonces.View(a))
        else
          Unmoved(ListOf(old(pending), a), ListOf(old(queue), a), old(pendingNonces.View(a)),
                  ListOf(pending, a), ListOf(queue, a), pendingNonces.View(a))
    {
      hide Demoted, Requeued, SetList;
      forall a: Address
        ensures if a == addr then
          Demotes(Head(a), ListOf(old(pending), a), ListOf(old(queue), a), old(pendingNonces.View(a)),
                  ListOf(pending, a), ListOf(queue, a), pendingNonces.View(a))
        else
          Unmoved(ListOf(old(pending), a), ListOf(old(queue), a), old(pendingNonces.View(a)),
                  ListOf(pending, a), ListOf(queue, a), pendingNonces.View(a))
      {
        ListOfSet(old(pending), addr, Demoted(ListOf(old(pending), addr), Head(addr)), a);
        ListOfSet(old(queue), addr, ListOf(old(queue), addr) + Requeued(ListOf(old(pending), addr), Head(addr)), a);
      }
    }

    /** Gives each account with pending transactions its turn. */
    method DemoteUnexecutables()
      requires Core() && priced.Valid()
      modifies `pending, `queue, `beats, all, priced
      ensures Core() && priced.Valid()
      ensures forall a: Address {:trigger pendingNonces.View(a)} ::
        if a in old(pending) then
          Demotes(Head(a), ListOf(old(pending), a), ListOf(old(queue), a), old(pendingNonces.View(a)),
                  ListOf(pending, a), ListOf(queue, a), pendingNonces.View(a))
        else
          Unmoved(ListOf(old(pending), a), ListOf(old(queue), a), old(pendingNonces.View(a)),
                  ListOf(pending, a), ListOf(queue, a), pendingNonces.View(a))
      ensures old(Fresh()) ==> Settled(Idle) && forall a | old(Clear(a)) :: Free(a)
      ensures forall a :: !NextFree(a) <==> old(LeavesNext(a))
      ensures forall a :: a !in pending <==> old(LeavesNone(a))
      ensures all.Txs() <= old(all.Txs())
    {
      hide Core, TxPricedList.Valid, Demotes, ListOf, Head, TxNoncer.View;
      var todo := pending.Keys;
      while todo != {}
        invariant Core() && priced.Valid() && todo <= pending.Keys && pending.Keys <= old(pending.Keys)
        invariant forall a: Address {:trigger pendingNonces.View(a)} ::
        if a in old(pending) && a !in todo then
          Demotes(Head(a), ListOf(old(pending), a), ListOf(old(queue), a), old(pendingNonces.View(a)),
                  ListOf(pending, a), ListOf(queue, a), pendingNonces.View(a))
        else
          Unmoved(ListOf(old(pending), a), ListOf(old(queue), a), old(pendingNonces.View(a)),
                  ListOf(pending, a), ListOf(queue, a), pendingNonces.View(a))
        decreases todo
      {
        var addr :| addr in todo;
        DemoteAccount(addr);
        todo := todo - {addr};
      }
      DemotedSettled();
      CoreParts();
      DemotedWaits();
      DemotedNothingNew();
    }

    twostate lemma DemotedNothingNew()
      requires old(Core()) && Core() && pendingNonces == old(pendingNonces)
      requires forall a: Address {:trigger pendingNonces.View(a)} ::
        if a in old(pending) then
          Demotes(Head(a), ListOf(old(pending), a), ListOf(old(queue), a), old(pendingNonces.View(a)),
                  ListOf(pending, a), ListOf(queue, a), pendingNonces.View(a))
        else
          Unmoved(ListOf(old(pending), a), ListOf(old(queue), a), old(pendingNonces.View(a)),
                  ListOf(pending, a), ListOf(queue, a), pendingNonces.View(a))
      ensures all.Txs() <= old(all.Txs())
    {
      hide Partition, Demotes, ListOf;
      forall a: Address
        ensures Within(ListOf(pending, a), ListOf(queue, a), ListOf(old(pending), a), ListOf(old(queue), a))
      {
        var next := pendingNonces.View(a);
        if a in old(pending) {
          DemotesWithin(Head(a), ListOf(old(pending), a), ListOf(old(queue), a), old(pendingNonces.View(a)),
                        ListOf(pending, a), ListOf(queue, a), next);
        }
      }
      NothingGained(old(pending), old(queue), old(all.Txs()), pending, queue, all.Txs());
    }

    twostate lemma DemotedWaits()
      requires NoEmpty(pending) && pendingNonces == old(pendingNonces)
      requires currentState == old(currentState) && currentMaxGas == old(currentMaxGas)
      requires forall a: Address {:trigger pendingNonces.View(a)} ::
        if a in old(pending) then
          Demotes(Head(a), ListOf(old(pending), a), ListOf(old(queue), a), old(pendingNonces.View(a)),
                  ListOf(pending, a), ListOf(queue, a), pendingNonces.View(a))
        else
          Unmoved(ListOf(old(pending), a), ListOf(old(queue), a), old(pendingNonces.View(a)),
                  ListOf(pending, a), ListOf(queue, a), pendingNonces.View(a))
      ensures forall a :: !NextFree(a) <==> old(LeavesNext(a))
      ensures forall a :: a !in pending <==> old(LeavesNone(a))
    {
      hide Demoted, Requeued, NextQueued;
      forall a: Address
        ensures (!NextFree(a) <==> old(LeavesNext(a))) && (a !in pending <==> old(LeavesNone(a)))
      {
        assert old(Head(a)) == Head(a);
        assert pendingNonces.View(a) == old(pendingNonces.View(a));
        if a !in old(pending) {
          NothingToDemote(map[], ListOf(queue, a), Head(a), 0);
        }
      }
    }

    twostate lemma DemotedSettled()
      requires pendingNonces == old(pendingNonces)
      requires currentState == old(currentState) && currentMaxGas == old(currentMaxGas)
      requires forall a: Address {:trigger pendingNonces.View(a)} ::
        if a in old(pending) then
          Demotes(Head(a), ListOf(old(pending), a), ListOf(old(queue), a), old(pendingNonces.View(a)),
                  ListOf(pending, a), ListOf(queue, a), pendingNonces.View(a))
        else
          Unmoved(ListOf(old(pending), a), ListOf(old(queue), a), old(pendingNonces.View(a)),
                  ListOf(pending, a), ListOf(queue, a), pendingNonces.View(a))
      ensures old(Fresh()) ==> Settled(Idle) && forall a | old(Clear(a)) :: Free(a)
    {
      hide Demoted, Requeued, NonceOk, FreshOk;
      forall a: Address | old(Fresh())
        ensures NonceOk(Idle, ListOf(pending, a), Head(a), pendingNonces.View(a))
        ensures old(Clear(a)) ==> Free(a)
      {
        assert old(Head(a)) == Head(a);
        assert FreshOk(ListOf(old(pending), a), Head(a), old(pendingNonces.View(a)));
        if a in old(pending) {
          DemotionKeeps(ListOf(old(pending), a), Head(a), old(pendingNonces.View(a)));
          if a !in pending && old(Clear(a)) {
            assert ListOf(pending, a) == map[];
            assert Demotes(Head(a), ListOf(old(pending), a), ListOf(old(queue), a), old(pendingNonces.View(a)),
                           ListOf(pending, a), ListOf(queue, a), pendingNonces.View(a));
            DemotionUnstuck(ListOf(old(pending), a), ListOf(old(queue), a), Head(a), old(pendingNonces.View(a)));
          }
        } else {
          NothingPending(Head(a), old(pendingNonces.View(a)));
        }
      }
    }

    function ValidateTx(tx: Tx, local: bool): (err: Error)
      reads `currentState, `currentMaxGas, `gasPrice
      ensures err !in {AlreadyKnown, TxPoolOverflow, ReplaceUnderpriced}
      ensures err == NoError ==> tx.gas <= Head(tx.sender).gas && tx.cost <= Head(tx.sender).balance
    {
      if tx.size > TX_MAX_SIZE then OversizedData
      else if tx.value < 0 then NegativeValue
      else if currentMaxGas < tx.gas then GasLimit
      else if !local && tx.price < gasPrice then Underpriced
      else if currentState(tx.sender).nonce > tx.nonce then NonceTooLow
      else if currentState(tx.sender).balance < tx.cost then InsufficientFunds
      else if tx.gas < tx.intrinsic then IntrinsicGas
      else NoError
    }

    /** Admissible at the pool's head and price. */
    predicate Admissible(tx: Tx, local: bool)
      reads `currentState, `currentMaxGas, `gasPrice
    {
      AdmissibleOn(Terms(currentState, currentMaxGas, gasPrice), tx, local)
    }

    /** Validation passes exactly those, and each of its errors names something that is wrong. */
    lemma ValidExactly(tx: Tx, local: bool)
      ensures ValidateTx(tx, local) == NoError <==> Admissible(tx, local)
      ensures match ValidateTx(tx, local)
        case OversizedData => tx.size > 128 * 1024
        case NegativeValue => tx.value < 0
        case GasLimit => tx.gas > currentMaxGas
        case Underpriced => !local && tx.price < gasPrice
        case NonceTooLow => tx.nonce < currentState(tx.sender).nonce
        case InsufficientFunds => tx.cost > currentState(tx.sender).balance
        case IntrinsicGas => tx.gas < tx.intrinsic
        case _ => true
    {
    }

    function Limit(): (r: nat) {
      config.globalSlots + config.globalQueue
    }

    /** The transaction's slots do not fit beside the pooled transactions, each counted as one. */
    ghost predicate Full(tx: Tx)
      reads all
    {
      |all.Txs()| + NumSlots(tx) > Limit()
    }

    lemma FullIs(tx: Tx)
      ensures Full(tx) <==> |all.Txs()| + NumSlots(tx) > Limit()
    {
    }

    /** The list a transaction would be put in. */
    function PlaceOf(tx: Tx): (r: Txs)
      reads `pending, `queue
    {
      if tx.nonce in ListOf(pending, tx.sender) then ListOf(pending, tx.sender) else ListOf(queue, tx.sender)
    }

    lemma PlaceIs(tx: Tx)
      ensures PlaceOf(tx) ==
        if tx.nonce in ListOf(pending, tx.sender) then ListOf(pending, tx.sender) else ListOf(queue, tx.sender)
    {
    }

    /** When the pool is full, drops the cheapest remote transactions, as many as the new one's slots need. */
    method MakeRoom(tx: Tx, isLocal: bool) returns (err: Error, ghost drop: seq<Tx>)
      requires Core() && priced.Valid()
      modifies `pending, `queue, `beats, all, priced, pendingNonces
      ensures Core() && priced.Valid()
      ensures forall t :: t in all.Txs() <==> t in old(all.Txs()) && t !in drop
      ensures forall t :: t in all.remotes <==> t in old(all.remotes) && t !in drop
      ensures forall d | d in drop :: d in old(all.remotes)
      ensures forall d, t | d in drop && t in all.remotes ::
        d.price < t.price || (d.price == t.price && d.nonce >= t.nonce)
      ensures !old(Full(tx)) ==> err == NoError && drop == [] && pending == old(pending) && queue == old(queue)
      ensures !old(Full(tx)) ==> all.Txs() == old(all.Txs())
      ensures !old(Full(tx)) ==> forall a :: pendingNonces.View(a) == old(pendingNonces.View(a))
      ensures old(Full(tx)) ==>
        var need := old(all.slots) - Limit() + NumSlots(tx);
        && (err == Underpriced <==>
              !isLocal && old(all.remotes) != {} && forall t | t in old(all.remotes) :: t.price >= tx.price)
        && (err == TxPoolOverflow ==> !isLocal && SlotSum(old(all.remotes)) < need)
        && (err == NoError && SeqSlots(drop) < need ==> isLocal && all.remotes == {})
        && (drop != [] ==> SeqSlots(drop[..|drop|-1]) < need)
        && (err == NoError && !isLocal && Distinct(drop) ==> all.slots + NumSlots(tx) <= Limit())
      ensures all.slots >= old(all.slots) - SeqSlots(drop)
      ensures all.slots == old(all.slots) - SeqSlots(drop) <==> Distinct(drop)
      ensures old(LiveOnce(priced.remotes, all.remotes)) ==> Distinct(drop)
      ensures err in {NoError, Underpriced, TxPoolOverflow} && (err != NoError ==> drop == [])
      ensures forall r: Phase :: old(Settled(r)) ==> Settled(r)
    {
      hide *;
      CoreParts();
      drop := [];
      DropFrees(all.Txs(), drop, all.Txs());
      DistinctEmpty();
      FullIs(tx);
      var count := all.Count();
      if count + NumSlots(tx) <= Limit() {
        return NoError, [];
      }
      if !isLocal {
        var underpriced := priced.Underpriced(tx);
        if underpriced {
          return Underpriced, [];
        }
      }
      var dropped, success := priced.Discard(all.slots - Limit() + NumSlots(tx), isLocal);
      if !isLocal && !success {
        PricedUnbroken(dropped);
        return TxPoolOverflow, [];
      }
      SlotParts();
      DropAll(dropped);
      CoreParts();
      SlotParts();
      DropFrees(old(all.Txs()), dropped, all.Txs());
      return NoError, dropped;
    }

    lemma SlotParts()
      requires all.Valid()
      ensures all.slots == SlotSum(all.Txs())
    {
    }

    lemma PricedUnbroken(drop: seq<Tx>)
      requires priced.all == all && Holds(priced.remotes, priced.stales, all.remotes, drop) && drop == []
      ensures priced.Valid()
    {
    }

    /** Exchanges a pending transaction for another with its nonce, in the list and in the lookup. */
    method SwapPending(tx: Tx, isLocal: bool)
      requires Core() && priced.Valid() && tx !in all.Txs() && tx.nonce in ListOf(pending, tx.sender)
      requires !isLocal ==> tx.sender !in locals
      modifies `pending, all, priced
      ensures all.Valid() && priced.Valid() && NoneLocal(all.remotes, locals)
      ensures all.Txs() == Displacing(old(all.Txs()), ListOf(old(pending), tx.sender), tx, true)
      ensures pending == Enqueued(old(pending), tx) && (tx in all.remotes <==> !isLocal)
    {
      hide *;
      CoreParts();
      ghost var p := ListOf(pending, tx.sender);
      NoneLocalDisplacing(all.remotes, locals, p, tx, !isLocal);
      DisplacingParts(all.Txs(), p, tx);
      DisplacingParts(all.remotes, p, tx);
      Displace(ListOf(pending, tx.sender)[tx.nonce]);
      pending := Enqueued(pending, tx);
      Admit(tx, isLocal);
    }

    /** Puts a transaction in the place of a pending one with its nonce. */
    method ReplacePending(tx: Tx, isLocal: bool)
      requires Core() && priced.Valid() && tx !in all.Txs() && tx.nonce in ListOf(pending, tx.sender)
      requires !isLocal ==> tx.sender !in locals
      requires tx.gas <= Head(tx.sender).gas && tx.cost <= Head(tx.sender).balance
      modifies `pending, `beats, all, priced
      ensures Core() && priced.Valid()
      ensures all.Txs() == Displacing(old(all.Txs()), ListOf(old(pending), tx.sender), tx, true)
      ensures pending == Enqueued(old(pending), tx) && (tx in all.remotes <==> !isLocal)
      ensures beats == old(beats)[tx.sender := now]
      ensures forall r: Phase :: old(Settled(r)) ==> Settled(r)
    {
      hide *;
      CoreParts();
      ReplacementParts(pending, queue, all.Txs(), tx);
      SwapPending(tx, isLocal);
      beats := beats[tx.sender := now];
      TimedAfter(queue, old(beats), queue, beats, tx.sender);
      CoreHolds();
      ReplacementSettled(tx);
    }

    twostate lemma ReplacementSettled(tx: Tx)
      requires pending == Enqueued(old(pending), tx) && tx.nonce in ListOf(old(pending), tx.sender)
      requires pendingNonces == old(pendingNonces) && currentState == old(currentState)
      requires currentMaxGas == old(currentMaxGas)
      requires forall a :: pendingNonces.View(a) == old(pendingNonces.View(a))
      requires tx.gas <= Head(tx.sender).gas && tx.cost <= Head(tx.sender).balance
      ensures forall r: Phase :: old(Settled(r)) ==> Settled(r)
    {
      hide Stands;
      forall r: Phase, a: Address | old(Settled(r))
        ensures Stands(r, a, ListOf(pending, a), Head(a), pendingNonces.View(a))
      {
        assert Stands(r, a, ListOf(old(pending), a), Head(a), old(pendingNonces.View(a)));
        SameKeysStands(r, a, ListOf(old(pending), a), ListOf(pending, a), Head(a), pendingNonces.View(a), tx);
      }
    }

    /** Puts a new transaction into the queue. */
    method AddQueued(tx: Tx, isLocal: bool) returns (replaced: bool, ok: bool)
      requires Core() && priced.Valid() && tx !in all.Txs() && tx.nonce !in ListOf(pending, tx.sender)
      requires !isLocal ==> tx.sender !in locals
      modifies `queue, `beats, all, priced
      ensures Core() && priced.Valid()
      ensures ok == Admits(ListOf(old(queue), tx.sender), tx, config.priceBump)
      ensures queue == if ok then Enqueued(old(queue), tx) else old(queue)
      ensures all.Txs() ==
        if ok then Displacing(old(all.Txs()), ListOf(old(queue), tx.sender), tx, true) else old(all.Txs())
      ensures replaced == (ok && tx.nonce in ListOf(old(queue), tx.sender))
      ensures ok ==> (tx in all.remotes <==> !isLocal)
    {
      hide *;
      CoreParts();
      DisplacingParts(all.remotes, ListOf(queue, tx.sender), tx);
      AdditionParts(pending, queue, all.Txs(), tx);
      NoneLocalDisplacing(all.remotes, locals, ListOf(queue, tx.sender), tx, !isLocal);
      replaced, ok := EnqueueTx(tx, isLocal, true);
      EnqueuedKeys(old(queue), tx);
      TimedAfter(old(queue), old(beats), queue, beats, tx.sender);
      CoreHolds();
    }

    /** Makes an account local, and its remote transactions with it. */
    method MarkLocal(from: Address)
      requires Core() && priced.Valid()
      modifies `locals, all, priced
      ensures Core() && priced.Valid() && locals == old(locals) + {from} && all.Txs() == old(all.Txs())
      ensures all.remotes == old(all.remotes) - OfSenders(old(all.remotes), locals)
    {
      hide *;
      CoreParts();
      PricedParts();
      locals := locals + {from};
      NoneLocalMigrated(all.remotes, locals);
      ghost var stales := priced.stales;
      var migrated := all.RemoteToLocals(locals);
      TracksFewer(priced.remotes, stales, old(all.remotes), all.remotes, migrated);
      priced.Removed(migrated);
      CoreHolds();
    }

    /** Places a transaction that passed validation, once there is room for it. */
    method Place(tx: Tx, local: bool, isLocal: bool) returns (replaced: bool, err: Error)
      requires Core() && priced.Valid() && tx !in all.Txs()
      requires !isLocal ==> tx.sender !in locals && !local
      requires tx.gas <= Head(tx.sender).gas && tx.cost <= Head(tx.sender).balance
      modifies this, all, priced
      ensures Core() && priced.Valid() && err in {NoError, ReplaceUnderpriced}
      ensures pendingNonces == old(pendingNonces) && currentState == old(currentState)
      ensures currentMaxGas == old(currentMaxGas)
      ensures gasPrice == old(gasPrice) && now == old(now)
      ensures var l := old(PlaceOf(tx));
        && err == (if Admits(l, tx, config.priceBump) then NoError else ReplaceUnderpriced)
        && replaced == (err == NoError && tx.nonce in l)
      ensures pending ==
        if err == NoError && tx.nonce in ListOf(old(pending), tx.sender) then Enqueued(old(pending), tx)
        else old(pending)
      ensures queue ==
        if err == NoError && tx.nonce !in ListOf(old(pending), tx.sender) then Enqueued(old(queue), tx)
        else old(queue)
      ensures err == NoError ==> (tx in all.remotes <==> !isLocal)
      ensures replaced ==> exists t :: t in old(all.Txs()) && t !in all.Txs()
      ensures if err == NoError then Placed(old(all.Txs()), all.Txs(), tx, config.priceBump)
        else all.Txs() == old(all.Txs())
      ensures err == ReplaceUnderpriced ==> exists t :: t in all.Txs() && Resists(t, tx, config.priceBump)
      ensures locals ==
        if err == NoError && local && tx.nonce !in ListOf(old(pending), tx.sender) then old(locals) + {tx.sender}
        else old(locals)
      ensures forall r: Phase :: old(Settled(r)) ==> Settled(r)
    {
      hide *;
      CoreParts();
      PlaceIs(tx);
      PlacedFacts(pending, queue, all.Txs(), tx, config.priceBump);
      NotAdmitted(pending, queue, all.Txs(), tx, config.priceBump);
      ReplacedGone(pending, queue, all.Txs(), tx);
      if tx.nonce in ListOf(pending, tx.sender) {
        if !Admits(ListOf(pending, tx.sender), tx, config.priceBump) {
          return false, ReplaceUnderpriced;
        }
        ReplacePending(tx, isLocal);
        return true, NoError;
      }
      var ok;
      replaced, ok := AddQueued(tx, isLocal);
      if !ok {
        return false, ReplaceUnderpriced;
      }
      if local && tx.sender !in locals {
        MarkLocal(tx.sender);
      }
      err := NoError;
    }

    lemma Fitting(tx: Tx)
      requires Core()
      ensures all.slots + NumSlots(tx) <= Limit() || !Full(tx) ==> |all.Txs()| + 1 <= Limit()
    {
      SlotsCount(all.Txs());
    }

    /** Makes room for a transaction that passed validation and places it. */
    method AddValid(tx: Tx, local: bool, isLocal: bool) returns (replaced: bool, err: Error)
      requires Core() && priced.Valid() && tx !in all.Txs() && isLocal == (local || tx.sender in locals)
      requires tx.gas <= Head(tx.sender).gas && tx.cost <= Head(tx.sender).balance
      modifies this, all, priced, pendingNonces
      ensures Core() && priced.Valid()
      ensures pendingNonces == old(pendingNonces) && currentState == old(currentState)
      ensures currentMaxGas == old(currentMaxGas) && gasPrice == old(gasPrice) && now == old(now)
      ensures if local then old(locals) <= locals else locals == old(locals)
      ensures err in {NoError, Underpriced, TxPoolOverflow, ReplaceUnderpriced}
      ensures err == NoError <==> tx in all.Txs()
      ensures all.Txs() <= old(all.Txs()) + {tx}
      ensures forall t | t in old(all.Txs()) && t !in all.Txs() ::
        t in old(all.remotes) || Supersedes(tx, t, config.priceBump)
      ensures replaced ==> exists t :: t in old(all.Txs()) && t !in all.Txs() && Supersedes(tx, t, config.priceBump)
      ensures err == NoError ==> (tx in all.remotes <==> !isLocal)
      ensures err == NoError && local ==> tx.sender in locals || Has(ListOf(pending, tx.sender), tx)
      ensures if old(Full(tx)) then
          && (err == Underpriced <==>
              !isLocal && old(all.remotes) != {} && forall t | t in old(all.remotes) :: t.price >= tx.price)
          && (err == TxPoolOverflow ==>
              !isLocal && SlotSum(old(all.remotes)) < old(all.slots) - Limit() + NumSlots(tx))
        else
          && (err == if Admits(old(PlaceOf(tx)), tx, config.priceBump) then NoError else ReplaceUnderpriced)
          && (err == NoError <==> !exists t :: t in old(all.Txs()) && Resists(t, tx, config.priceBump))
          && (err != NoError ==> all.Txs() == old(all.Txs()))
          && (forall t | t in old(all.Txs()) && t !in all.Txs() :: Supersedes(tx, t, config.priceBump))
          && (var here := tx.nonce in ListOf(old(pending), tx.sender);
              && pending == (if err == NoError && here then Enqueued(old(pending), tx) else old(pending))
              && queue == (if err == NoError && !here then Enqueued(old(queue), tx) else old(queue)))
      ensures err == ReplaceUnderpriced ==> exists t :: t in all.Txs() && Resists(t, tx, config.priceBump)
      ensures err == NoError && !isLocal && (old(Full(tx)) ==> old(LiveOnce(priced.remotes, all.remotes))) ==>
        |all.Txs()| <= Limit()
      ensures !old(Full(tx)) ==> forall a :: pendingNonces.View(a) == old(pendingNonces.View(a))
      ensures forall r: Phase :: old(Settled(r)) ==> Settled(r)
    {
      hide *;
      FullIs(tx);
      PlaceIs(tx);
      CoreParts();
      AdmittedExactly(pending, queue, all.Txs(), tx, config.priceBump);
      var full, _ := MakeRoom(tx, isLocal);
      if full != NoError {
        return false, full;
      }
      ghost var midPending, mid := pending, all.Txs();
      FullIs(tx);
      Fitting(tx);
      PlaceIs(tx);
      replaced, err := Place(tx, local, isLocal);
      PlacedIs(mid, all.Txs(), tx, config.priceBump);
      OneMore(mid, all.Txs(), tx);
      EnqueuedHas(midPending, tx);
    }

    method Add(tx: Tx, local: bool) returns (replaced: bool, err: Error)
      requires Core() && priced.Valid()
      modifies this, all, priced, pendingNonces
      ensures Core() && priced.Valid()
      ensures pendingNonces == old(pendingNonces) && currentState == old(currentState)
      ensures currentMaxGas == old(currentMaxGas) && gasPrice == old(gasPrice) && now == old(now)
      ensures if local then old(locals) <= locals else locals == old(locals)
      ensures err == AlreadyKnown <==> tx in old(all.Txs())
      ensures var invalid := ValidateTx(tx, local || tx.sender in old(locals));
        tx !in old(all.Txs()) && invalid != NoError ==> err == invalid
      ensures tx in old(all.Txs()) || ValidateTx(tx, local || tx.sender in old(locals)) != NoError ==>
        unchanged(this) && unchanged(all) && unchanged(priced) && unchanged(pendingNonces)
      ensures tx !in old(all.Txs()) && ValidateTx(tx, local || tx.sender in old(locals)) == NoError ==>
        err in {NoError, Underpriced, TxPoolOverflow, ReplaceUnderpriced}
      ensures err == NoError <==> tx in all.Txs() && tx !in old(all.Txs())
      ensures all.Txs() <= old(all.Txs()) + {tx}
      ensures forall t | t in old(all.Txs()) && t !in all.Txs() ::
        t in old(all.remotes) || Supersedes(tx, t, config.priceBump)
      ensures replaced ==> exists t :: t in old(all.Txs()) && t !in all.Txs() && Supersedes(tx, t, config.priceBump)
      ensures err == NoError ==> Admissible(tx, local || tx.sender in old(locals))
      ensures err == NoError ==> (tx in all.remotes <==> !local && tx.sender !in old(locals))
      ensures err == NoError && local ==> tx.sender in locals || Has(ListOf(pending, tx.sender), tx)
      ensures tx !in old(all.Txs()) && ValidateTx(tx, local || tx.sender in old(locals)) == NoError ==>
        if old(Full(tx)) then
          var remote := !local && tx.sender !in old(locals);
          && (err == Underpriced <==>
              remote && old(all.remotes) != {} && forall t | t in old(all.remotes) :: t.price >= tx.price)
          && (err == TxPoolOverflow ==>
              remote && SlotSum(old(all.remotes)) < old(all.slots) - Limit() + NumSlots(tx))
        else
          && (err == if Admits(old(PlaceOf(tx)), tx, config.priceBump) then NoError else ReplaceUnderpriced)
          && (err == NoError <==> !exists t :: t in old(all.Txs()) && Resists(t, tx, config.priceBump))
          && (err != NoError ==> all.Txs() == old(all.Txs()))
          && (forall t | t in old(all.Txs()) && t !in all.Txs() :: Supersedes(tx, t, config.priceBump))
          && (var here := tx.nonce in ListOf(old(pending), tx.sender);
              && pending == (if err == NoError && here then Enqueued(old(pending), tx) else old(pending))
              && queue == (if err == NoError && !here then Enqueued(old(queue), tx) else old(queue)))
      ensures err == ReplaceUnderpriced ==> exists t :: t in all.Txs() && Resists(t, tx, config.priceBump)
      ensures err == NoError && !local && tx.sender !in old(locals) ==>
        (old(Full(tx)) ==> old(LiveOnce(priced.remotes, all.remotes))) ==> |all.Txs()| <= Limit()
      ensures !old(Full(tx)) ==> forall a :: pendingNonces.View(a) == old(pendingNonces.View(a))
      ensures forall r: Phase :: old(Settled(r)) ==> Settled(r)
    {
      hide Core, Settled, ListOf, Has, Outbids, ValidateTx, TxLookup.Valid, TxLookup.Txs, TxPricedList.Valid,
        Supersedes, Full, Admissible, PlaceOf, Admits, Resists, LiveOnce, SlotSum, TxNoncer.View;
      var known := all.Get(tx);
      if known {
        return false, AlreadyKnown;
      }
      var isLocal := local || tx.sender in locals;
      var invalid := ValidateTx(tx, isLocal);
      ValidExactly(tx, isLocal);
      if invalid != NoError {
        return false, invalid;
      }
      replaced, err := AddValid(tx, local, isLocal);
    }

    /** What adding a transaction answers and does to the pool, as sets. */
    ghost predicate Took(tx: Tx, isLocal: bool, before: set<Tx>, err: Error, after: set<Tx>)
      reads `currentState, `currentMaxGas, `gasPrice
    {
      && (err == AlreadyKnown <==> tx in before)
      && (err == NoError <==> tx in after && tx !in before)
      && after <= before + {tx}
      && (tx !in before && ValidateTx(tx, isLocal) != NoError ==> err == ValidateTx(tx, isLocal) && after == before)
      && (tx !in before && ValidateTx(tx, isLocal) == NoError ==>
            err in {NoError, Underpriced, TxPoolOverflow, ReplaceUnderpriced})
      && (err == ReplaceUnderpriced ==> exists t :: t in after && Resists(t, tx, config.priceBump))
      && (|before| + NumSlots(tx) <= Limit() ==>
            && (ValidateTx(tx, isLocal) == NoError && tx !in before ==> err in {NoError, ReplaceUnderpriced})
            && (err == NoError ==> !exists t :: t in before && Resists(t, tx, config.priceBump))
            && (err != NoError ==> after == before)
            && (forall t | t in before && t !in after :: Supersedes(tx, t, config.priceBump)))
    }

    /** There is room for all of these. */
    ghost predicate Room(txs: seq<Tx>)
      reads all
    {
      |all.Txs()| + SeqSlots(txs) <= Limit()
    }

    lemma RoomIs(txs: seq<Tx>)
      ensures Room(txs) <==> |all.Txs()| + SeqSlots(txs) <= Limit()
    {
    }

    /** Where there is room no place is lost: whatever was pooled, and the new transaction if it is valid, is there
        afterwards or another in its place. */
    lemma TookKeeps(tx: Tx, isLocal: bool, before: set<Tx>, err: Error, after: set<Tx>)
      requires Took(tx, isLocal, before, err, after) && |before| + NumSlots(tx) <= Limit()
      ensures forall t | Occupied(before, t) :: Occupied(after, t)
      ensures ValidateTx(tx, isLocal) == NoError ==> Occupied(after, tx)
    {
      hide Outbids, ValidateTx;
      forall t | Occupied(before, t)
        ensures Occupied(after, t)
      {
        var u :| u in before && u.sender == t.sender && u.nonce == t.nonce;
        assert u in after || (err == NoError && Supersedes(tx, u, config.priceBump));
      }
    }

    lemma TookIs(tx: Tx, isLocal: bool, before: set<Tx>, err: Error)
      requires err == AlreadyKnown <==> tx in before
      requires tx !in before && ValidateTx(tx, isLocal) != NoError ==> err == ValidateTx(tx, isLocal)
      requires (tx in before || ValidateTx(tx, isLocal) != NoError) ==> all.Txs() == before
      requires err == NoError <==> tx in all.Txs() && tx !in before
      requires all.Txs() <= before + {tx}
      requires err == ReplaceUnderpriced ==> exists t :: t in all.Txs() && Resists(t, tx, config.priceBump)
      requires tx !in before && ValidateTx(tx, isLocal) == NoError ==>
        && err in {NoError, Underpriced, TxPoolOverflow, ReplaceUnderpriced}
        && (|before| + NumSlots(tx) <= Limit() ==>
              && err in {NoError, ReplaceUnderpriced}
              && (err == NoError ==> !exists t :: t in before && Resists(t, tx, config.priceBump))
              && (err != NoError ==> all.Txs() == before)
              && (forall t | t in before && t !in all.Txs() :: Supersedes(tx, t, config.priceBump)))
      ensures Took(tx, isLocal, before, err, all.Txs())
    {
      hide Outbids, ValidateTx, Resists, Supersedes;
    }

    /** Adds one transaction; `isLocal` is whether it or its sender is local. */
    method AddOne(tx: Tx, local: bool, ghost isLocal: bool) returns (replaced: bool, err: Error)
      requires Core() && priced.Valid() && isLocal == (local || tx.sender in locals)
      modifies this, all, priced, pendingNonces
      ensures Core() && priced.Valid()
      ensures pendingNonces == old(pendingNonces) && currentState == old(currentState)
      ensures currentMaxGas == old(currentMaxGas) && gasPrice == old(gasPrice) && now == old(now)
      ensures if local then old(locals) <= locals else locals == old(locals)
      ensures Took(tx, isLocal, old(all.Txs()), err, all.Txs())
      ensures replaced ==> Replaces(tx, old(all.Txs()), all.Txs(), config.priceBump)
      ensures |all.Txs()| <= |old(all.Txs())| + 1
      ensures forall t | t in all.Txs() :: t in old(all.Txs()) || (err == NoError && t == tx)
      ensures |old(all.Txs())| + NumSlots(tx) <= Limit() ==>
        && (forall a :: pendingNonces.View(a) == old(pendingNonces.View(a)))
        && (forall t | Occupied(old(all.Txs()), t) :: Occupied(all.Txs(), t))
        && (ValidateTx(tx, isLocal) == NoError ==> Occupied(all.Txs(), tx))
      ensures forall r: Phase :: old(Settled(r)) ==> Settled(r)
    {
      hide *;
      FullIs(tx);
      replaced, err := Add(tx, local);
      OneMore(old(all.Txs()), all.Txs(), tx);
      ReplacesIs(tx, old(all.Txs()), all.Txs(), config.priceBump);
      TookIs(tx, isLocal, old(all.Txs()), err);
      if |old(all.Txs())| + NumSlots(tx) <= Limit() {
        TookKeeps(tx, isLocal, old(all.Txs()), err, all.Txs());
      }
    }

    /** The answers to transactions added one after the other, the pools in between, and the senders of those that
        took no other's place. */
    ghost predicate AddedSo(txs: seq<Tx>, local: bool, wereLocal: set<Address>, errs: seq<Error>,
                            replacing: seq<bool>, dirty: set<Address>, pools: seq<set<Tx>>)
      reads `currentState, `currentMaxGas, `gasPrice
    {
      && |errs| == |replacing| == |txs| && |pools| == |txs| + 1
      && (forall i | 0 <= i < |txs| ::
            && Took(txs[i], local || txs[i].sender in wereLocal, pools[i], errs[i], pools[i+1])
            && (replacing[i] ==> Replaces(txs[i], pools[i], pools[i+1], config.priceBump)))
      && (forall a ::
            a in dirty <==> exists i :: 0 <= i < |txs| && errs[i] == NoError && !replacing[i] && txs[i].sender == a)
    }

    lemma AddedStarts(local: bool, wereLocal: set<Address>, pool: set<Tx>)
      ensures AddedSo([], local, wereLocal, [], [], {}, [pool])
    {
    }

    lemma AddedStep(txs: seq<Tx>, local: bool, wereLocal: set<Address>, errs: seq<Error>, replacing: seq<bool>,
                    dirty: set<Address>, pools: seq<set<Tx>>, i: nat, err: Error, replaced: bool, after: set<Tx>)
      requires i < |txs| && AddedSo(txs[..i], local, wereLocal, errs, replacing, dirty, pools)
      requires Took(txs[i], local || txs[i].sender in wereLocal, pools[i], err, after)
      requires replaced ==> Replaces(txs[i], pools[i], after, config.priceBump)
      ensures AddedSo(txs[..i+1], local, wereLocal, errs + [err], replacing + [replaced],
                      if err == NoError && !replaced then dirty + {txs[i].sender} else dirty, pools + [after])
    {
      hide Took, Replaces;
      var t, e, r, p := txs[..i+1], errs + [err], replacing + [replaced], pools + [after];
      var d := if err == NoError && !replaced then dirty + {txs[i].sender} else dirty;
      assert forall j | 0 <= j < i ::
        t[j] == txs[..i][j] && e[j] == errs[j] && r[j] == replacing[j] && p[j] == pools[j];
      forall a
        ensures a in d <==> exists j :: 0 <= j < |t| && e[j] == NoError && !r[j] && t[j].sender == a
      {
        if a in dirty {
          var j :| 0 <= j < i && errs[j] == NoError && !replacing[j] && txs[..i][j].sender == a;
          assert e[j] == NoError && !r[j] && t[j].sender == a;
        }
        if err == NoError && !replaced && a == txs[i].sender {
          assert e[i] == NoError && !r[i] && t[i].sender == a;
        }
      }
    }

    /** Adds transactions one after the other; the senders of those that took no other's place need promotion. */
    method AddTxsLocked(txs: seq<Tx>, local: bool)
      returns (errs: seq<Error>, dirty: set<Address>, ghost replacing: seq<bool>, ghost pools: seq<set<Tx>>)
      requires Core() && priced.Valid()
      modifies this, all, priced, pendingNonces
      ensures Core() && priced.Valid()
      ensures pendingNonces == old(pendingNonces) && currentState == old(currentState)
      ensures currentMaxGas == old(currentMaxGas)
      ensures gasPrice == old(gasPrice) && now == old(now)
      ensures if local then old(locals) <= locals else locals == old(locals)
      ensures AddedSo(txs, local, old(locals), errs, replacing, dirty, pools)
      ensures |pools| == |txs| + 1 && pools[0] == old(all.Txs()) && pools[|txs|] == all.Txs()
      ensures |errs| == |txs| && forall tx | tx in all.Txs() ::
        tx in old(all.Txs()) || exists i :: 0 <= i < |txs| && errs[i] == NoError && txs[i] == tx
      ensures txs == [] ==> pending == old(pending) && queue == old(queue)
      ensures old(Room(txs)) ==>
        && (forall a :: pendingNonces.View(a) == old(pendingNonces.View(a)))
        && (forall t | t in old(all.Txs()) :: Occupied(all.Txs(), t))
        && (forall t | t in txs && ValidateTx(t, local || t.sender in old(locals)) == NoError :: Occupied(all.Txs(), t))
      ensures forall r: Phase :: old(Settled(r)) ==> Settled(r)
    {
      hide *;
      errs, dirty, replacing, pools := [], {}, [], [all.Txs()];
      AddedStarts(local, locals, all.Txs());
      NoSlots(txs);
      RoomIs(txs);
      OccupyThemselves(all.Txs());
      for i := 0 to |txs|
        invariant i == 0 ==> pending == old(pending) && queue == old(queue)
        invariant old(Room(txs)) ==>
          && |all.Txs()| <= |old(all.Txs())| + SeqSlots(txs[..i])
          && (forall a :: pendingNonces.View(a) == old(pendingNonces.View(a)))
          && (forall t | t in old(all.Txs()) :: Occupied(all.Txs(), t))
          && (forall t | t in txs[..i] && ValidateTx(t, local || t.sender in old(locals)) == NoError ::
                Occupied(all.Txs(), t))
        invariant Core() && priced.Valid()
        invariant pendingNonces == old(pendingNonces) && currentState == old(currentState)
        invariant currentMaxGas == old(currentMaxGas)
        invariant gasPrice == old(gasPrice) && now == old(now)
        invariant if local then old(locals) <= locals else locals == old(locals)
        invariant AddedSo(txs[..i], local, old(locals), errs, replacing, dirty, pools)
        invariant |pools| == i + 1 && pools[0] == old(all.Txs()) && pools[i] == all.Txs()
        invariant |errs| == i && forall tx | tx in all.Txs() ::
          tx in old(all.Txs()) || exists j :: 0 <= j < i && errs[j] == NoError && txs[j] == tx
        invariant forall r: Phase :: old(Settled(r)) ==> Settled(r)
      {
        SlotsPrefix(txs, i);
        assert txs[..i+1] == txs[..i] + [txs[i]];
        var replaced, err := AddOne(txs[i], local, local || txs[i].sender in old(locals));
        AddedStep(txs, local, old(locals), errs, replacing, dirty, pools, i, err, replaced, all.Txs());
        errs, replacing := errs + [err], replacing + [replaced];
        pools := pools + [all.Txs()];
        if err == NoError && !replaced {
          dirty := dirty + {txs[i].sender};
        }
      }
      assert txs[..|txs|] == txs;
    }

    /** Lowers an account's virtual nonce to dropped ones. */
    method LowerNonce(addr: Address, dropped: Txs)
      requires ByNonce(dropped)
      modifies pendingNonces
      ensures forall a | a != addr :: pendingNonces.View(a) == old(pendingNonces.View(a))
      ensures pendingNonces.View(addr) <= old(pendingNonces.View(addr))
      ensures forall n | n in dropped :: pendingNonces.View(addr) <= n
      ensures pendingNonces.View(addr) == old(pendingNonces.View(addr)) || pendingNonces.View(addr) in dropped
    {
      hide TxNoncer.View;
      var todo := dropped.Keys;
      while todo != {}
        invariant todo <= dropped.Keys
        invariant forall a | a != addr :: pendingNonces.View(a) == old(pendingNonces.View(a))
        invariant pendingNonces.View(addr) <= old(pendingNonces.View(addr))
        invariant forall n | n in dropped && n !in todo :: pendingNonces.View(addr) <= n
        invariant pendingNonces.View(addr) == old(pendingNonces.View(addr)) || pendingNonces.View(addr) in dropped
        decreases todo
      {
        var n :| n in todo;
        pendingNonces.SetIfLower(addr, dropped[n].nonce);
        todo := todo - {n};
      }
    }

    /** Drops the last transaction of an account's pending list. */
    method CapOne(addr: Address)
      requires Core() && priced.Valid() && addr in pending && |pending[addr]| >= 2
      modifies `pending, all, priced, pendingNonces
      ensures Core() && priced.Valid()
      ensures pending == old(pending)[addr := Capped(old(pending)[addr], |old(pending)[addr]| - 1)]
      ensures pending.Keys == old(pending.Keys)
      ensures forall a | a !in pending :: pendingNonces.View(a) == old(pendingNonces.View(a))
      ensures forall r: Phase :: old(Settled(r)) ==> Settled(r)
    {
      hide *;
      CoreParts();
      PricedParts();
      ListOfIn(pending, addr);
      MidwayStarts(pending, queue, all.Txs(), addr);
      ghost var p, q := pending[addr], ListOf(queue, addr);
      ghost var g := HasGreatest(p);
      CapOneParts(pending, addr, p, q, all.Txs(), g);
      var kept: Txs := Capped(pending[addr], |pending[addr]| - 1);
      var caps: Txs := Without(pending[addr], kept);
      ForgetPending(addr, caps, p, all.Txs(), q, priced.stales);
      pending := pending[addr := kept];
      LowerNonce(addr, caps);
      priced.Removed(|caps|);
      MidwayEnds(old(pending), queue, old(all.Txs()), all.Txs(), addr, kept, q);
      SetSame(queue, addr);
      CoreHolds();
      GreatestIsOne(p, g);
      CapSettled(addr);
    }

    twostate lemma CapSettled(addr: Address)
      requires |ListOf(old(pending), addr)| > 0
      requires pending == SetList(old(pending), addr,
                                  Capped(ListOf(old(pending), addr), |ListOf(old(pending), addr)| - 1))
      requires pendingNonces == old(pendingNonces) && currentState == old(currentState)
      requires currentMaxGas == old(currentMaxGas)
      requires forall a | a != addr :: pendingNonces.View(a) == old(pendingNonces.View(a))
      requires forall g: nat | IsGreatest(ListOf(old(pending), addr), g) ::
        pendingNonces.View(addr) == if g < old(pendingNonces.View(addr)) then g else old(pendingNonces.View(addr))
      ensures forall r: Phase :: old(Settled(r)) ==> Settled(r)
    {
      var p := ListOf(old(pending), addr);
      var g := HasGreatest(p);
      CapLess(p, g);
      assert LeftPending(p, g) == Before(p, g);
      hide Stands, LeftPending, SetList, IsGreatest;
      forall r: Phase, a: Address | old(Settled(r))
        ensures Stands(r, a, ListOf(pending, a), Head(a), pendingNonces.View(a))
      {
        assert Stands(r, a, ListOf(old(pending), a), Head(a), old(pendingNonces.View(a)));
        ListOfSet(old(pending), addr, LeftPending(p, g), a);
        if a == addr {
          RemovalStands(r, a, p, Head(a), old(pendingNonces.View(a)), g);
        }
      }
    }

    /** One round: each offender loses its last transaction. */
    method CutRound(offenders: seq<Address>, total: nat, ghost orig: AccountLists, ghost w: nat) returns (left: int)
      requires Core() && priced.Valid() && pending == Level(orig, locals, w) && w >= 2
      requires Enumerates(offenders, Over(orig, locals, w - 1)) && total == Count(pending)
      modifies `pending, all, priced, pendingNonces
      ensures Core() && priced.Valid() && pending == Level(orig, locals, w - 1) && left == Count(pending)
      ensures pending.Keys == old(pending.Keys)
      ensures forall a | a !in pending :: pendingNonces.View(a) == old(pendingNonces.View(a))
      ensures forall r: Phase :: old(Settled(r)) ==> Settled(r)
    {
      hide *;
      left := total;
      ghost var cut: set<Address> := {};
      CuttingStarts(orig, locals, w);
      CutStarts(offenders);
      for i := 0 to |offenders|
        invariant Core() && priced.Valid() && CutSoFar(offenders, i, cut) && left == total - i
        invariant pending == Cutting(orig, locals, w, cut)
        invariant pending.Keys == old(pending.Keys)
        invariant forall a | a !in pending :: pendingNonces.View(a) == old(pendingNonces.View(a))
        invariant forall r: Phase :: old(Settled(r)) ==> Settled(r)
      {
        CutStep(offenders, Over(orig, locals, w - 1), i, cut);
        CuttingStep(orig, locals, w, cut, offenders[i]);
        CapOne(offenders[i]);
        cut := cut + {offenders[i]};
        left := left - 1;
      }
      CutEnds(offenders, Over(orig, locals, w - 1), cut);
      CuttingEnds(orig, locals, w);
      LevelCount(orig, locals, w - 1);
    }

    /** Rounds until the pool is within its limit or the offenders are down to the threshold. */
    method Equalize(offenders: seq<Address>, threshold: Positive, total: nat, ghost orig: AccountLists, ghost w: nat)
      returns (left: int, ghost level: nat)
      requires Core() && priced.Valid() && pending == Level(orig, locals, w) && total == Count(pending)
      requires threshold <= w && Count(Level(orig, locals, w + 1)) > config.globalSlots
      requires offenders != [] && AllReach(offenders, orig, locals, w)
      requires threshold < w ==> Enumerates(offenders, Over(orig, locals, threshold))
      modifies `pending, all, priced, pendingNonces
      ensures Core() && priced.Valid() && pending == Level(orig, locals, level) && left == Count(pending)
      ensures threshold <= level <= w && Count(Level(orig, locals, level + 1)) > config.globalSlots
      ensures left <= config.globalSlots || level == threshold
      ensures pending.Keys == old(pending.Keys)
      ensures forall a | a !in pending :: pendingNonces.View(a) == old(pendingNonces.View(a))
      ensures forall r: Phase :: old(Settled(r)) ==> Settled(r)
    {
      hide *;
      left, level := total, w;
      LevelSize(offenders, orig, locals, w, level);
      while left > config.globalSlots && |pending[offenders[|offenders|-1]]| > threshold
        invariant Core() && priced.Valid() && pending == Level(orig, locals, level) && left == Count(pending)
        invariant threshold <= level <= w && Count(Level(orig, locals, level + 1)) > config.globalSlots
        invariant offenders[|offenders|-1] in pending && |pending[offenders[|offenders|-1]]| == level
        invariant pending.Keys == old(pending.Keys)
        invariant forall a | a !in pending :: pendingNonces.View(a) == old(pendingNonces.View(a))
        invariant forall r: Phase :: old(Settled(r)) ==> Settled(r)
        decreases level
      {
        OverSame(offenders, orig, locals, threshold, w, level);
        left := CutRound(offenders, left, orig, level);
        level := level - 1;
        LevelSize(offenders, orig, locals, w, level);
      }
    }

    /** Levels the longest pending lists, when there are too many transactions. */
    method LevelPending(count: nat) returns (ghost level: nat)
      requires Core() && priced.Valid() && count == Count(pending) && count > config.globalSlots
      modifies `pending, all, priced, pendingNonces
      ensures Core() && priced.Valid()
      ensures Truncated(old(pending), pending, locals, config.accountSlots, config.globalSlots, level)
      ensures pending.Keys == old(pending.Keys)
      ensures forall a | a !in pending :: pendingNonces.View(a) == old(pendingNonces.View(a))
      ensures forall r: Phase :: old(Settled(r)) ==> Settled(r)
    {
      hide *;
      var total: int := count;
      ghost var orig := pending;
      var slots := config.accountSlots;
      var spammers := Over(pending, locals, slots);
      var lengths := Lengths(pending, spammers);
      var offenders: seq<Address> := [];
      level := HighestLevel(orig, locals, slots);
      SpamStarts(orig, locals, slots, level);
      while total > config.globalSlots && spammers != {}
        invariant Core() && priced.Valid() && pending == Level(orig, locals, level) && total == Count(pending)
        invariant slots <= level && Count(Level(orig, locals, level + 1)) > config.globalSlots
        invariant SpamSplit(orig, locals, slots, spammers, offenders)
        invariant total > config.globalSlots ==> SpamLevel(orig, locals, spammers, offenders, level)
        invariant pending.Keys == old(pending.Keys)
        invariant forall a | a !in pending :: pendingNonces.View(a) == old(pendingNonces.View(a))
        invariant forall r: Phase :: old(Settled(r)) ==> Settled(r)
        decreases spammers
      {
        LongestExists(orig, locals, slots, spammers, offenders);
        var offender :| offender in spammers && Longest(spammers, lengths, offender);
        PopParts(orig, locals, slots, spammers, offenders, level, offender);
        ghost var was := level;
        var threshold := |pending[offender]|;
        if offenders != [] {
          total, level := Equalize(offenders, threshold, total, orig, level);
        } else {
          level := threshold;
        }
        PopDone(orig, locals, slots, spammers, offenders, was, level, offender);
        spammers, offenders := spammers - {offender}, offenders + [offender];
      }
      SpamEnds(orig, locals, slots, spammers, offenders, level);
      if total > config.globalSlots && offenders != [] {
        total, level := Equalize(offenders, slots, total, orig, level);
      } else if total > config.globalSlots {
        level := slots;
      }
      TruncatedHolds(orig, pending, locals, slots, config.globalSlots, level);
    }

    method TruncatePending() returns (ghost level: nat)
      requires Core() && priced.Valid()
      modifies `pending, all, priced, pendingNonces
      ensures Core() && priced.Valid()
      ensures if Count(old(pending)) <= config.globalSlots then pending == old(pending)
        else Truncated(old(pending), pending, locals, config.accountSlots, config.globalSlots, level)
      ensures pending.Keys == old(pending.Keys) && all.Txs() <= old(all.Txs())
      ensures forall a | a !in pending :: pendingNonces.View(a) == old(pendingNonces.View(a))
      ensures forall a :: old(Free(a)) ==> Free(a)
      ensures old(Settled(Idle)) ==> forall a :: old(NextFree(a)) ==> NextFree(a)
      ensures forall r: Phase :: old(Settled(r)) ==> Settled(r)
    {
      hide *;
      var total := Total(pending);
      level := 0;
      if total > config.globalSlots {
        level := LevelPending(total);
      }
      TruncatedShrinks(old(pending), pending, locals, config.accountSlots, config.globalSlots, level);
      SameShrunk(queue);
      StaysFree();
      StaysNext();
      NothingNew();
    }

    /** Drops queued transactions of accounts that are not local, latest heartbeat first. */
    method DropNewest(queued: nat) returns (ghost order: seq<Address>, ghost k: nat, ghost keep: nat)
      requires Core() && priced.Valid() && queued == Count(queue) && queued > config.globalQueue
      modifies `pending, `queue, `beats, all, priced, pendingNonces
      ensures Core() && priced.Valid() && pending == old(pending)
      ensures forall a :: pendingNonces.View(a) == old(pendingNonces.View(a))
      ensures QueueCut(old(queue), queue, locals, old(beats), config.globalQueue, order, k, keep)
      ensures Shrunk(queue, old(queue))
    {
      hide *;
      order, k, keep := [], 0, 0;
      ghost var orig := queue;
      var addresses := ByHeartbeat(queue, locals, beats);
      var drop: int := queued - config.globalQueue;
      order, k := addresses, |addresses|;
      CutStartsAt(orig, order);
      while drop > 0 && |addresses| > 0
        invariant Core() && priced.Valid() && pending == old(pending)
        invariant forall a :: pendingNonces.View(a) == old(pendingNonces.View(a))
        invariant k == |addresses| <= |order| && addresses == order[..k]
        invariant 0 <= drop && Count(queue) == config.globalQueue + drop
        invariant CutAt(orig, queue, order, k, keep) && (drop > 0 ==> keep == 0)
        decreases |addresses|
      {
        var addr := addresses[|addresses| - 1];
        CutNext(orig, locals, queue, order, k);
        CoreParts();
        ListOfIn(queue, addr);
        var list: Txs := queue[addr];
        addresses := addresses[..|addresses| - 1];
        if |list| <= drop {
          CutList(queue, addr, list, 0);
          RemoveQueued(addr, list);
          drop, keep := drop - |list|, 0;
        } else {
          keep := |list| - drop;
          CutList(queue, addr, list, keep);
          RemoveQueued(addr, Without(list, Capped(list, |list| - drop)));
          drop := 0;
        }
        CutMore(orig, queue, order, k, keep);
        k := k - 1;
      }
      QueueCutHolds(orig, queue, locals, old(beats), config.globalQueue, order, k, keep, drop);
      CutShrinks(orig, queue, order, k, keep);
    }

    method TruncateQueue() returns (ghost order: seq<Address>, ghost k: nat, ghost keep: nat)
      requires Core() && priced.Valid()
      modifies `pending, `queue, `beats, all, priced, pendingNonces
      ensures Core() && priced.Valid() && pending == old(pending)
      ensures if Count(old(queue)) <= config.globalQueue then queue == old(queue)
        else QueueCut(old(queue), queue, locals, old(beats), config.globalQueue, order, k, keep)
      ensures all.Txs() <= old(all.Txs()) && forall a :: pendingNonces.View(a) == old(pendingNonces.View(a))
      ensures forall a :: old(Free(a)) ==> Free(a)
      ensures old(Settled(Idle)) ==> forall a :: old(NextFree(a)) ==> NextFree(a)
      ensures forall r: Phase :: old(Settled(r)) ==> Settled(r)
    {
      hide *;
      order, k, keep := [], 0, 0;
      var queued := Total(queue);
      if queued > config.globalQueue {
        order, k, keep := DropNewest(queued);
      }
      SameShrunk(old(queue));
      SameShrunk(pending);
      StaysFree();
      StaysNext();
      NothingNew();
      StaysSettled();
    }

    twostate lemma StaysSettled()
      requires pending == old(pending) && pendingNonces == old(pendingNonces)
      requires currentState == old(currentState) && currentMaxGas == old(currentMaxGas)
      requires forall a :: pendingNonces.View(a) == old(pendingNonces.View(a))
      ensures forall r: Phase :: old(Settled(r)) ==> Settled(r)
    {
      forall r: Phase, a: Address | old(Settled(r))
        ensures Stands(r, a, ListOf(pending, a), Head(a), pendingNonces.View(a))
      {
        hide Stands;
        assert old(Head(a)) == Head(a);
        assert Stands(r, a, ListOf(old(pending), a), Head(a), old(pendingNonces.View(a)));
      }
    }

    /** The eviction tick: accounts whose heartbeat is too old lose their queue, unless they are local. */
    method Evict(expired: set<Address>)
      requires Core() && priced.Valid()
      modifies `pending, `queue, `beats, all, priced, pendingNonces
      ensures Core() && priced.Valid() && pending == old(pending)
      ensures queue == Unexpired(old(queue), expired - locals) && all.Txs() <= old(all.Txs())
      ensures forall r: Phase :: old(Settled(r)) ==> Settled(r)
    {
      hide *;
      ghost var done: set<Address> := {};
      var todo := queue.Keys;
      UnexpiredStarts(queue);
      assert done * (expired - locals) == {};
      while todo != {}
        invariant Core() && priced.Valid() && pending == old(pending) && pendingNonces == old(pendingNonces)
        invariant forall a :: pendingNonces.View(a) == old(pendingNonces.View(a))
        invariant todo <= queue.Keys && done + todo == old(queue.Keys) && done !! todo
        invariant queue == Unexpired(old(queue), done * (expired - locals))
        decreases todo
      {
        var addr :| addr in todo;
        if addr !in locals && addr in expired {
          ListOfIn(queue, addr);
          ExpiredParts(queue, addr);
          UnexpiredStep(old(queue), done * (expired - locals), addr);
          RemoveQueued(addr, queue[addr]);
          assert (done + {addr}) * (expired - locals) == done * (expired - locals) + {addr};
        } else {
          assert (done + {addr}) * (expired - locals) == done * (expired - locals);
        }
        done, todo := done + {addr}, todo - {addr};
      }
      UnexpiredEnds(old(queue), done, expired - locals);
      UnexpiredShrinks(old(queue), expired - locals);
      SameShrunk(pending);
      NothingNew();
      StaysSettled();
    }

    /** Takes over a new head and adds the transactions left behind. The virtual nonces start over from the head's, and
        stay there as long as there is room for all of them. */
    method Reset(state: Address -> Account, maxGas: nat, reinject: seq<Tx>)
      requires Core() && priced.Valid()
      modifies this, all, priced, pendingNonces
      ensures Core() && priced.Valid() && currentState == state && currentMaxGas == maxGas && fresh(pendingNonces)
      ensures gasPrice == old(gasPrice) && now == old(now) && locals == old(locals)
      ensures forall tx | tx in all.Txs() :: tx in old(all.Txs()) || tx in reinject
      ensures reinject == [] ==> pending == old(pending) && queue == old(queue)
      ensures old(Room(reinject)) ==>
        && (forall a :: pendingNonces.View(a) == state(a).nonce)
        && (forall t | t in old(all.Txs()) :: Occupied(all.Txs(), t))
        && (forall t | t in reinject && ValidateTx(t, t.sender in locals) == NoError :: Occupied(all.Txs(), t))
      ensures old(Settled(Idle)) && (forall a :: old(currentState)(a).nonce <= state(a).nonce) ==>
        Settled(Resetting) && Settled(Since(old(pending)))
    {
      currentState, currentMaxGas := state, maxGas;
      pendingNonces := new TxNoncer((a: Address) => state(a).nonce);
      ResetSettled();
      var _, _, _, _ := AddTxsLocked(reinject, false);
    }

    twostate lemma ResetSettled()
      requires pending == old(pending) && forall a :: pendingNonces.View(a) == currentState(a).nonce
      ensures old(Settled(Idle)) && (forall a :: old(currentState)(a).nonce <= currentState(a).nonce) ==>
        Settled(Resetting) && Settled(Since(old(pending)))
    {
      hide NonceOk;
      forall a: Address | old(Settled(Idle)) && old(currentState)(a).nonce <= currentState(a).nonce
        ensures Stands(Resetting, a, ListOf(pending, a), Head(a), pendingNonces.View(a))
        ensures Stands(Since(old(pending)), a, ListOf(pending, a), Head(a), pendingNonces.View(a))
      {
        assert Stands(Idle, a, ListOf(old(pending), a), old(Head(a)), old(pendingNonces.View(a)));
        ResetStands(old(pending), a, old(Head(a)), old(pendingNonces.View(a)), Head(a));
      }
    }

    /** Sets the virtual nonce of every account with pending transactions to the one after its last. */
    method UpdateNonces()
      requires Core()
      modifies pendingNonces
      ensures forall a ::
        if a in pending then NextNonce(pending[a], 0, pendingNonces.View(a))
        else pendingNonces.View(a) == old(pendingNonces.View(a))
      ensures old(Settled(Idle)) ==> Settled(Idle) && Settled(Reported) && Exact()
      ensures old(Settled(Idle)) && NoLast(all.Txs()) ==> Settled(Counted)
      ensures forall a :: old(Free(a)) ==> Free(a)
    {
      hide *;
      CoreParts();
      var todo := pending.Keys;
      while todo != {}
        invariant todo <= pending.Keys
        invariant forall a ::
          if a in pending && a !in todo then NextNonce(pending[a], 0, pendingNonces.View(a))
          else pendingNonces.View(a) == old(pendingNonces.View(a))
        decreases todo
      {
        var addr :| addr in todo;
        LastInBounds(pending, queue, all.Txs(), addr);
        var txs := FlattenTxs(pending[addr]);
        LastNonce(txs, pending[addr]);
        var highest := txs[|txs| - 1];
        pendingNonces.Set(addr, Wrap(highest.nonce + 1));
        todo := todo - {addr};
      }
      ExactSettled();
      CountedSettled();
      SameShrunk(queue);
      StaysFree();
    }

    twostate lemma CountedSettled()
      requires old(Core()) && pending == old(pending) && pendingNonces == old(pendingNonces)
      requires currentState == old(currentState) && currentMaxGas == old(currentMaxGas)
      requires forall a ::
        if a in pending then NextNonce(pending[a], 0, pendingNonces.View(a))
        else pendingNonces.View(a) == old(pendingNonces.View(a))
      ensures old(Settled(Idle)) && old(NoLast(all.Txs())) ==> Settled(Counted)
    {
      hide NonceOk, NextNonce, Partition, NoLast;
      forall a: Address | old(Settled(Idle)) && old(NoLast(all.Txs()))
        ensures Stands(Counted, a, ListOf(pending, a), Head(a), pendingNonces.View(a))
      {
        assert old(Head(a)) == Head(a);
        assert Stands(Idle, a, ListOf(old(pending), a), Head(a), old(pendingNonces.View(a)));
        PartitionAt(pending, old(queue), old(all.Txs()), a);
        NoLastPending(pending, old(queue), old(all.Txs()), a);
        ExactAt(ListOf(pending, a), Head(a), old(pendingNonces.View(a)), pendingNonces.View(a));
      }
    }

    /** While no list has reached the last 64-bit nonce the virtual nonces stay exact. */
    lemma CountedIsExact()
      requires NoEmpty(pending) && Settled(Counted)
      ensures Exact()
    {
      hide Contiguous, Costly;
      forall a: Address
        ensures if a in pending then
            && Consecutive(pending[a], currentState(a).nonce)
            && pendingNonces.View(a) == Wrap(currentState(a).nonce + |pending[a]|)
          else
            pendingNonces.View(a) <= currentState(a).nonce
      {
        var p := ListOf(pending, a);
        assert Stands(Counted, a, p, Head(a), pendingNonces.View(a));
        GaplessIsConsecutive(p, Head(a).nonce);
        assert Head(a).nonce < pendingNonces.View(a) ==> Head(a).nonce in p;
      }
    }

    twostate lemma ExactSettled()
      requires old(Core()) && pending == old(pending) && pendingNonces == old(pendingNonces)
      requires currentState == old(currentState) && currentMaxGas == old(currentMaxGas)
      requires forall a ::
        if a in pending then NextNonce(pending[a], 0, pendingNonces.View(a))
        else pendingNonces.View(a) == old(pendingNonces.View(a))
      ensures old(Settled(Idle)) ==> Settled(Idle) && Settled(Reported) && Exact()
    {
      hide NonceOk, NextNonce, Consecutive, Wrap, Partition;
      forall a: Address | old(Settled(Idle))
        ensures NonceOk(Idle, ListOf(pending, a), Head(a), pendingNonces.View(a))
        ensures NonceOk(Reported, ListOf(pending, a), Head(a), pendingNonces.View(a))
        ensures if a in pending then
            && Consecutive(pending[a], currentState(a).nonce)
            && pendingNonces.View(a) == Wrap(currentState(a).nonce + |pending[a]|)
          else
            pendingNonces.View(a) <= currentState(a).nonce
      {
        assert old(Head(a)) == Head(a);
        assert NonceOk(Idle, ListOf(old(pending), a), Head(a), old(pendingNonces.View(a)));
        PartitionAt(pending, old(queue), old(all.Txs()), a);
        ExactAt(ListOf(pending, a), Head(a), old(pendingNonces.View(a)), pendingNonces.View(a));
      }
    }

    /** Between two resets, and the next one does not lower a nonce. */
    ghost predicate Steady(reset: ResetRequest)
      reads `pending, `currentState, `currentMaxGas, `pendingNonces, pendingNonces
    {
      Settled(Idle) && (reset.ResetTo? ==> forall a :: currentState(a).nonce <= reset.state(a).nonce)
    }

    lemma SteadyIs(reset: ResetRequest)
      ensures Steady(reset)
         <==> Settled(Idle) && (reset.ResetTo? ==> forall a :: currentState(a).nonce <= reset.state(a).nonce)
    {
      hide Settled;
    }

    /** The first part of a run: the reset, if there is one, and nothing otherwise. After a reset the virtual nonce is
        the state nonce exactly where no pending transaction below it was evicted for one added back. */
    method StartRun(reset: ResetRequest) returns (ghost start: Snapshot)
      requires Core() && priced.Valid()
      modifies this, all, priced, pendingNonces
      ensures Core() && priced.Valid() && (pendingNonces == old(pendingNonces) || fresh(pendingNonces))
      ensures currentState == if reset.ResetTo? then reset.state else old(currentState)
      ensures currentMaxGas == if reset.ResetTo? then reset.maxGas else old(currentMaxGas)
      ensures gasPrice == old(gasPrice) && now == old(now) && locals == old(locals)
      ensures start == Snapshot(pending, queue, pendingNonces.Views(), beats)
      ensures forall tx | tx in all.Txs() :: tx in old(all.Txs()) || (reset.ResetTo? && tx in reset.reinject)
      ensures !reset.ResetTo? || reset.reinject == [] ==> pending == old(pending) && queue == old(queue)
      ensures !reset.ResetTo? ==> forall a :: start.virtual(a) == old(pendingNonces.View(a))
      ensures reset.ResetTo? && old(Room(reset.reinject)) ==>
        && (forall a :: start.virtual(a) == reset.state(a).nonce)
        && (forall t | t in old(all.Txs()) :: Listed(start, t))
        && (forall t | t in reset.reinject && ValidateTx(t, t.sender in locals) == NoError :: Listed(start, t))
      ensures old(Steady(reset)) && !reset.ResetTo? ==> Settled(Idle)
      ensures old(Steady(reset)) && reset.ResetTo? ==>
        && Settled(Resetting)
        && forall a: Address {:trigger start.virtual(a)} :: start.virtual(a) == reset.state(a).nonce
             <==> KeptBelow(ListOf(old(pending), a), ListOf(start.pending, a), reset.state(a).nonce)
    {
      hide *;
      SteadyIs(reset);
      if reset.ResetTo? {
        Reset(reset.state, reset.maxGas, reset.reinject);
        SinceExactly(old(pending));
        OccupiedIsListed(Snapshot(pending, queue, pendingNonces.Views(), beats));
      }
      start := Snapshot(pending, queue, pendingNonces.Views(), beats);
    }

    lemma OccupiedIsListed(start: Snapshot)
      requires Core() && start == Snapshot(pending, queue, pendingNonces.Views(), beats)
      ensures forall t | Occupied(all.Txs(), t) :: Listed(start, t)
    {
      hide Occupied, Partition, ListOf;
      forall t | Occupied(all.Txs(), t)
        ensures Listed(start, t)
      {
        OccupiedListed(pending, queue, all.Txs(), t);
      }
    }

    lemma SinceExactly(was: AccountLists)
      ensures Settled(Since(was)) ==>
        forall a: Address {:trigger pendingNonces.View(a)} :: pendingNonces.View(a) == currentState(a).nonce
          <==> KeptBelow(ListOf(was, a), ListOf(pending, a), currentState(a).nonce)
    {
      hide NonceOk, CutSince, KeptBelow, ListOf;
      if Settled(Since(was)) {
        forall a: Address
          ensures pendingNonces.View(a) == currentState(a).nonce
             <==> KeptBelow(ListOf(was, a), ListOf(pending, a), currentState(a).nonce)
        {
          assert Stands(Since(was), a, ListOf(pending, a), Head(a), pendingNonces.View(a));
          CutExactly(ListOf(was, a), ListOf(pending, a), Head(a).nonce, pendingNonces.View(a));
        }
      }
    }

    lemma StartIs(start: Snapshot)
      requires Core() && start == Snapshot(pending, queue, pendingNonces.Views(), beats)
      ensures forall a :: WouldWait(a) <==> StartWaits(start, a)
      ensures Settled(Idle) || Settled(Resetting) ==> forall a: Address {:trigger StartWaits(start, a)} |
        start.virtual(a) == currentState(a).nonce + |ListOf(start.pending, a)| :: !StartWaits(start, a)
    {
      hide Waits, ListOf, NonceOk, Partition;
      assert forall a :: start.virtual(a) == pendingNonces.View(a);
      if Settled(Idle) || Settled(Resetting) {
        var phase := if Settled(Idle) then Idle else Resetting;
        forall a: Address | start.virtual(a) == currentState(a).nonce + |ListOf(start.pending, a)|
          ensures !StartWaits(start, a)
        {
          assert Stands(phase, a, ListOf(pending, a), Head(a), pendingNonces.View(a));
          PartitionAt(pending, queue, all.Txs(), a);
          NeverWaitsExact(phase, ListOf(pending, a), ListOf(queue, a), Head(a), pendingNonces.View(a), QueueCap(a));
        }
      }
    }

    /** The second part of a run: promotion, and after a reset demotion. Of the accounts it looks at it leaves waiting
        exactly those that had to. */
    method Rework(reset: ResetRequest, accounts: set<Address>, ghost start: Snapshot)
      requires Core() && priced.Valid() && start == Snapshot(pending, queue, pendingNonces.Views(), beats)
      modifies `pending, `queue, `beats, all, priced, pendingNonces
      ensures Core() && priced.Valid() && all.Txs() <= old(all.Txs())
      ensures old(Settled(Idle)) || (reset != NoReset && old(Settled(Resetting))) ==>
        && Settled(Idle)
        && (forall a | a in accounts || a !in old(queue) :: Free(a))
        && (forall a | a in accounts || a !in old(queue) :: NextFree(a) <==> !old(WouldWait(a)))
        && (forall a | a !in pending :: pendingNonces.View(a) == old(pendingNonces.View(a)))
      ensures Reworked(start, Snapshot(pending, queue, pendingNonces.Views(), beats), accounts, reset)
    {
      hide *;
      PromoteExecutables(accounts);
      ghost var mid := Snapshot(pending, queue, pendingNonces.Views(), beats);
      PromotionFrom(start, mid, accounts);
      SettledIsFresh();
      ClearIsFree();
      CoreParts();
      NothingDemoted();
      if reset != NoReset {
        DemoteUnexecutables();
      }
      ghost var end := Snapshot(pending, queue, pendingNonces.Views(), beats);
      DemotionFrom(mid, end, reset);
      ReworkedHolds(start, mid, end, accounts, reset);
    }

    /** Every account's lists after promotion and demotion, from those before. */
    ghost predicate Reworked(start: Snapshot, end: Snapshot, accounts: set<Address>, reset: ResetRequest)
      reads `currentState, `currentMaxGas, `locals
    {
      forall a: Address {:trigger ListOf(end.pending, a)} ::
        Turned(Head(a), QueueCap(a), a in accounts || a !in start.queue, reset != NoReset, ListOf(start.pending, a),
               ListOf(start.queue, a), start.virtual(a), ListOf(end.pending, a), ListOf(end.queue, a))
    }

    ghost predicate PromotedFrom(start: Snapshot, mid: Snapshot, accounts: set<Address>)
      reads `currentState, `currentMaxGas, `locals
    {
      forall a: Address {:trigger mid.virtual(a)} ::
        if a in accounts then
          Promotes(Head(a), QueueCap(a), ListOf(start.pending, a), ListOf(start.queue, a), start.virtual(a),
                   ListOf(mid.pending, a), ListOf(mid.queue, a), mid.virtual(a))
        else
          Unmoved(ListOf(start.pending, a), ListOf(start.queue, a), start.virtual(a),
                  ListOf(mid.pending, a), ListOf(mid.queue, a), mid.virtual(a))
    }

    lemma PromotionFrom(start: Snapshot, mid: Snapshot, accounts: set<Address>)
      requires mid == Snapshot(pending, queue, pendingNonces.Views(), beats)
      requires forall a: Address {:trigger pendingNonces.View(a)} ::
        if a in accounts then
          Promotes(Head(a), QueueCap(a), ListOf(start.pending, a), ListOf(start.queue, a), start.virtual(a),
                   ListOf(pending, a), ListOf(queue, a), pendingNonces.View(a))
        else
          Unmoved(ListOf(start.pending, a), ListOf(start.queue, a), start.virtual(a),
                  ListOf(pending, a), ListOf(queue, a), pendingNonces.View(a))
      ensures PromotedFrom(start, mid, accounts)
    {
      hide Promotes, Unmoved, ListOf, Head, QueueCap;
      assert forall a :: mid.virtual(a) == pendingNonces.View(a);
    }

    ghost predicate DemotedFrom(mid: Snapshot, end: Snapshot, reset: ResetRequest)
      reads `currentState, `currentMaxGas
    {
      forall a: Address {:trigger end.virtual(a)} ::
        if reset != NoReset && a in mid.pending then
          Demotes(Head(a), ListOf(mid.pending, a), ListOf(mid.queue, a), mid.virtual(a),
                  ListOf(end.pending, a), ListOf(end.queue, a), end.virtual(a))
        else
          Unmoved(ListOf(mid.pending, a), ListOf(mid.queue, a), mid.virtual(a),
                  ListOf(end.pending, a), ListOf(end.queue, a), end.virtual(a))
    }

    lemma DemotionFrom(mid: Snapshot, end: Snapshot, reset: ResetRequest)
      requires end == Snapshot(pending, queue, pendingNonces.Views(), beats)
      requires reset == NoReset ==> end == mid
      requires reset != NoReset ==> forall a: Address {:trigger pendingNonces.View(a)} ::
        if a in mid.pending then
          Demotes(Head(a), ListOf(mid.pending, a), ListOf(mid.queue, a), mid.virtual(a),
                  ListOf(pending, a), ListOf(queue, a), pendingNonces.View(a))
        else
          Unmoved(ListOf(mid.pending, a), ListOf(mid.queue, a), mid.virtual(a),
                  ListOf(pending, a), ListOf(queue, a), pendingNonces.View(a))
      ensures DemotedFrom(mid, end, reset)
    {
      hide Demotes, ListOf, Head;
      assert forall a :: end.virtual(a) == pendingNonces.View(a);
    }

    lemma ReworkedHolds(start: Snapshot, mid: Snapshot, end: Snapshot, accounts: set<Address>, reset: ResetRequest)
      requires PromotedFrom(start, mid, accounts) && DemotedFrom(mid, end, reset) && NoEmpty(mid.pending)
      ensures Reworked(start, end, accounts, reset)
    {
      hide Promotes, Demoted, Requeued, Turned, Head, QueueCap;
      forall a: Address
        ensures Turned(Head(a), QueueCap(a), a in accounts || a !in start.queue, reset != NoReset,
                       ListOf(start.pending, a), ListOf(start.queue, a), start.virtual(a),
                       ListOf(end.pending, a), ListOf(end.queue, a))
      {
        assert mid.virtual(a) == end.virtual(a);
        TurnEnds(Head(a), QueueCap(a), a in accounts, a in accounts || a !in start.queue, reset != NoReset,
                 ListOf(start.pending, a), ListOf(start.queue, a), start.virtual(a),
                 ListOf(mid.pending, a), ListOf(mid.queue, a), mid.virtual(a),
                 ListOf(end.pending, a), ListOf(end.queue, a));
      }
    }

    /** The last part of a run: the limits, and the virtual nonces. */
    method FinishRun()
      requires Core() && priced.Valid()
      modifies `pending, `queue, `beats, all, priced, pendingNonces
      ensures Core() && priced.Valid() && all.Txs() <= old(all.Txs())
      ensures old(Settled(Idle)) ==>
        && Settled(Idle) && Settled(Reported) && Exact() && (NoLast(all.Txs()) ==> Settled(Counted))
        && forall a :: old(NextFree(a)) ==> NextFree(a)
      ensures forall a :: old(Free(a)) ==> Free(a)
      ensures pending.Keys == old(pending.Keys)
      ensures forall a | a !in pending :: pendingNonces.View(a) == old(pendingNonces.View(a))
      ensures Limited(old(pending), old(queue), old(beats))
    {
      hide *;
      ghost var level := TruncatePending();
      ghost var before, beats0 := queue, beats;
      ghost var order, k, keep := TruncateQueue();
      LimitedHolds(old(pending), before, beats0, level, order, k, keep);
      UpdateNonces();
    }

    /** Pending and queued lists are what the two limits leave of them: the longest lists levelled, the latest
        heartbeats cut. */
    ghost predicate Limited(wasPending: AccountLists, wasQueue: AccountLists, beats: map<Address, nat>)
      reads `pending, `queue, `locals
    {
      && (if Count(wasPending) <= config.globalSlots then pending == wasPending
          else exists level: nat ::
            Truncated(wasPending, pending, locals, config.accountSlots, config.globalSlots, level))
      && (if Count(wasQueue) <= config.globalQueue then queue == wasQueue
          else exists order: seq<Address>, k: nat, keep: nat ::
            QueueCut(wasQueue, queue, locals, beats, config.globalQueue, order, k, keep))
    }

    lemma LimitedHolds(wasPending: AccountLists, wasQueue: AccountLists, beats: map<Address, nat>,
                       level: nat, order: seq<Address>, k: nat, keep: nat)
      requires if Count(wasPending) <= config.globalSlots then pending == wasPending
        else Truncated(wasPending, pending, locals, config.accountSlots, config.globalSlots, level)
      requires if Count(wasQueue) <= config.globalQueue then queue == wasQueue
        else QueueCut(wasQueue, queue, locals, beats, config.globalQueue, order, k, keep)
      ensures Limited(wasPending, wasQueue, beats)
    {
      hide Count, Truncated, QueueCut;
    }

    lemma LimitsHold(wasPending: AccountLists, wasQueue: AccountLists, beats: map<Address, nat>)
      requires Limited(wasPending, wasQueue, beats)
      ensures Count(pending) <= config.globalSlots
        || forall a | a in pending && a !in locals :: |pending[a]| <= config.accountSlots
      ensures Count(queue) <= config.globalQueue || forall a | a in queue :: a in locals
    {
      hide Count, Truncated, QueueCut;
      if Count(wasPending) > config.globalSlots {
        var level: nat :| Truncated(wasPending, pending, locals, config.accountSlots, config.globalSlots, level);
        PendingBound(wasPending, pending, level);
      }
      if Count(wasQueue) > config.globalQueue {
        var order: seq<Address>, k: nat, keep: nat :|
          QueueCut(wasQueue, queue, locals, beats, config.globalQueue, order, k, keep);
        QueueBound(wasQueue, queue, beats, order, k, keep);
      }
    }

    /** A run of the pool's reorganisation. It keeps the partition in any case, and adds nothing but what a reset adds
        back. As long as heads do not lower nonces it ends with pending lists that are exactly the state nonce and up,
        and leaves the nonce after an account's pending list queued only where `Waits` held when it started. */
    method RunReorg(reset: ResetRequest, dirty: set<Address>) returns (ghost start: Snapshot, ghost mid: Snapshot)
      requires Core() && priced.Valid()
      modifies this, all, priced, pendingNonces
      ensures Core() && priced.Valid() && (pendingNonces == old(pendingNonces) || fresh(pendingNonces))
      ensures currentState == if reset.ResetTo? then reset.state else old(currentState)
      ensures currentMaxGas == if reset.ResetTo? then reset.maxGas else old(currentMaxGas)
      ensures gasPrice == old(gasPrice) && now == old(now) && locals == old(locals)
      ensures forall tx | tx in all.Txs() :: tx in old(all.Txs()) || (reset.ResetTo? && tx in reset.reinject)
      ensures !reset.ResetTo? || reset.reinject == [] ==> start.pending == old(pending) && start.queue == old(queue)
      ensures !reset.ResetTo? ==> forall a :: start.virtual(a) == old(pendingNonces.View(a))
      ensures reset.ResetTo? && old(Room(reset.reinject)) ==>
        && (forall a :: start.virtual(a) == reset.state(a).nonce)
        && (forall t | t in old(all.Txs()) :: Listed(start, t))
        && (forall t | t in reset.reinject && ValidateTx(t, t.sender in locals) == NoError :: Listed(start, t))
      ensures old(Steady(reset)) && reset.ResetTo? ==>
        forall a: Address {:trigger start.virtual(a)} :: start.virtual(a) == reset.state(a).nonce
          <==> KeptBelow(ListOf(old(pending), a), ListOf(start.pending, a), reset.state(a).nonce)
      ensures old(Steady(reset)) ==>
        && Settled(Idle) && Settled(Reported) && Exact() && Unstuck(reset, dirty) && Served(start, reset, dirty)
        && (NoLast(all.Txs()) ==> Settled(Counted)) && AllPaid(currentState, currentMaxGas)
      ensures Reworked(start, mid, if reset == NoReset then dirty else start.queue.Keys, reset)
      ensures Limited(mid.pending, mid.queue, mid.beats)
      ensures Count(pending) <= config.globalSlots
        || forall a | a in pending && a !in locals :: |pending[a]| <= config.accountSlots
      ensures Count(queue) <= config.globalQueue || forall a | a in queue :: a in locals
    {
      hide *;
      start := StartRun(reset);
      StartIs(start);
      Rework(reset, if reset == NoReset then dirty else queue.Keys, start);
      mid := Snapshot(pending, queue, pendingNonces.Views(), beats);
      FinishRun();
      LimitsHold(mid.pending, mid.queue, mid.beats);
      RunServed(start, reset, dirty);
      SettledIsPaid();
    }

    /** The head pays for everything pending. */
    ghost predicate AllPaid(state: Address -> Account, maxGas: nat)
      reads `pending
    {
      forall a, n | a in pending && n in pending[a] ::
        pending[a][n].gas <= maxGas && pending[a][n].cost <= state(a).balance
    }

    lemma SettledIsPaid()
      ensures Settled(Idle) ==> AllPaid(currentState, currentMaxGas)
    {
      hide Contiguous, Reaches;
      if Settled(Idle) {
        forall a, n | a in pending && n in pending[a]
          ensures pending[a][n].gas <= currentMaxGas && pending[a][n].cost <= currentState(a).balance
        {
          var p := ListOf(pending, a);
          assert Stands(Idle, a, p, Head(a), pendingNonces.View(a));
          assert n !in Costly(p, Head(a)) && n in Young(p, Head(a));
        }
      }
    }

    lemma ClearIsFree()
      ensures forall a :: Clear(a) ==> Free(a)
    {
    }

    lemma RunServed(start: Snapshot, reset: ResetRequest, dirty: set<Address>)
      ensures (forall a | reset.NoReset? ==> a in dirty :: Free(a)) ==> Unstuck(reset, dirty)
      ensures (forall a | (reset.NoReset? ==> a in dirty) && !StartWaits(start, a) :: NextFree(a)) ==>
        (forall a: Address {:trigger StartWaits(start, a)} |
           start.virtual(a) == currentState(a).nonce + |ListOf(start.pending, a)| :: !StartWaits(start, a)) ==>
        (forall a | a !in pending :: pendingNonces.View(a) == start.virtual(a)) ==> Served(start, reset, dirty)
    {
      hide Free, NextFree, StartWaits;
    }

    /** When the scheduler closes the channel of a request to promote accounts, the run has looked at them: of each the
        nonce after its pending list is not queued, unless it had to wait. */
    lemma TicketServed(start: Snapshot, reset: ResetRequest, dirty: set<Address>,
                       runs: seq<ReorgSchedulers.Run>, t: ReorgSchedulers.Ticket)
      requires ReorgSchedulers.ServedBy(runs, t) && AskedBy(runs[t.done], reset, dirty) && Served(start, reset, dirty)
      ensures t.want.Accounts? ==> forall a | a in t.want.accounts :: NextFree(a) || StartWaits(start, a)
    {
      hide StartWaits, NextFree;
    }

    /** Answers one request. */
    method Handle(request: Request)
      requires Core() && priced.Valid()
      modifies this, all, priced, pendingNonces
      ensures Core() && priced.Valid() && (pendingNonces == old(pendingNonces) || fresh(pendingNonces))
      ensures now == old(now)
      ensures Terms(currentState, currentMaxGas, gasPrice)
           == TermsAfter(old(Terms(currentState, currentMaxGas, gasPrice)), request)
      ensures HandledAs(old(Terms(currentState, currentMaxGas, gasPrice)), request, old(all.Txs()), all.Txs(), Limit())
      ensures forall tx | tx in all.Txs() :: tx in old(all.Txs()) || Sent(request, tx)
      ensures request.Reorg? && old(Steady(request.reset)) ==>
        Settled(Idle) && Settled(Reported) && Exact() && (NoLast(all.Txs()) ==> Settled(Counted))
      ensures !request.Reorg? ==> forall r: Phase :: old(Settled(r)) ==> Settled(r)
    {
      hide *;
      ghost var terms := Terms(currentState, currentMaxGas, gasPrice);
      TermsOf(terms, request);
      SentIs(request);
      match request
      case AddTxs(txs, local) =>
        RoomIs(txs);
        ghost var wereLocal := locals;
        var _, _, _, _ := AddTxsLocked(txs, local);
        AddsHandled(terms, txs, local, wereLocal, old(all.Txs()));
      case Price(price) =>
        SetGasPrice(price);
        OthersHandled(terms, request, old(all.Txs()), all.Txs(), Limit());
      case EvictionTick(expired) =>
        Evict(expired);
        OthersHandled(terms, request, old(all.Txs()), all.Txs(), Limit());
      case Reorg(reset, dirty) =>
        var _, _ := RunReorg(reset, dirty);
        OthersHandled(terms, request, old(all.Txs()), all.Txs(), Limit());
    }

    lemma AddsHandled(terms: Terms, txs: seq<Tx>, local: bool, wereLocal: set<Address>, before: set<Tx>)
      requires terms == Terms(currentState, currentMaxGas, gasPrice)
      requires |before| + SeqSlots(txs) <= Limit() ==>
        && (forall t | t in before :: Occupied(all.Txs(), t))
        && (forall t | t in txs && ValidateTx(t, local || t.sender in wereLocal) == NoError :: Occupied(all.Txs(), t))
      ensures HandledAs(terms, AddTxs(txs, local), before, all.Txs(), Limit())
    {
      hide Occupied, ValidateTx, Limit;
      forall t | t in txs && AdmissibleOn(terms, t, local)
        ensures ValidateTx(t, local || t.sender in wereLocal) == NoError
      {
        ValidExactly(t, local || t.sender in wereLocal);
      }
    }

    /** Any run of the pool. While heads do not lower nonces the pending lists stay gapless and payable at the last
        head; from the first reorganisation on the virtual nonces are reported, and they are exact as long as nobody
        sends a transaction with the last 64-bit nonce. `pools` are the pooled transactions before and after each
        request. */
    method Run(requests: seq<Request>) returns (ghost pools: seq<set<Tx>>)
      requires Core() && priced.Valid()
      modifies this, all, priced, pendingNonces
      ensures Core() && priced.Valid() && now == old(now)
      ensures |pools| == |requests| + 1 && pools[0] == old(all.Txs()) && pools[|requests|] == all.Txs()
      ensures AllHandled(old(Terms(currentState, currentMaxGas, gasPrice)), requests, pools, Limit())
      ensures forall tx | tx in all.Txs() :: tx in old(all.Txs()) || Sends(requests, tx)
      ensures Terms(currentState, currentMaxGas, gasPrice)
           == TermsAtEnd(old(Terms(currentState, currentMaxGas, gasPrice)), requests)
      ensures old(Settled(Idle)) && NeverLowers(old(currentState), requests) ==>
        && Settled(Idle) && AllPaid(currentState, currentMaxGas)
        && ((exists i :: 0 <= i < |requests| && requests[i].Reorg?) ==>
              Settled(Reported) && (NoLast(old(all.Txs())) && NoneSendsLast(requests) ==> Exact()))
        && (requests != [] && requests[|requests|-1].Reorg? ==> Exact())
    {
      hide *;
      ghost var steady := Settled(Idle) && NeverLowers(currentState, requests);
      ghost var short := NoLast(all.Txs()) && NoneSendsLast(requests);
      ghost var terms := Terms(currentState, currentMaxGas, gasPrice);
      TermsStart(terms, requests);
      pools := [all.Txs()];
      HandledStart(terms, requests, pools, Limit());
      for i := 0 to |requests|
        invariant Core() && priced.Valid() && (pendingNonces == old(pendingNonces) || fresh(pendingNonces))
        invariant now == old(now)
        invariant Terms(currentState, currentMaxGas, gasPrice) == TermsAtEnd(terms, requests[..i])
        invariant |pools| == i + 1 && pools[0] == old(all.Txs()) && pools[i] == all.Txs()
        invariant AllHandled(terms, requests[..i], pools, Limit())
        invariant forall tx | tx in all.Txs() :: tx in old(all.Txs()) || Sends(requests, tx)
        invariant steady ==> Settled(Idle) && NeverLowers(currentState, requests[i..])
        invariant steady && (exists j :: 0 <= j < i && requests[j].Reorg?) ==>
          Settled(Reported) && (short ==> Settled(Counted))
        invariant steady && i > 0 && requests[i-1].Reorg? ==> Exact()
      {
        LowersNext(currentState, requests, i);
        TermsStep(terms, requests, i);
        TermsOf(TermsAtEnd(terms, requests[..i]), requests[i]);
        SendsSent(requests, i);
        if requests[i].Reorg? {
          SteadyIs(requests[i].reset);
        }
        Handle(requests[i]);
        HandledStep(terms, requests, pools, i, all.Txs(), Limit());
        pools := pools + [all.Txs()];
        StillNoLast(old(all.Txs()), requests, all.Txs());
      }
      CountedThenExact();
      SettledIsPaid();
    }

    lemma CountedThenExact()
      requires Core()
      ensures Settled(Counted) ==> Exact()
    {
      hide Exact, Settled;
      if Settled(Counted) {
        CountedIsExact();
      }
    }

    lemma SettledIsFresh()
      ensures Settled(Idle) ==> Fresh()
    {
      if Settled(Idle) {
        forall a: Address
          ensures FreshOk(ListOf(pending, a), Head(a), pendingNonces.View(a))
        {
          assert NonceOk(Idle, ListOf(pending, a), Head(a), pendingNonces.View(a));
        }
      }
    }

    lemma PendingBound(before: AccountLists, after: AccountLists, level: nat)
      requires if Count(before) <= config.globalSlots then after == before
        else Truncated(before, after, locals, config.accountSlots, config.globalSlots, level)
      ensures Count(after) <= config.globalSlots
        || forall a | a in after && a !in locals :: |after[a]| <= config.accountSlots
    {
      hide *;
      if Count(before) > config.globalSlots {
        TruncatedFacts(before, after, locals, config.accountSlots, config.globalSlots, level);
      }
    }

    lemma QueueBound(before: AccountLists, after: AccountLists, beats: map<Address, nat>, order: seq<Address>, k: nat,
                     keep: nat)
      requires if Count(before) <= config.globalQueue then after == before
        else QueueCut(before, after, locals, beats, config.globalQueue, order, k, keep)
      ensures Count(after) <= config.globalQueue || forall a | a in after :: a in locals
    {
      hide Count, CutAt, Enumerates, OldestFirst;
    }
  }
}
