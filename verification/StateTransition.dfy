/** core/state_transition.go, core/state_processor.go and core/gaspool.go: buying, using and refunding
    gas for one message and for a block of them, with the EVM as an oracle. */
module StateTransitions {
  import opened Common

  const MAX_UINT64: int := TWO_64 - 1

  type Byte = b: nat | b < 256

  const TX_GAS: nat := 21000
  const TX_GAS_CONTRACT_CREATION: nat := 53000
  const TX_DATA_ZERO_GAS: nat := 4
  const TX_DATA_NON_ZERO_GAS_FRONTIER: nat := 68
  const TX_DATA_NON_ZERO_GAS_EIP2028: nat := 16

  /** The consensus errors: a message that meets one cannot be in a block. */
  datatype TxError =
    | NonceTooHigh | NonceTooLow | InsufficientFunds | GasLimitReached
    | GasUintOverflow | IntrinsicGasTooLow | InsufficientFundsForTransfer

  datatype Result<T> = Ok(value: T) | Err(error: TxError)

  datatype Message = Message(from: Address, to: Option<Address>, gasPrice: nat, gas: Uint64, value: int,
                             nonce: Uint64, checkNonce: bool, data: seq<Byte>)

  /** Balances and nonces; an account that is not there has zero of both. */
  datatype World = World(balances: map<Address, nat>, nonces: map<Address, Uint64>)

  function Balance(w: World, a: Address): (b: nat) {
    if a in w.balances then w.balances[a] else 0
  }

  function Nonce(w: World, a: Address): (n: Uint64) {
    if a in w.nonces then w.nonces[a] else 0
  }

  function AddBalance(w: World, a: Address, amount: nat): (r: World) {
    w.(balances := w.balances[a := Balance(w, a) + amount])
  }

  function SubBalance(w: World, a: Address, amount: nat): (r: World)
    requires amount <= Balance(w, a)
  {
    w.(balances := w.balances[a := Balance(w, a) - amount])
  }

  /** All the wei there is. */
  ghost function Total(b: map<Address, nat>): (t: nat) {
    if b == map[] then 0
    else var a :| a in b; b[a] + Total(b - {a})
  }

  lemma {:induction false} TotalWithout(b: map<Address, nat>, a: Address)
    requires a in b
    ensures Total(b) == b[a] + Total(b - {a})
    decreases |b|
  {
    var x :| x in b && Total(b) == b[x] + Total(b - {x});
    if x != a {
      TotalWithout(b - {x}, a);
      TotalWithout(b - {a}, x);
      assert b - {x} - {a} == b - {a} - {x};
    }
  }

  /** Setting one balance moves the total by what that balance moved. */
  lemma TotalUpdate(b: map<Address, nat>, a: Address, v: nat)
    ensures Total(b[a := v]) == Total(b) - (if a in b then b[a] else 0) + v
  {
    TotalWithout(b[a := v], a);
    assert b[a := v] - {a} == b - {a};
    if a in b {
      TotalWithout(b, a);
    } else {
      assert b - {a} == b;
    }
  }

  /** What the EVM does with a message: the world it leaves, the gas it did not use, the refund counter. */
  datatype Outcome = Outcome(world: World, gasLeft: Uint64, refund: Uint64, failed: bool)

  type Evm = (World, Message, Uint64) -> Outcome

  ghost predicate NeverMakesGas(evm: Evm) {
    forall w, m, g {:trigger evm(w, m, g)} :: evm(w, m, g).gasLeft <= g
  }

  /** Counts bytes that are not zero. */
  function NonZero(data: seq<Byte>): (n: nat)
    ensures n <= |data|
  {
    if data == [] then 0 else NonZero(data[..|data|-1]) + if data[|data|-1] != 0 then 1 else 0
  }

  /** The intrinsic gas as the specification defines it, on unbounded numbers. */
  function IntrinsicCost(data: seq<Byte>, creation: bool, homestead: bool, eip2028: bool): (g: nat) {
    (if creation && homestead then TX_GAS_CONTRACT_CREATION else TX_GAS)
    + NonZero(data) * (if eip2028 then TX_DATA_NON_ZERO_GAS_EIP2028 else TX_DATA_NON_ZERO_GAS_FRONTIER)
    + (|data| - NonZero(data)) * TX_DATA_ZERO_GAS
  }

  /** It starts from the price of a call or a creation, and each byte adds its own. */
  lemma IntrinsicSteps(data: seq<Byte>, b: Byte, creation: bool, homestead: bool, eip2028: bool)
    ensures IntrinsicCost([], creation, homestead, eip2028) == if creation && homestead then 53000 else 21000
    ensures IntrinsicCost(data + [b], creation, homestead, eip2028)
         == IntrinsicCost(data, creation, homestead, eip2028) + if b == 0 then 4 else if eip2028 then 16 else 68
  {
    assert (data + [b])[..|data|] == data;
  }

  /** IntrinsicGas: the cost, or an error exactly when it does not fit in 64 bits. */
  method IntrinsicGas(data: seq<Byte>, creation: bool, homestead: bool, eip2028: bool) returns (r: Result<Uint64>)
    requires |data| < TWO_64
    ensures r == if IntrinsicCost(data, creation, homestead, eip2028) <= MAX_UINT64
                 then Ok(IntrinsicCost(data, creation, homestead, eip2028))
                 else Err(GasUintOverflow)
  {
    var gas: Uint64 := if creation && homestead then TX_GAS_CONTRACT_CREATION else TX_GAS;
    if |data| > 0 {
      var nz := 0;
      for i := 0 to |data|
        invariant nz == NonZero(data[..i])
      {
        assert data[..i+1][..i] == data[..i];
        if data[i] != 0 {
          nz := nz + 1;
        }
      }
      assert data[..|data|] == data;
      var nonZeroGas := TX_DATA_NON_ZERO_GAS_FRONTIER;
      if eip2028 {
        nonZeroGas := TX_DATA_NON_ZERO_GAS_EIP2028;
      }
      if (MAX_UINT64 - gas) / nonZeroGas < nz {
        return Err(GasUintOverflow);
      }
      gas := gas + nz * nonZeroGas;
      var z := |data| - nz;
      if (MAX_UINT64 - gas) / TX_DATA_ZERO_GAS < z {
        return Err(GasUintOverflow);
      }
      gas := gas + z * TX_DATA_ZERO_GAS;
    }
    return Ok(gas);
  }

  class GasPool {
    var gas: Uint64

    constructor (gas: Uint64)
      ensures this.gas == gas
    {
      this.gas := gas;
    }

    /** AddGas panics when the pool would pass 64 bits; no caller may let it. */
    method AddGas(amount: Uint64)
      requires gas + amount <= MAX_UINT64
      modifies this
      ensures gas == old(gas) + amount
    {
      gas := gas + amount;
    }

    method SubGas(amount: Uint64) returns (ok: bool)
      modifies this
      ensures ok <==> amount <= old(gas)
      ensures gas == if ok then old(gas) - amount else old(gas)
    {
      if gas < amount {
        return false;
      }
      gas := gas - amount;
      return true;
    }
  }

  /** The rules of the block that a message is applied in. */
  datatype Rules = Rules(homestead: bool, istanbul: bool, coinbase: Address)

  /** What an amount of gas costs. */
  function Wei(gas: nat, price: nat): (w: nat) {
    gas * price
  }

  lemma WeiSplit(a: nat, b: nat, price: nat)
    ensures Wei(a, price) + Wei(b, price) == Wei(a + b, price)
  {
  }

  function Fee(m: Message): (f: nat) {
    Wei(m.gas, m.gasPrice)
  }

  function Intrinsic(m: Message, r: Rules): (g: nat) {
    IntrinsicCost(m.data, m.to.None?, r.homestead, r.istanbul)
  }

  /** The first consensus rule that a message breaks against a world and a gas pool, if any: those
      checked before gas is bought, then those after. */
  function Broken(m: Message, w: World, pool: nat, r: Rules): (e: Option<TxError>) {
    if m.checkNonce && Nonce(w, m.from) < m.nonce then Some(NonceTooHigh)
    else if m.checkNonce && Nonce(w, m.from) > m.nonce then Some(NonceTooLow)
    else if Balance(w, m.from) < Fee(m) then Some(InsufficientFunds)
    else if pool < m.gas then Some(GasLimitReached)
    else if Intrinsic(m, r) > MAX_UINT64 then Some(GasUintOverflow)
    else if m.gas < Intrinsic(m, r) then Some(IntrinsicGasTooLow)
    else if m.value > 0 && Balance(w, m.from) - Fee(m) < m.value then Some(InsufficientFundsForTransfer)
    else None
  }

  /** A message is acceptable iff it meets every rule, and those checked before the purchase come first. */
  lemma AcceptableExactly(m: Message, w: World, pool: nat, r: Rules)
    ensures var e := Broken(m, w, pool, r);
      e.Some? && BeforePurchase(e.value) <==>
        (m.checkNonce && m.nonce != Nonce(w, m.from)) || m.gas * m.gasPrice > Balance(w, m.from) || m.gas > pool
    ensures Broken(m, w, pool, r) == None <==>
      && (m.checkNonce ==> m.nonce == Nonce(w, m.from))
      && m.gas <= pool && Intrinsic(m, r) <= m.gas
      && (if m.value > 0 then m.gas * m.gasPrice + m.value else m.gas * m.gasPrice) <= Balance(w, m.from)
  {
    hide IntrinsicCost;
  }

  predicate BeforePurchase(e: TxError) {
    e in {NonceTooHigh, NonceTooLow, InsufficientFunds, GasLimitReached}
  }

  /** The world after the sender has bought all of the message's gas. */
  function Bought(m: Message, w: World): (r: World)
    requires Fee(m) <= Balance(w, m.from)
  {
    SubBalance(w, m.from, Fee(m))
  }

  /** The world the EVM is given: gas bought and, for a call, the sender's nonce raised. */
  function Handed(m: Message, w: World): (r: World)
    requires Fee(m) <= Balance(w, m.from)
  {
    var b := Bought(m, w);
    if m.to.None? then b else b.(nonces := b.nonces[m.from := Add64(Nonce(b, m.from), 1)])
  }

  /** What the EVM makes of an acceptable message. */
  function Executed(evm: Evm, m: Message, w: World, r: Rules): (o: Outcome)
    requires Fee(m) <= Balance(w, m.from) && Intrinsic(m, r) <= m.gas
  {
    evm(Handed(m, w), m, m.gas - Intrinsic(m, r))
  }

  /** Gas used: what was not left, less the refund, which is capped at half of it. */
  function Used(m: Message, o: Outcome): (g: nat)
    requires o.gasLeft <= m.gas
    ensures g <= m.gas - o.gasLeft && 2 * g >= m.gas - o.gasLeft
  {
    var spent := m.gas - o.gasLeft;
    spent - if spent / 2 > o.refund then o.refund else spent / 2
  }

  /** The refund is what the EVM granted, but not more than half of what was spent. */
  lemma UsedIs(m: Message, o: Outcome)
    requires o.gasLeft <= m.gas
    ensures m.gas - o.gasLeft - Used(m, o) == Min(o.refund, (m.gas - o.gasLeft) / 2)
  {
  }

  /** The world after remaining gas is paid back and the miner is paid for the rest. */
  function Paid(m: Message, o: Outcome, r: Rules): (w: World)
    requires o.gasLeft <= m.gas
  {
    AddBalance(AddBalance(o.world, m.from, Wei(m.gas - Used(m, o), m.gasPrice)), r.coinbase,
               Wei(Used(m, o), m.gasPrice))
  }

  lemma AddBalanceTotal(w: World, a: Address, v: nat)
    ensures Total(AddBalance(w, a, v).balances) == Total(w.balances) + v
  {
    TotalUpdate(w.balances, a, Balance(w, a) + v);
  }

  lemma SubBalanceTotal(w: World, a: Address, v: nat)
    requires v <= Balance(w, a)
    ensures Total(SubBalance(w, a, v).balances) == Total(w.balances) - v
  {
    TotalUpdate(w.balances, a, Balance(w, a) - v);
  }

  /** Buying, refunding and paying neither make nor lose wei: whatever changes the total over a whole
      transition is what the EVM call itself changed. */
  lemma WeiConserved(m: Message, w: World, o: Outcome, r: Rules)
    requires Fee(m) <= Balance(w, m.from) && o.gasLeft <= m.gas
    ensures Total(Paid(m, o, r).balances) - Total(w.balances) == Total(o.world.balances) - Total(Handed(m, w).balances)
  {
    hide Wei, AddBalance, SubBalance, Used;
    SubBalanceTotal(w, m.from, Fee(m));
    var u := Used(m, o);
    AddBalanceTotal(o.world, m.from, Wei(m.gas - u, m.gasPrice));
    AddBalanceTotal(AddBalance(o.world, m.from, Wei(m.gas - u, m.gasPrice)), r.coinbase, Wei(u, m.gasPrice));
    WeiSplit(m.gas - u, u, m.gasPrice);
  }

  /** What the EVM is handed: the sender has paid for all of the gas; its nonce is one more for a call and unchanged
      for a creation, which raises it itself; nobody else is touched. */
  lemma HandedIs(m: Message, w: World, a: Address)
    requires Fee(m) <= Balance(w, m.from)
    ensures Balance(Handed(m, w), a) == Balance(w, a) - if a == m.from then m.gas * m.gasPrice else 0
    ensures Nonce(Handed(m, w), a)
         == if a == m.from && m.to.Some? then (Nonce(w, a) + 1) % TWO_64 else Nonce(w, a)
  {
  }

  /** What the purchase alone leaves. */
  lemma BoughtIs(m: Message, w: World, a: Address)
    requires Fee(m) <= Balance(w, m.from)
    ensures Balance(Bought(m, w), a) == Balance(w, a) - if a == m.from then m.gas * m.gasPrice else 0
    ensures Nonce(Bought(m, w), a) == Nonce(w, a)
  {
  }

  /** From what the EVM left, the sender gets back what the unused gas cost and the miner gets what the used gas cost,
      also if they are the same; nobody else's balance and nobody's nonce changes. */
  ghost predicate Settled(m: Message, o: World, coinbase: Address, usedGas: nat, w: World)
    requires usedGas <= m.gas
  {
    && w.nonces == o.nonces
    && forall a :: Balance(w, a) == Balance(o, a)
         + (if a == m.from then (m.gas - usedGas) * m.gasPrice else 0)
         + (if a == coinbase then usedGas * m.gasPrice else 0)
  }

  lemma PaidSettles(m: Message, o: Outcome, r: Rules)
    requires o.gasLeft <= m.gas
    ensures Settled(m, o.world, r.coinbase, Used(m, o), Paid(m, o, r))
  {
    hide Used;
  }

  /** The miner's part, where the miner is not the sender. */
  lemma MinerPaid(m: Message, o: World, coinbase: Address, usedGas: nat, w: World)
    requires usedGas <= m.gas && Settled(m, o, coinbase, usedGas, w)
    ensures m.from != coinbase ==>
      && Balance(w, coinbase) == Balance(o, coinbase) + usedGas * m.gasPrice
      && Balance(w, m.from) == Balance(o, m.from) + (m.gas - usedGas) * m.gasPrice
    ensures m.from == coinbase ==> Balance(w, coinbase) == Balance(o, coinbase) + m.gas * m.gasPrice
    ensures forall a | a != m.from && a != coinbase :: Balance(w, a) == Balance(o, a)
  {
    WeiSplit(m.gas - usedGas, usedGas, m.gasPrice);
  }

  /** The EVM never changes an account's balance. */
  ghost predicate LeavesAlone(evm: Evm, a: Address) {
    forall w, m, g {:trigger evm(w, m, g)} :: Balance(evm(w, m, g).world, a) == Balance(w, a)
  }

  /** What a message's fee does to an account: the miner earns it and the sender pays it. */
  function NetFee(m: Message, usedGas: nat, coinbase: Address, a: Address): (d: int) {
    (if a == coinbase then Wei(usedGas, m.gasPrice) else 0) - (if a == m.from then Wei(usedGas, m.gasPrice) else 0)
  }

  lemma FeeMoves(evm: Evm, m: Message, w: World, r: Rules, a: Address)
    requires NeverMakesGas(evm) && Fee(m) <= Balance(w, m.from) && Intrinsic(m, r) <= m.gas && LeavesAlone(evm, a)
    ensures Balance(WorldAfter(evm, m, w, r), a) == Balance(w, a) + NetFee(m, GasOf(evm, m, w, r), r.coinbase, a)
  {
    hide Used, Paid, Intrinsic, Handed;
    var o := Executed(evm, m, w, r);
    var used := Used(m, o);
    HandedIs(m, w, a);
    PaidSettles(m, o, r);
    WeiSplit(m.gas - used, used, m.gasPrice);
  }

  class StateDB {
    var world: World
    var refund: Uint64

    constructor (world: World)
      ensures this.world == world && this.refund == 0
    {
      this.world, this.refund := world, 0;
    }
  }

  datatype Execution = Execution(usedGas: Uint64, failed: bool)

  class StateTransition {
    const gp: GasPool
    const msg: Message
    const state: StateDB
    const evm: Evm
    const rules: Rules
    var gas: Uint64
    var initialGas: Uint64

    constructor (gp: GasPool, msg: Message, state: StateDB, evm: Evm, rules: Rules)
      ensures this.gp == gp && this.msg == msg && this.state == state && this.evm == evm && this.rules == rules
      ensures gas == 0 && initialGas == 0
    {
      this.gp, this.msg, this.state, this.evm, this.rules := gp, msg, state, evm, rules;
      gas, initialGas := 0, 0;
    }

    method BuyGas() returns (r: Result<()>)
      requires gas == 0
      modifies this, gp, state
      ensures Fee(msg) > Balance(old(state.world), msg.from) ==> r == Err(InsufficientFunds)
      ensures Fee(msg) <= Balance(old(state.world), msg.from) && old(gp.gas) < msg.gas ==> r == Err(GasLimitReached)
      ensures Fee(msg) <= Balance(old(state.world), msg.from) && old(gp.gas) >= msg.gas ==> r == Ok(())
      ensures r.Err? ==> state.world == old(state.world) && gp.gas == old(gp.gas)
      ensures r.Ok? ==> state.world == Bought(msg, old(state.world)) && gp.gas == old(gp.gas) - msg.gas
      ensures r.Ok? ==> gas == msg.gas == initialGas
    {
      var mgval := Wei(msg.gas, msg.gasPrice);
      if Balance(state.world, msg.from) < mgval {
        return Err(InsufficientFunds);
      }
      var ok := gp.SubGas(msg.gas);
      if !ok {
        return Err(GasLimitReached);
      }
      gas := gas + msg.gas;
      initialGas := msg.gas;
      state.world := SubBalance(state.world, msg.from, mgval);
      return Ok(());
    }

    method PreCheck() returns (r: Result<()>)
      requires gas == 0
      modifies this, gp, state
      ensures var e := Broken(msg, old(state.world), old(gp.gas), rules);
        r == if e.Some? && BeforePurchase(e.value) then Err(e.value) else Ok(())
      ensures r.Err? ==> state.world == old(state.world) && gp.gas == old(gp.gas)
      ensures r.Ok? ==> Fee(msg) <= Balance(old(state.world), msg.from) && msg.gas <= old(gp.gas)
      ensures r.Ok? ==> state.world == Bought(msg, old(state.world)) && gp.gas == old(gp.gas) - msg.gas
      ensures r.Ok? ==> gas == msg.gas == initialGas
    {
      if msg.checkNonce {
        var stNonce := Nonce(state.world, msg.from);
        if stNonce < msg.nonce {
          return Err(NonceTooHigh);
        } else if stNonce > msg.nonce {
          return Err(NonceTooLow);
        }
      }
      r := BuyGas();
    }

    function GasUsed(): (g: nat)
      requires gas <= initialGas
      reads this
    {
      initialGas - gas
    }

    /** Returns the refund and the remaining gas to the sender and the remaining gas to the pool, which
        has room for it because it was taken from there. */
    method RefundGas()
      requires gas <= initialGas && gp.gas + initialGas <= MAX_UINT64
      modifies `gas, gp, state
      ensures gas == old(gas) + if old(GasUsed()) / 2 > old(state.refund) then old(state.refund) else old(GasUsed()) / 2
      ensures gas <= initialGas
      ensures state.world == AddBalance(old(state.world), msg.from, Wei(gas, msg.gasPrice))
      ensures state.refund == old(state.refund)
      ensures gp.gas == old(gp.gas) + gas
    {
      var refund := GasUsed() / 2;
      if refund > state.refund {
        refund := state.refund;
      }
      gas := gas + refund;
      var remaining := Wei(gas, msg.gasPrice);
      state.world := AddBalance(state.world, msg.from, remaining);
      gp.AddGas(gas);
    }

    /** The checks that follow the purchase: intrinsic gas is charged and the transfer must be covered. */
    method ChargeIntrinsic(ghost w: World, ghost pool: nat) returns (r: Result<()>)
      requires |msg.data| < TWO_64 && gas == msg.gas && Fee(msg) <= Balance(w, msg.from)
      requires state.world == Bought(msg, w)
      requires Broken(msg, w, pool, rules).Some? ==> !BeforePurchase(Broken(msg, w, pool, rules).value)
      modifies `gas
      ensures var e := Broken(msg, w, pool, rules);
        if e.Some? then r == Err(e.value) else r.Ok?
      ensures r.Ok? ==> Intrinsic(msg, rules) <= msg.gas && gas == msg.gas - Intrinsic(msg, rules)
    {
      assert Balance(state.world, msg.from) == Balance(w, msg.from) - Fee(msg);
      var intrinsic := IntrinsicGas(msg.data, msg.to.None?, rules.homestead, rules.istanbul);
      hide Wei, IntrinsicCost, Bought;
      if intrinsic.Err? {
        return Err(intrinsic.error);
      }
      if gas < intrinsic.value {
        return Err(IntrinsicGasTooLow);
      }
      gas := gas - intrinsic.value;
      if msg.value > 0 && Balance(state.world, msg.from) < msg.value {
        return Err(InsufficientFundsForTransfer);
      }
      return Ok(());
    }

    /** Running the EVM on what is left and settling the account. */
    method Execute(ghost w: World) returns (x: Execution)
      requires NeverMakesGas(evm) && Fee(msg) <= Balance(w, msg.from)
      requires state.world == Bought(msg, w) && initialGas == msg.gas && gp.gas + msg.gas <= MAX_UINT64
      requires Intrinsic(msg, rules) <= msg.gas && gas == msg.gas - Intrinsic(msg, rules)
      modifies this, gp, state
      ensures var o := Executed(evm, msg, w, rules);
        && x == Execution(Used(msg, o), o.failed)
        && state.world == Paid(msg, o, rules)
        && gp.gas == old(gp.gas) + msg.gas - x.usedGas
        && Intrinsic(msg, rules) <= 2 * x.usedGas <= 2 * msg.gas
    {
      hide Wei, Intrinsic, AddBalance, Bought, Balance, Add64, Nonce, Fee;
      if msg.to.Some? {
        state.world := state.world.(nonces := state.world.nonces[msg.from := Add64(Nonce(state.world, msg.from), 1)]);
      }
      assert state.world == Handed(msg, w);
      var o := evm(state.world, msg, gas);
      state.world, state.refund, gas := o.world, o.refund, o.gasLeft;
      RefundGas();
      state.world := AddBalance(state.world, rules.coinbase, Wei(GasUsed(), msg.gasPrice));
      return Execution(GasUsed(), o.failed);
    }

    /** TransitionDb: a message is applied iff it breaks no rule. Then the pool is down by exactly the gas
        used, which is at least half of what was spent, and all wei but what the EVM call itself moved is
        accounted for. A rule found broken after the purchase leaves the purchase standing. */
    method TransitionDb() returns (r: Result<Execution>)
      requires gas == 0 && NeverMakesGas(evm) && |msg.data| < TWO_64
      modifies this, gp, state
      ensures var e := Broken(msg, old(state.world), old(gp.gas), rules);
        if e.Some? then r == Err(e.value) else r.Ok?
      ensures r.Err? && BeforePurchase(r.error) ==> state.world == old(state.world) && gp.gas == old(gp.gas)
      ensures r.Err? && !BeforePurchase(r.error) ==>
        state.world == Bought(msg, old(state.world)) && gp.gas == old(gp.gas) - msg.gas
      ensures r.Ok? ==>
        var o := Executed(evm, msg, old(state.world), rules);
        && r.value == Execution(Used(msg, o), o.failed)
        && state.world == Paid(msg, o, rules)
        && gp.gas == old(gp.gas) - r.value.usedGas
        && Intrinsic(msg, rules) <= 2 * r.value.usedGas <= 2 * msg.gas
        && Settled(msg, o.world, rules.coinbase, r.value.usedGas, state.world)
        && msg.gas - o.gasLeft - r.value.usedGas == Min(o.refund, (msg.gas - o.gasLeft) / 2)
    {
      ghost var w, pool := state.world, gp.gas;
      var pre := PreCheck();
      if pre.Err? {
        return Err(pre.error);
      }
      var rest := ChargeIntrinsic(w, pool);
      if rest.Err? {
        return Err(rest.error);
      }
      var x := Execute(w);
      PaidSettles(msg, Executed(evm, msg, w, rules), rules);
      UsedIs(msg, Executed(evm, msg, w, rules));
      return Ok(x);
    }
  }

  datatype Receipt = Receipt(cumulative: Uint64, gasUsed: Uint64, failed: bool)

  function SumGas(rs: seq<Receipt>): (g: nat) {
    if rs == [] then 0 else SumGas(rs[..|rs|-1]) + rs[|rs|-1].gasUsed
  }

  lemma SumGasStep(rs: seq<Receipt>, r: Receipt)
    ensures SumGas(rs + [r]) == SumGas(rs) + r.gasUsed
  {
    assert (rs + [r])[..|rs + [r]| - 1] == rs;
  }

  /** The gas an applicable message uses, the world it leaves, and what its EVM call does to the total of all wei. */
  ghost function GasOf(evm: Evm, m: Message, w: World, r: Rules): (g: nat)
    requires NeverMakesGas(evm) && Fee(m) <= Balance(w, m.from) && Intrinsic(m, r) <= m.gas
  {
    Used(m, Executed(evm, m, w, r))
  }

  ghost function WorldAfter(evm: Evm, m: Message, w: World, r: Rules): (v: World)
    requires NeverMakesGas(evm) && Fee(m) <= Balance(w, m.from) && Intrinsic(m, r) <= m.gas
  {
    Paid(m, Executed(evm, m, w, r), r)
  }

  ghost function CallChange(evm: Evm, m: Message, w: World, r: Rules): (d: int)
    requires Fee(m) <= Balance(w, m.from) && Intrinsic(m, r) <= m.gas
  {
    Total(Executed(evm, m, w, r).world.balances) - Total(Handed(m, w).balances)
  }

  /** Every message of the list breaks no rule when its turn comes. */
  ghost predicate Applicable(evm: Evm, w: World, pool: nat, msgs: seq<Message>, r: Rules)
    requires NeverMakesGas(evm)
    decreases |msgs|
  {
    msgs == [] || (
      && Broken(msgs[0], w, pool, r) == None
      && Applicable(evm, WorldAfter(evm, msgs[0], w, r), pool - GasOf(evm, msgs[0], w, r), msgs[1..], r))
  }

  /** By how much the EVM calls of an applicable list themselves change the total of all wei. */
  ghost function EvmChange(evm: Evm, w: World, pool: nat, msgs: seq<Message>, r: Rules): (d: int)
    requires NeverMakesGas(evm) && Applicable(evm, w, pool, msgs, r)
    decreases |msgs|
  {
    if msgs == [] then 0
    else
      CallChange(evm, msgs[0], w, r)
      + EvmChange(evm, WorldAfter(evm, msgs[0], w, r), pool - GasOf(evm, msgs[0], w, r), msgs[1..], r)
  }

  datatype Use = Use(gas: nat, failed: bool)

  ghost function UseOf(evm: Evm, m: Message, w: World, r: Rules): (u: Use)
    requires NeverMakesGas(evm) && Fee(m) <= Balance(w, m.from) && Intrinsic(m, r) <= m.gas
  {
    Use(GasOf(evm, m, w, r), Executed(evm, m, w, r).failed)
  }

  /** What becomes of a block: the first error, or the world left and what each message used and whether it failed. */
  datatype BlockResult = Refused(error: TxError) | Done(world: World, uses: seq<Use>)

  ghost function BlockRun(evm: Evm, w: World, pool: nat, msgs: seq<Message>, r: Rules): (b: BlockResult)
    requires NeverMakesGas(evm)
    decreases |msgs|
  {
    if msgs == [] then Done(w, [])
    else
      var e := Broken(msgs[0], w, pool, r);
      if e.Some? then Refused(e.value)
      else
        var u := UseOf(evm, msgs[0], w, r);
        After([u], BlockRun(evm, WorldAfter(evm, msgs[0], w, r), pool - u.gas, msgs[1..], r))
  }

  function After(us: seq<Use>, b: BlockResult): (r: BlockResult) {
    if b.Refused? then b else b.(uses := us + b.uses)
  }

  function UsesIn(rs: seq<Receipt>): (us: seq<Use>) {
    seq(|rs|, i requires 0 <= i < |rs| => Use(rs[i].gasUsed, rs[i].failed))
  }

  lemma AfterStep(rs: seq<Receipt>, x: Receipt, b: BlockResult)
    ensures After(UsesIn(rs), After([Use(x.gasUsed, x.failed)], b)) == After(UsesIn(rs + [x]), b)
  {
    assert UsesIn(rs + [x]) == UsesIn(rs) + [Use(x.gasUsed, x.failed)];
    assert b.Done? ==> UsesIn(rs) + ([Use(x.gasUsed, x.failed)] + b.uses) == UsesIn(rs + [x]) + b.uses;
  }

  /** After `i` messages the rest decides what becomes of the block. */
  ghost predicate OnTheWay(evm: Evm, w0: World, limit: nat, msgs: seq<Message>, i: nat, w: World, pool: nat,
                           rs: seq<Receipt>, r: Rules)
    requires NeverMakesGas(evm) && i <= |msgs|
  {
    BlockRun(evm, w0, limit, msgs, r) == After(UsesIn(rs), BlockRun(evm, w, pool, msgs[i..], r))
  }

  lemma OnTheWayStart(evm: Evm, w: World, limit: nat, msgs: seq<Message>, r: Rules)
    requires NeverMakesGas(evm)
    ensures OnTheWay(evm, w, limit, msgs, 0, w, limit, [], r)
  {
    assert msgs[0..] == msgs;
    var b := BlockRun(evm, w, limit, msgs, r);
    assert b.Done? ==> [] + b.uses == b.uses;
  }

  lemma OnTheWayStops(evm: Evm, w0: World, limit: nat, msgs: seq<Message>, i: nat, w: World, pool: nat,
                      rs: seq<Receipt>, r: Rules)
    requires NeverMakesGas(evm) && i < |msgs| && OnTheWay(evm, w0, limit, msgs, i, w, pool, rs, r)
    ensures Broken(msgs[i], w, pool, r).Some? ==>
      BlockRun(evm, w0, limit, msgs, r) == Refused(Broken(msgs[i], w, pool, r).value)
  {
    hide Broken;
  }

  lemma OnTheWayStep(evm: Evm, w0: World, limit: nat, msgs: seq<Message>, i: nat, w: World, pool: nat,
                     rs: seq<Receipt>, x: Receipt, r: Rules)
    requires NeverMakesGas(evm) && i < |msgs| && OnTheWay(evm, w0, limit, msgs, i, w, pool, rs, r)
    requires Broken(msgs[i], w, pool, r) == None && Use(x.gasUsed, x.failed) == UseOf(evm, msgs[i], w, r)
    requires x.gasUsed <= pool
    ensures OnTheWay(evm, w0, limit, msgs, i + 1, WorldAfter(evm, msgs[i], w, r), pool - x.gasUsed, rs + [x], r)
  {
    assert msgs[i..][1..] == msgs[i+1..];
    hide UseOf, WorldAfter, After, UsesIn;
    AfterStep(rs, x, BlockRun(evm, WorldAfter(evm, msgs[i], w, r), pool - x.gasUsed, msgs[i+1..], r));
  }

  lemma OnTheWayEnd(evm: Evm, w0: World, limit: nat, msgs: seq<Message>, w: World, pool: nat, rs: seq<Receipt>,
                    r: Rules)
    requires NeverMakesGas(evm) && OnTheWay(evm, w0, limit, msgs, |msgs|, w, pool, rs, r)
    ensures BlockRun(evm, w0, limit, msgs, r) == Done(w, UsesIn(rs))
  {
    assert UsesIn(rs) + [] == UsesIn(rs);
  }

  lemma ApplicableStep(evm: Evm, w: World, pool: nat, msgs: seq<Message>, i: nat, r: Rules)
    requires NeverMakesGas(evm) && i < |msgs|
    ensures Applicable(evm, w, pool, msgs[i..], r) ==> Broken(msgs[i], w, pool, r) == None
    ensures Broken(msgs[i], w, pool, r) == None ==>
      var v, g := WorldAfter(evm, msgs[i], w, r), GasOf(evm, msgs[i], w, r);
      && g <= pool
      && (Applicable(evm, w, pool, msgs[i..], r) <==> Applicable(evm, v, pool - g, msgs[i+1..], r))
      && (Applicable(evm, w, pool, msgs[i..], r) ==>
            EvmChange(evm, w, pool, msgs[i..], r)
            == CallChange(evm, msgs[i], w, r) + EvmChange(evm, v, pool - g, msgs[i+1..], r))
  {
    assert msgs[i..][1..] == msgs[i+1..];
  }

  /** Where a block stands after its first `i` messages, with world `w` and `pool` gas left: whether the
      whole list is applicable, and what its calls change, is down to the messages to come. */
  ghost predicate Halfway(evm: Evm, w0: World, limit: nat, msgs: seq<Message>, i: nat, w: World, pool: nat, r: Rules)
    requires NeverMakesGas(evm) && i <= |msgs|
  {
    && (Applicable(evm, w0, limit, msgs, r) <==> Applicable(evm, w, pool, msgs[i..], r))
    && (Applicable(evm, w0, limit, msgs, r) ==>
          Total(w.balances) + EvmChange(evm, w, pool, msgs[i..], r)
          == Total(w0.balances) + EvmChange(evm, w0, limit, msgs, r))
  }

  lemma HalfwayStart(evm: Evm, w: World, limit: nat, msgs: seq<Message>, r: Rules)
    requires NeverMakesGas(evm)
    ensures Halfway(evm, w, limit, msgs, 0, w, limit, r)
  {
    assert msgs[0..] == msgs;
  }

  lemma HalfwayStep(evm: Evm, w0: World, limit: nat, msgs: seq<Message>, i: nat, w: World, pool: nat, r: Rules)
    requires NeverMakesGas(evm) && i < |msgs| && Halfway(evm, w0, limit, msgs, i, w, pool, r)
    ensures Broken(msgs[i], w, pool, r) != None ==> !Applicable(evm, w0, limit, msgs, r)
    ensures Broken(msgs[i], w, pool, r) == None ==>
      var v, g := WorldAfter(evm, msgs[i], w, r), GasOf(evm, msgs[i], w, r);
      && g <= pool
      && (Total(v.balances) == Total(w.balances) + CallChange(evm, msgs[i], w, r) ==>
            Halfway(evm, w0, limit, msgs, i + 1, v, pool - g, r))
  {
    ApplicableStep(evm, w, pool, msgs, i, r);
  }

  lemma HalfwayEnd(evm: Evm, w0: World, limit: nat, msgs: seq<Message>, w: World, pool: nat, r: Rules)
    requires NeverMakesGas(evm) && Halfway(evm, w0, limit, msgs, |msgs|, w, pool, r)
    ensures Applicable(evm, w0, limit, msgs, r)
    ensures Total(w.balances) - Total(w0.balances) == EvmChange(evm, w0, limit, msgs, r)
  {
  }

  /** Cumulative gas is the running sum. */
  ghost predicate Cumulative(rs: seq<Receipt>) {
    forall i {:trigger rs[i]} | 0 <= i < |rs| :: rs[i].cumulative == SumGas(rs[..i+1])
  }

  lemma CumulativeStep(rs: seq<Receipt>, r: Receipt)
    requires Cumulative(rs) && r.cumulative == SumGas(rs) + r.gasUsed
    ensures Cumulative(rs + [r])
  {
    SumGasStep(rs, r);
    var t := rs + [r];
    forall i | 0 <= i < |t|
      ensures t[i].cumulative == SumGas(t[..i+1])
    {
      if i < |rs| {
        assert t[..i+1] == rs[..i+1];
      } else {
        assert t[..i+1] == t;
      }
    }
  }

  /** The receipts so far account for all the gas taken from the pool. */
  ghost predicate Accounted(rs: seq<Receipt>, usedGas: nat, limit: nat, pool: nat) {
    Cumulative(rs) && usedGas == SumGas(rs) && usedGas + pool == limit
  }

  lemma AccountedStart(limit: nat)
    ensures Accounted([], 0, limit, limit)
  {
  }

  lemma LimitFits(limit: Uint64)
    ensures limit <= MAX_UINT64
  {
  }

  lemma AccountedStep(rs: seq<Receipt>, usedGas: nat, limit: nat, pool: nat, r: Receipt)
    requires Accounted(rs, usedGas, limit, pool) && r.cumulative == usedGas + r.gasUsed && r.gasUsed <= pool
    ensures Accounted(rs + [r], r.cumulative, limit, pool - r.gasUsed)
  {
    SumGasStep(rs, r);
    CumulativeStep(rs, r);
  }

  /** What the fees of a block do to an account: the sum over its receipts. */
  function NetFees(msgs: seq<Message>, rs: seq<Receipt>, coinbase: Address, a: Address): (d: int)
    requires |msgs| == |rs|
  {
    if msgs == [] then 0
    else
      var n := |msgs| - 1;
      NetFees(msgs[..n], rs[..n], coinbase, a) + NetFee(msgs[n], rs[n].gasUsed, coinbase, a)
  }

  lemma NetFeesStep(msgs: seq<Message>, rs: seq<Receipt>, i: nat, r: Receipt, coinbase: Address, a: Address)
    requires |rs| == i < |msgs|
    ensures NetFees(msgs[..i+1], rs + [r], coinbase, a)
         == NetFees(msgs[..i], rs, coinbase, a) + NetFee(msgs[i], r.gasUsed, coinbase, a)
  {
    assert msgs[..i+1][..i] == msgs[..i] && (rs + [r])[..i] == rs;
  }

  /** The balances that the EVM leaves alone have moved by the fees so far. */
  ghost predicate FeesOnly(evm: Evm, w0: World, w: World, msgs: seq<Message>, rs: seq<Receipt>, coinbase: Address)
    requires |msgs| == |rs|
  {
    forall a | LeavesAlone(evm, a) :: Balance(w, a) == Balance(w0, a) + NetFees(msgs, rs, coinbase, a)
  }

  lemma FeesOnlyStart(evm: Evm, w: World, msgs: seq<Message>, coinbase: Address)
    ensures FeesOnly(evm, w, w, msgs[..0], [], coinbase) && msgs[..|msgs|] == msgs
  {
  }

  lemma FeesOnlyStep(evm: Evm, w0: World, w: World, v: World, msgs: seq<Message>, rs: seq<Receipt>, i: nat, r: Receipt,
                     coinbase: Address)
    requires |rs| == i < |msgs| && FeesOnly(evm, w0, w, msgs[..i], rs, coinbase)
    requires forall a | LeavesAlone(evm, a) :: Balance(v, a) == Balance(w, a) + NetFee(msgs[i], r.gasUsed, coinbase, a)
    ensures FeesOnly(evm, w0, v, msgs[..i+1], rs + [r], coinbase)
  {
    hide NetFee, NetFees, Balance, LeavesAlone;
    forall a | LeavesAlone(evm, a)
      ensures Balance(v, a) == Balance(w0, a) + NetFees(msgs[..i+1], rs + [r], coinbase, a)
    {
      NetFeesStep(msgs, rs, i, r, coinbase, a);
    }
  }

  /** applyTransaction, as far as gas and wei go. */
  method ApplyTransaction(gp: GasPool, msg: Message, state: StateDB, evm: Evm, rules: Rules, usedGas: Uint64)
    returns (r: Result<Receipt>)
    requires NeverMakesGas(evm) && |msg.data| < TWO_64 && usedGas + gp.gas <= MAX_UINT64
    modifies gp, state
    ensures r.Ok? <==> Broken(msg, old(state.world), old(gp.gas), rules) == None
    ensures r.Err? ==> Broken(msg, old(state.world), old(gp.gas), rules) == Some(r.error)
    ensures r.Ok? ==>
      && Use(r.value.gasUsed, r.value.failed) == UseOf(evm, msg, old(state.world), rules)
      && r.value.gasUsed == GasOf(evm, msg, old(state.world), rules) <= old(gp.gas)
      && r.value.cumulative == usedGas + r.value.gasUsed
      && gp.gas == old(gp.gas) - r.value.gasUsed
      && state.world == WorldAfter(evm, msg, old(state.world), rules)
      && Total(state.world.balances) == Total(old(state.world.balances)) + CallChange(evm, msg, old(state.world), rules)
      && forall a | LeavesAlone(evm, a) :: Balance(state.world, a)
           == Balance(old(state.world), a) + NetFee(msg, r.value.gasUsed, rules.coinbase, a)
  {
    ghost var w := state.world;
    var st := new StateTransition(gp, msg, state, evm, rules);
    var x := st.TransitionDb();
    if x.Err? {
      return Err(x.error);
    }
    hide Total, Paid, Wei;
    WeiConserved(msg, w, Executed(evm, msg, w, rules), rules);
    forall a | LeavesAlone(evm, a)
      ensures Balance(state.world, a) == Balance(w, a) + NetFee(msg, x.value.usedGas, rules.coinbase, a)
    {
      FeeMoves(evm, msg, w, rules, a);
    }
    return Ok(Receipt(usedGas + x.value.usedGas, x.value.usedGas, x.value.failed));
  }

  /** Process: a block's messages are accepted iff each is applicable in turn. Then gas is conserved (what
      the receipts say was used is what the pool gave up, the block gas limit bounds it, and no counter
      overflows) and so is wei (the total changes only by what the EVM calls changed). */
  method Process(gasLimit: Uint64, msgs: seq<Message>, state: StateDB, evm: Evm, rules: Rules)
    returns (r: Result<seq<Receipt>>, usedGas: Uint64, gp: GasPool)
    requires NeverMakesGas(evm) && forall i | 0 <= i < |msgs| :: |msgs[i].data| < TWO_64
    modifies state
    ensures r.Ok? <==> Applicable(evm, old(state.world), gasLimit, msgs, rules)
    ensures BlockRun(evm, old(state.world), gasLimit, msgs, rules)
         == if r.Ok? then Done(state.world, UsesIn(r.value)) else Refused(r.error)
    ensures r.Ok? ==> |r.value| == |msgs| && Accounted(r.value, usedGas, gasLimit, gp.gas)
    ensures r.Ok? ==> Total(state.world.balances) - Total(old(state.world.balances))
                      == EvmChange(evm, old(state.world), gasLimit, msgs, rules)
    ensures r.Ok? ==> FeesOnly(evm, old(state.world), state.world, msgs, r.value, rules.coinbase)
  {
    hide *;
    gp := new GasPool(gasLimit);
    var receipts: seq<Receipt> := [];
    usedGas := 0;
    ghost var w0 := state.world;
    AccountedStart(gasLimit);
    LimitFits(gasLimit);
    HalfwayStart(evm, w0, gasLimit, msgs, rules);
    FeesOnlyStart(evm, w0, msgs, rules.coinbase);
    OnTheWayStart(evm, w0, gasLimit, msgs, rules);
    for i := 0 to |msgs|
      invariant fresh(gp) && |receipts| == i
      invariant usedGas + gp.gas == gasLimit && Accounted(receipts, usedGas, gasLimit, gp.gas)
      invariant Halfway(evm, w0, gasLimit, msgs, i, state.world, gp.gas, rules)
      invariant FeesOnly(evm, w0, state.world, msgs[..i], receipts, rules.coinbase)
      invariant OnTheWay(evm, w0, gasLimit, msgs, i, state.world, gp.gas, receipts, rules)
    {
      HalfwayStep(evm, w0, gasLimit, msgs, i, state.world, gp.gas, rules);
      OnTheWayStops(evm, w0, gasLimit, msgs, i, state.world, gp.gas, receipts, rules);
      ghost var w, pool := state.world, gp.gas;
      var x := ApplyTransaction(gp, msgs[i], state, evm, rules, usedGas);
      if x.Err? {
        return Err(x.error), 0, gp;
      }
      OnTheWayStep(evm, w0, gasLimit, msgs, i, w, pool, receipts, x.value, rules);
      FeesOnlyStep(evm, w0, w, state.world, msgs, receipts, i, x.value, rules.coinbase);
      AccountedStep(receipts, usedGas, gasLimit, gp.gas + x.value.gasUsed, x.value);
      usedGas := x.value.cumulative;
      receipts := receipts + [x.value];
    }
    HalfwayEnd(evm, w0, gasLimit, msgs, state.world, gp.gas, rules);
    OnTheWayEnd(evm, w0, gasLimit, msgs, state.world, gp.gas, receipts, rules);
    return Ok(receipts), usedGas, gp;
  }
}
