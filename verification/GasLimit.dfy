/** core/block_validator.go: the gas limit a miner gives the next block, and how it fares under the
    consensus rule that a limit moves by less than 1/1024 of its parent's and stays above a minimum. */
module GasLimits {
  import opened Common

  const TWO_63: int := 0x8000_0000_0000_0000

  const GAS_LIMIT_BOUND_DIVISOR: nat := 1024
  const MIN_GAS_LIMIT: nat := 5000

  /** CalcGasLimit, on 64-bit words throughout. */
  function CalcGasLimit(parentLimit: Uint64, parentUsed: Uint64, gasFloor: Uint64, gasCeil: Uint64): (limit: Uint64) {
    var contrib := Add64(parentUsed, parentUsed / 2) / GAS_LIMIT_BOUND_DIVISOR;
    var decay := Sub64(parentLimit / GAS_LIMIT_BOUND_DIVISOR, 1);
    var target := Add64(Sub64(parentLimit, decay), contrib);
    var limit: Uint64 := if target < MIN_GAS_LIMIT then MIN_GAS_LIMIT else target;
    if limit < gasFloor then
      var up := Add64(parentLimit, decay);
      if up > gasFloor then gasFloor else up
    else if limit > gasCeil then
      var down := Sub64(parentLimit, decay);
      if down < gasCeil then gasCeil else down
    else limit
  }

  /** The rule block verification applies (section 4.3.4 of the Yellow Paper). */
  predicate ValidStep(parentLimit: nat, limit: nat) {
    var diff := if parentLimit >= limit then parentLimit - limit else limit - parentLimit;
    diff < parentLimit / GAS_LIMIT_BOUND_DIVISOR && limit >= MIN_GAS_LIMIT
  }

  /** A parent that a chain can have: between one step's worth and the largest limit allowed, and
      using no more than its limit. */
  predicate Sane(parentLimit: nat, parentUsed: nat) {
    GAS_LIMIT_BOUND_DIVISOR <= parentLimit < TWO_63 && parentUsed <= parentLimit
  }

  /** The same computation without wrap-around. */
  function PlainLimit(parentLimit: nat, parentUsed: nat, gasFloor: nat, gasCeil: nat): (limit: int)
    requires Sane(parentLimit, parentUsed)
  {
    var decay := parentLimit / 1024 - 1;
    var target := parentLimit - decay + (parentUsed + parentUsed / 2) / 1024;
    var limit := if target < MIN_GAS_LIMIT then MIN_GAS_LIMIT else target;
    if limit < gasFloor then
      if parentLimit + decay > gasFloor then gasFloor else parentLimit + decay
    else if limit > gasCeil then
      if parentLimit - decay < gasCeil then gasCeil else parentLimit - decay
    else limit
  }

  /** For a parent that a chain can have nothing wraps around. */
  lemma NothingWraps(parentLimit: Uint64, parentUsed: Uint64, gasFloor: Uint64, gasCeil: Uint64)
    requires Sane(parentLimit, parentUsed)
    ensures CalcGasLimit(parentLimit, parentUsed, gasFloor, gasCeil)
         == PlainLimit(parentLimit, parentUsed, gasFloor, gasCeil)
  {
    var decay := parentLimit / 1024 - 1;
    var contrib := (parentUsed + parentUsed / 2) / 1024;
    assert 0 <= decay < parentLimit && contrib <= parentLimit;
    assert Sub64(parentLimit / 1024, 1) == decay;
    assert Add64(parentUsed, parentUsed / 2) == parentUsed + parentUsed / 2;
    assert Sub64(parentLimit, decay) == parentLimit - decay;
    assert Add64(parentLimit - decay, contrib) == parentLimit - decay + contrib;
    assert Add64(parentLimit, decay) == parentLimit + decay;
  }

  /** The exact parents whose computed child limit block verification refuses: one so close to the
      minimum that a ceiling below it pulls the child under, or a full one below 5120 that the bounds
      leave free to grow by a whole 1/1024. */
  predicate Refused(parentLimit: nat, parentUsed: nat, gasFloor: nat, gasCeil: nat) {
    || (gasCeil < MIN_GAS_LIMIT && parentLimit < 5003)
    || (parentLimit < 5120 && parentUsed >= 4779 && gasFloor <= parentLimit + 4 <= gasCeil)
  }

  lemma StepExact(parentLimit: Uint64, parentUsed: Uint64, gasFloor: Uint64, gasCeil: Uint64)
    requires Sane(parentLimit, parentUsed) && parentLimit >= MIN_GAS_LIMIT && gasFloor <= gasCeil
    ensures ValidStep(parentLimit, CalcGasLimit(parentLimit, parentUsed, gasFloor, gasCeil))
            <==> !Refused(parentLimit, parentUsed, gasFloor, gasCeil)
  {
    NothingWraps(parentLimit, parentUsed, gasFloor, gasCeil);
    var q := parentLimit / 1024;
    var contrib := (parentUsed + parentUsed / 2) / 1024;
    assert contrib <= q + q / 2 + 2;
    if parentLimit < 5120 {
      assert q == 4 && contrib <= 7 && (contrib == 7 <==> parentUsed >= 4779);
    } else {
      assert contrib - (q - 1) < q;
    }
  }

  /** 5120 is the exact threshold: from there on every step is valid, whatever the usage and the
      bounds, and below it some usage and bounds give an invalid one. */
  lemma Threshold(parentLimit: Uint64)
    requires MIN_GAS_LIMIT <= parentLimit < TWO_63
    ensures parentLimit >= 5120 <==>
      forall used: Uint64, floor: Uint64, ceil: Uint64 | used <= parentLimit && floor <= ceil ::
        ValidStep(parentLimit, CalcGasLimit(parentLimit, used, floor, ceil))
  {
    if parentLimit >= 5120 {
      forall used: Uint64, floor: Uint64, ceil: Uint64 | used <= parentLimit && floor <= ceil
        ensures ValidStep(parentLimit, CalcGasLimit(parentLimit, used, floor, ceil))
      {
        StepExact(parentLimit, used, floor, ceil);
      }
    } else {
      var ceil: Uint64 := parentLimit + 4;
      StepExact(parentLimit, parentLimit, 0, ceil);
      assert !ValidStep(parentLimit, CalcGasLimit(parentLimit, parentLimit, 0, ceil));
    }
  }

  predicate InRange(limit: nat, gasFloor: nat, gasCeil: nat) {
    gasFloor <= limit <= gasCeil
  }

  /** How far a limit is from the range. */
  function Distance(limit: nat, gasFloor: nat, gasCeil: nat): (d: nat)
    ensures gasFloor <= gasCeil ==> (d == 0 <==> InRange(limit, gasFloor, gasCeil))
  {
    if limit < gasFloor then gasFloor - limit
    else if limit > gasCeil then limit - gasCeil
    else 0
  }

  /** One step: a limit in range stays there, and one outside comes closer by the whole decay, up
      to the range, without falling below itself or the ceiling while it is still outside. */
  lemma StepCloser(limit: Uint64, used: Uint64, gasFloor: Uint64, gasCeil: Uint64)
    requires Sane(limit, used) && gasFloor <= gasCeil
    ensures var r := CalcGasLimit(limit, used, gasFloor, gasCeil);
      var decay, d := limit / 1024 - 1, Distance(limit, gasFloor, gasCeil);
      && Distance(r, gasFloor, gasCeil) <= (if d <= decay then 0 else d - decay)
      && (!InRange(r, gasFloor, gasCeil) ==> r >= limit || r >= gasCeil)
      && (r >= limit || r >= gasCeil || r >= MIN_GAS_LIMIT)
      && (r <= limit || r <= gasCeil)
  {
    NothingWraps(limit, used, gasFloor, gasCeil);
  }

  /** The limit after a sequence of blocks with the given gas used. */
  function Evolve(limit: Uint64, useds: seq<Uint64>, gasFloor: Uint64, gasCeil: Uint64): (r: Uint64)
    decreases |useds|
  {
    if useds == [] then limit
    else Evolve(CalcGasLimit(limit, useds[0], gasFloor, gasCeil), useds[1..], gasFloor, gasCeil)
  }

  /** No block of the sequence uses more gas than its own limit. */
  predicate WithinLimits(limit: Uint64, useds: seq<Uint64>, gasFloor: Uint64, gasCeil: Uint64)
    decreases |useds|
  {
    useds == [] || (useds[0] <= limit &&
      WithinLimits(CalcGasLimit(limit, useds[0], gasFloor, gasCeil), useds[1..], gasFloor, gasCeil))
  }

  /** Over any sequence of blocks, full or empty, the limit comes closer to the range by at least `d`
      with every block until it is inside, and then stays inside, where `d` is what one block's decay
      is worth at the lower of the starting limit and the ceiling. */
  lemma {:induction false} Converges(limit: Uint64, useds: seq<Uint64>, gasFloor: Uint64, gasCeil: Uint64, d: nat)
    requires WithinLimits(limit, useds, gasFloor, gasCeil)
    requires 0 < d && 1024 * (d + 1) <= gasCeil < TWO_63 && gasFloor <= gasCeil
    requires 1024 <= limit < TWO_63
    requires InRange(limit, gasFloor, gasCeil) || 1024 * (d + 1) <= limit
    ensures var left := Distance(limit, gasFloor, gasCeil) - |useds| * d;
      Distance(Evolve(limit, useds, gasFloor, gasCeil), gasFloor, gasCeil) <= if left <= 0 then 0 else left
    ensures |useds| * d >= Distance(limit, gasFloor, gasCeil) ==>
      InRange(Evolve(limit, useds, gasFloor, gasCeil), gasFloor, gasCeil)
    decreases |useds|
  {
    hide CalcGasLimit, Distance;
    if useds != [] {
      var next := CalcGasLimit(limit, useds[0], gasFloor, gasCeil);
      StepCloser(limit, useds[0], gasFloor, gasCeil);
      assert 1024 * (d + 1) <= limit ==> limit / 1024 >= d + 1;
      Converges(next, useds[1..], gasFloor, gasCeil, d);
      assert |useds| * d == |useds[1..]| * d + d;
    }
  }

  /** Once the chain is at 5120 or above, with a floor and a ceiling no lower, every step passes verification. */
  lemma {:induction false} EveryStepValid(limit: Uint64, useds: seq<Uint64>, gasFloor: Uint64, gasCeil: Uint64, k: nat)
    requires WithinLimits(limit, useds, gasFloor, gasCeil) && k < |useds|
    requires 5120 <= limit < TWO_63 && gasFloor <= gasCeil && 5120 <= gasCeil < TWO_63 && gasFloor >= 5120
    ensures ValidStep(Evolve(limit, useds[..k], gasFloor, gasCeil), Evolve(limit, useds[..k+1], gasFloor, gasCeil))
    decreases k
  {
    StepCloser(limit, useds[0], gasFloor, gasCeil);
    if k == 0 {
      StepExact(limit, useds[0], gasFloor, gasCeil);
      assert useds[..1] == [useds[0]] && useds[..0] == [];
    } else {
      EveryStepValid(CalcGasLimit(limit, useds[0], gasFloor, gasCeil), useds[1..], gasFloor, gasCeil, k - 1);
      assert useds[..k][1..] == useds[1..][..k-1] && useds[..k+1][1..] == useds[1..][..k];
    }
  }

  /** Within the range from floor to ceiling the limit rises exactly when one and a half times the gas used comes to as
      many 1024ths as the limit, falls exactly when it comes to at least two fewer, and moves by the difference unless
      an end of the range is in the way. */
  lemma MovesWithUse(limit: Uint64, used: Uint64, floor: Uint64, ceil: Uint64)
    requires 5120 <= limit < TWO_63 && used <= limit && floor <= limit <= ceil
    ensures var r, step := CalcGasLimit(limit, used, floor, ceil), (used + used / 2) / 1024 - (limit / 1024 - 1);
      && (r > limit <==> step > 0 && limit < ceil)
      && (r < limit <==> step < 0 && limit > floor)
      && r == (if limit + step < floor then floor else if limit + step > ceil then ceil else limit + step)
  {
    NothingWraps(limit, used, floor, ceil);
    assert limit / 1024 - 1 <= limit / 1024;
    hide CalcGasLimit;
  }

  /** A full block raises it, an empty one lowers it. */
  lemma FullAndEmpty(limit: Uint64, floor: Uint64, ceil: Uint64)
    requires 5120 <= limit < TWO_63 && floor <= limit <= ceil
    ensures limit < ceil ==> CalcGasLimit(limit, limit, floor, ceil) > limit
    ensures limit > floor ==> CalcGasLimit(limit, 0, floor, ceil) < limit
  {
    hide CalcGasLimit;
    MovesWithUse(limit, limit, floor, ceil);
    MovesWithUse(limit, 0, floor, ceil);
  }
}
