/** core/tx_noncer.go: virtual nonces on top of the state's. Reading an unknown account copies the state's nonce
    into the table, which changes no answer. */
module TxNoncers {
  import opened Common

  class TxNoncer {
    const fallback: Address -> Uint64
    var nonces: map<Address, Uint64>

    /** The nonce the table stands for. */
    function View(a: Address): (r: Uint64)
      reads this
    {
      if a in nonces then nonces[a] else fallback(a)
    }

    /** All virtual nonces, as they are now. */
    ghost function Views(): (r: Address -> Uint64)
      reads this
      ensures forall a :: r(a) == View(a)
    {
      var known, otherwise := nonces, fallback;
      (a: Address) => if a in known then known[a] else otherwise(a)
    }

    constructor (fallback: Address -> Uint64)
      ensures forall a :: View(a) == fallback(a)
    {
      this.fallback, nonces := fallback, map[];
    }

    method Get(a: Address) returns (nonce: Uint64)
      modifies this
      ensures nonce == View(a) && forall b :: View(b) == old(View(b))
    {
      if a !in nonces {
        nonces := nonces[a := fallback(a)];
      }
      nonce := nonces[a];
    }

    method Set(a: Address, nonce: Uint64)
      modifies this
      ensures forall b :: View(b) == if b == a then nonce else old(View(b))
    {
      nonces := nonces[a := nonce];
    }

    method SetIfLower(a: Address, nonce: Uint64)
      modifies this
      ensures forall b :: View(b) == if b == a && nonce < old(View(a)) then nonce else old(View(b))
    {
      if a !in nonces {
        nonces := nonces[a := fallback(a)];
      }
      if nonces[a] <= nonce {
        return;
      }
      nonces := nonces[a := nonce];
    }
  }
}
