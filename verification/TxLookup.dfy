/** core/tx_pool.go: the lookup of all pooled transactions, local and remote, and the data slots they take. */
module TxLookups {
  import opened Common
  import opened Transactions

  const TX_SLOT_SIZE: nat := 32 * 1024

  function NumSlots(tx: Tx): (r: Positive) {
    (tx.size + TX_SLOT_SIZE - 1) / TX_SLOT_SIZE
  }

  ghost function SlotSum(s: set<Tx>): (r: nat)
    decreases |s|
  {
    if s == {} then 0 else var tx :| tx in s; NumSlots(tx) + SlotSum(s - {tx})
  }

  lemma {:induction false} SlotSumWithout(s: set<Tx>, tx: Tx)
    requires tx in s
    ensures SlotSum(s) == NumSlots(tx) + SlotSum(s - {tx})
    decreases |s|
  {
    var x :| x in s && SlotSum(s) == NumSlots(x) + SlotSum(s - {x});
    if x != tx {
      SlotSumWithout(s - {x}, tx);
      SlotSumWithout(s - {tx}, x);
      assert s - {x} - {tx} == s - {tx} - {x};
    }
  }

  /** A transaction takes a slot at least. */
  lemma {:induction false} SlotsCount(s: set<Tx>)
    ensures |s| <= SlotSum(s)
    decreases |s|
  {
    if s != {} {
      var tx :| tx in s;
      SlotSumWithout(s, tx);
      SlotsCount(s - {tx});
    }
  }

  function OfSenders(s: set<Tx>, accounts: set<Address>): (r: set<Tx>) {
    set tx | tx in s && tx.sender in accounts
  }

  class TxLookup {
    var slots: int
    var locals: set<Tx>
    var remotes: set<Tx>

    /** No transaction is both local and remote, and the slot counter is the sum over all transactions. */
    ghost predicate Valid()
      reads this
    {
      locals !! remotes && slots == SlotSum(Txs())
    }

    function Txs(): (r: set<Tx>)
      reads this
      ensures locals <= r && remotes <= r
    {
      locals + remotes
    }

    constructor ()
      ensures Valid() && locals == {} && remotes == {}
    {
      slots, locals, remotes := 0, {}, {};
    }

    method Get(tx: Tx) returns (found: bool)
      ensures found == (tx in Txs())
    {
      found := tx in locals || tx in remotes;
    }

    method Count() returns (n: nat)
      requires Valid()
      ensures n == |Txs()|
    {
      n := |locals| + |remotes|;
    }

    method Add(tx: Tx, local: bool)
      requires Valid() && tx !in Txs()
      modifies this
      ensures Valid() && Txs() == old(Txs()) + {tx}
      ensures locals == if local then old(locals) + {tx} else old(locals)
      ensures remotes == if local then old(remotes) else old(remotes) + {tx}
    {
      slots := slots + NumSlots(tx);
      if local {
        locals := locals + {tx};
      } else {
        remotes := remotes + {tx};
      }
      assert Txs() == old(Txs()) + {tx};
      SlotSumWithout(Txs(), tx);
      assert Txs() - {tx} == old(Txs());
    }

    method Remove(tx: Tx)
      requires Valid()
      modifies this
      ensures Valid() && locals == old(locals) - {tx} && remotes == old(remotes) - {tx}
      ensures Txs() == old(Txs()) - {tx}
    {
      if tx !in locals && tx !in remotes {
        return;
      }
      SlotSumWithout(Txs(), tx);
      slots := slots - NumSlots(tx);
      locals := locals - {tx};
      remotes := remotes - {tx};
      assert Txs() == old(Txs()) - {tx};
    }

    /** Moves the remotes of the given accounts over to the locals. */
    method RemoteToLocals(accounts: set<Address>) returns (migrated: nat)
      requires Valid()
      modifies this
      ensures Valid() && Txs() == old(Txs())
      ensures remotes == old(remotes) - OfSenders(old(remotes), accounts)
      ensures migrated == |old(remotes)| - |remotes|
    {
      migrated := 0;
      var todo := remotes;
      while todo != {}
        invariant todo <= remotes <= old(remotes)
        invariant locals !! remotes && Txs() == old(Txs()) && slots == old(slots)
        invariant forall tx | tx in old(remotes) && tx !in todo :: tx in remotes <==> tx.sender !in accounts
        invariant migrated == |old(remotes)| - |remotes|
        decreases todo
      {
        var tx :| tx in todo;
        if tx.sender in accounts {
          locals := locals + {tx};
          remotes := remotes - {tx};
          migrated := migrated + 1;
        }
        todo := todo - {tx};
      }
      assert remotes == old(remotes) - OfSenders(old(remotes), accounts);
    }
  }
}
