/** core/tx_pool.go: the pending and queued lists of all accounts, and how they partition the pool. */
module PoolLists {
  import opened Common
  import opened Transactions
  import opened SortedMaps
  import opened TxLists
  import opened PoolAccounts

  type AccountLists = map<Address, Txs>

  function ListOf(lists: AccountLists, a: Address): (r: Txs) {
    if a in lists then lists[a] else map[]
  }

  /** An account whose list has become empty has no entry. */
  function SetList(lists: AccountLists, a: Address, l: Txs): (r: AccountLists) {
    if l == map[] then lists - {a} else lists[a := l]
  }

  lemma ListOfIn(lists: AccountLists, a: Address)
    ensures ListOf(lists, a) == if a in lists then lists[a] else map[]
  {
  }

  lemma ListOfSet(lists: AccountLists, a: Address, l: Txs, b: Address)
    ensures ListOf(SetList(lists, a, l), b) == if b == a then l else ListOf(lists, b)
  {
  }

  /** Each account's list is part of what it was. */
  ghost predicate Shrunk(after: AccountLists, lists: AccountLists) {
    forall a: Address {:trigger ListOf(after, a)} :: PartOf(ListOf(after, a), ListOf(lists, a))
  }

  lemma SameShrunk(lists: AccountLists)
    ensures Shrunk(lists, lists)
  {
  }

  lemma PartSize(r: Txs, m: Txs)
    requires PartOf(r, m)
    ensures |r| <= |m|
  {
    assert r.Keys <= m.Keys;
    SubsetSize(r.Keys, m.Keys);
  }

  ghost predicate NoEmpty(lists: AccountLists) {
    forall a | a in lists :: lists[a] != map[]
  }

  lemma NoEmptySet(lists: AccountLists, a: Address, l: Txs)
    requires NoEmpty(lists)
    ensures NoEmpty(SetList(lists, a, l))
  {
  }

  lemma SetSame(lists: AccountLists, a: Address)
    requires NoEmpty(lists)
    ensures SetList(lists, a, ListOf(lists, a)) == lists
  {
  }

  lemma SetSet(lists: AccountLists, a: Address, l: Txs, m: Txs)
    ensures SetList(SetList(lists, a, l), a, m) == SetList(lists, a, m)
  {
  }

  predicate Has(m: Txs, tx: Tx) {
    tx.nonce in m && m[tx.nonce] == tx
  }

  ghost predicate Owned(m: Txs, a: Address) {
    forall n | n in m :: m[n].nonce == n && m[n].sender == a
  }

  /** The account's pooled transactions are those of its two lists, each under its nonce in one of them. */
  ghost predicate AccountOk(a: Address, p: Txs, q: Txs, all: set<Tx>) {
    && Owned(p, a) && Owned(q, a)
    && p.Keys !! q.Keys
    && (forall tx: Tx | tx.sender == a :: tx in all <==> Has(p, tx) || Has(q, tx))
  }

  ghost predicate AccountIn(pending: AccountLists, queue: AccountLists, all: set<Tx>, a: Address) {
    AccountOk(a, ListOf(pending, a), ListOf(queue, a), all)
  }

  ghost predicate Partition(pending: AccountLists, queue: AccountLists, all: set<Tx>) {
    forall a: Address {:trigger AccountIn(pending, queue, all, a)} :: AccountIn(pending, queue, all, a)
  }

  /** The two pools agree but for the transactions of one account. */
  ghost predicate SameOthers(all: set<Tx>, after: set<Tx>, a: Address) {
    forall tx: Tx | tx.sender != a :: tx in after <==> tx in all
  }

  lemma PartitionAt(pending: AccountLists, queue: AccountLists, all: set<Tx>, a: Address)
    requires Partition(pending, queue, all)
    ensures AccountOk(a, ListOf(pending, a), ListOf(queue, a), all)
  {
    assert AccountIn(pending, queue, all, a);
  }

  /** A change to one account keeps the partition if it does at that account. */
  lemma PartitionStep(pending: AccountLists, queue: AccountLists, all: set<Tx>, a: Address, p: Txs, q: Txs,
                      after: set<Tx>)
    requires Partition(pending, queue, all) && AccountOk(a, p, q, after) && SameOthers(all, after, a)
    ensures Partition(SetList(pending, a, p), SetList(queue, a, q), after)
  {
    forall b: Address
      ensures AccountIn(SetList(pending, a, p), SetList(queue, a, q), after, b)
    {
      ListOfSet(pending, a, p, b);
      ListOfSet(queue, a, q, b);
      assert AccountIn(pending, queue, all, b);
    }
  }

  lemma InTxSet(m: Txs, a: Address, tx: Tx)
    requires Owned(m, a)
    ensures tx in TxSet(m) <==> Has(m, tx)
  {
    if Has(m, tx) {
      assert m[tx.nonce] == tx;
    }
  }

  // ---- Steps at one account ----

  lemma AccountAdd(a: Address, p: Txs, q: Txs, all: set<Tx>, tx: Tx)
    requires AccountOk(a, p, q, all) && tx.sender == a && tx !in all
    requires tx.nonce !in p
    ensures AccountOk(a, p, q[tx.nonce := tx], (if tx.nonce in q then all - {q[tx.nonce]} else all) + {tx})
  {
  }

  lemma AccountReplace(a: Address, p: Txs, q: Txs, all: set<Tx>, tx: Tx)
    requires AccountOk(a, p, q, all) && tx.sender == a && tx !in all && tx.nonce in p
    ensures AccountOk(a, p[tx.nonce := tx], q, all - {p[tx.nonce]} + {tx})
  {
  }

  lemma AccountRemove(a: Address, p: Txs, q: Txs, all: set<Tx>, tx: Tx)
    requires AccountOk(a, p, q, all) && tx.sender == a && tx in all
    ensures AccountOk(a, LeftPending(p, tx.nonce), LeftQueued(p, q, tx.nonce), all - {tx})
  {
  }

  lemma AccountDropQueued(a: Address, p: Txs, q: Txs, all: set<Tx>, gone: Txs)
    requires AccountOk(a, p, q, all) && PartOf(gone, q)
    ensures AccountOk(a, p, Without(q, gone), all - TxSet(gone)) && SameOthers(all, all - TxSet(gone), a)
  {
    forall tx: Tx
      ensures tx in TxSet(gone) <==> Has(gone, tx)
    {
      InTxSet(gone, a, tx);
    }
  }

  lemma AccountDropPending(a: Address, p: Txs, q: Txs, all: set<Tx>, gone: Txs)
    requires AccountOk(a, p, q, all) && PartOf(gone, p)
    ensures AccountOk(a, Without(p, gone), q, all - TxSet(gone)) && SameOthers(all, all - TxSet(gone), a)
  {
    forall tx: Tx
      ensures tx in TxSet(gone) <==> Has(gone, tx)
    {
      InTxSet(gone, a, tx);
    }
  }

  lemma AccountPromote(a: Address, p: Txs, q: Txs, all: set<Tx>, moved: Txs)
    requires AccountOk(a, p, q, all) && PartOf(moved, q)
    ensures AccountOk(a, p + moved, Without(q, moved), all)
  {
  }

  lemma AccountDemote(a: Address, p: Txs, q: Txs, all: set<Tx>, moved: Txs)
    requires AccountOk(a, p, q, all) && PartOf(moved, p)
    ensures AccountOk(a, Without(p, moved), q + moved, all)
  {
  }
}
