/** core/blockchain.go: writing a block with its state, the fork choice, and the reorganisation
    that rewrites the canonical map and the transaction lookup when another branch wins. */
module BlockChains {
  import opened BlockTree
  import opened Common

  /** What the block chain keeps, as one value. `lookup` gives each canonical transaction's block
      number; `current`, `header` and `fast` are the head block, head header and head fast block. */
  datatype Ledger = Ledger(stored: set<Block>, tds: map<Block, nat>, canon: map<nat, Block>,
                           lookup: map<TxHash, nat>, current: Block, header: Block, fast: Block)

  ghost function Entries(txs: seq<TxHash>, n: nat): (m: map<TxHash, nat>) {
    map t | t in txs :: n
  }

  function TxSet(txs: seq<TxHash>): (r: set<TxHash>) {
    set t | t in txs
  }

  /** The lookup entries of the blocks above number `n` on the path of `b`. */
  ghost function BranchLookup(b: Block, n: nat): (m: map<TxHash, nat>) {
    if Number(b) <= n then map[] else BranchLookup(b.parent, n) + Entries(b.txs, Number(b))
  }

  /** The transaction lookup that belongs to a head: every transaction on its path, with its block's number. */
  ghost function LookupOf(b: Block): (m: map<TxHash, nat>) {
    BranchLookup(b, 0)
  }

  /** No transaction occurs twice on the path of `b`, as the senders' nonces see to. */
  ghost predicate NoRepeats(b: Block) {
    b.Child? ==> NoRepeats(b.parent) && forall t | t in b.txs :: t !in LookupOf(b.parent)
  }

  ghost predicate Consistent(l: Ledger) {
    && Closed(l.stored) && l.current in l.stored
    && l.tds == (map b | b in l.stored :: TotalDifficulty(b))
    && (forall b | b in l.stored :: NoRepeats(b))
  }

  /** Canonical map, transaction lookup and all head markers belong to the head block, and to nothing else. */
  ghost predicate Settled(l: Ledger) {
    && l.canon == PathMap(l.current)
    && l.lookup == LookupOf(l.current)
    && l.header == l.current && l.fast == l.current
  }

  /** The lookup says exactly where each transaction of the path is. */
  lemma {:induction false} LookupExact(b: Block, t: TxHash)
    requires NoRepeats(b)
    ensures t in LookupOf(b) ==> 0 < LookupOf(b)[t] <= Number(b) && t in AncestorAt(b, LookupOf(b)[t]).txs
    ensures forall n: nat | 0 < n <= Number(b) && t in AncestorAt(b, n).txs :: t in LookupOf(b) && LookupOf(b)[t] == n
  {
    if b.Child? {
      LookupExact(b.parent, t);
      forall n: nat | 0 < n <= Number(b) && t in AncestorAt(b, n).txs
        ensures t in LookupOf(b) && LookupOf(b)[t] == n
      {
        if n < Number(b) {
          assert t in AncestorAt(b.parent, n).txs;
          assert t in LookupOf(b.parent);
        }
      }
    }
  }

  /** A path's lookup is that of its lower part with the upper part's laid over it. */
  lemma {:induction false} LookupSplit(b: Block, n: nat)
    requires n <= Number(b)
    ensures LookupOf(b) == LookupOf(AncestorAt(b, n)) + BranchLookup(b, n)
  {
    if n < Number(b) {
      LookupSplit(b.parent, n);
    }
  }

  lemma {:induction false} BranchFresh(b: Block, n: nat, t: TxHash)
    requires NoRepeats(b) && n <= Number(b) && t in BranchLookup(b, n)
    ensures t !in LookupOf(AncestorAt(b, n))
  {
    if n < Number(b) {
      LookupSplit(b.parent, n);
      if t in BranchLookup(b.parent, n) {
        BranchFresh(b.parent, n, t);
      }
    }
  }

  lemma MergeReplaced(c: map<TxHash, nat>, o: map<TxHash, nat>, n: map<TxHash, nat>)
    requires c.Keys !! o.Keys
    ensures (c + o + n) - (o.Keys - n.Keys) == c + n
  {
  }

  /** Replacing one branch's entries by another's leaves exactly the other path's lookup. */
  lemma LookupReplaced(old_: Block, new_: Block, n: nat, deleted: set<TxHash>)
    requires NoRepeats(old_) && n <= Number(old_) && n <= Number(new_)
    requires AncestorAt(old_, n) == AncestorAt(new_, n)
    requires deleted == BranchLookup(old_, n).Keys - BranchLookup(new_, n).Keys
    ensures (LookupOf(old_) + BranchLookup(new_, n)) - deleted == LookupOf(new_)
  {
    LookupSplit(old_, n);
    LookupSplit(new_, n);
    var common := LookupOf(AncestorAt(old_, n));
    forall t | t in BranchLookup(old_, n)
      ensures t !in common
    {
      BranchFresh(old_, n, t);
    }
    MergeReplaced(common, BranchLookup(old_, n), BranchLookup(new_, n));
  }

  /** The blocks of `b`'s path above number `k`, from `b` downwards. */
  ghost function Branch(b: Block, k: nat): (s: seq<Block>) {
    if Number(b) <= k then [] else [b] + Branch(b.parent, k)
  }

  lemma {:induction false} BranchStep(b: Block, k: nat)
    requires k < Number(b)
    ensures Branch(b, k) == Branch(b, k + 1) + [AncestorAt(b, k + 1)]
    ensures BranchLookup(b, k).Keys == BranchLookup(b, k + 1).Keys + TxSet(AncestorAt(b, k + 1).txs)
  {
    if k + 1 < Number(b) {
      BranchStep(b.parent, k);
    }
  }

  lemma {:induction false} BranchAt(b: Block, k: nat)
    ensures |Branch(b, k)| == if Number(b) <= k then 0 else Number(b) - k
    ensures forall i {:trigger Branch(b, k)[i]} | 0 <= i < |Branch(b, k)| ::
      Branch(b, k)[i] == AncestorAt(b, Number(b) - i)
  {
    if k < Number(b) {
      BranchAt(b.parent, k);
      assert forall i | 0 < i < |Branch(b, k)| :: Branch(b, k)[i] == Branch(b.parent, k)[i-1];
    }
  }

  datatype Fork = BrokenChain | Fork(common: Block, newChain: seq<Block>, deleted: set<TxHash>)

  /** Both branches have been followed down to the same number, with everything above gathered and
      the blocks just above, if any, different. */
  ghost predicate Level(oldBlock: Block, newBlock: Block, o: Block, n: Block, newChain: seq<Block>,
                        deleted: set<TxHash>) {
    var k := Number(o);
    && k == Number(n) && k <= Number(oldBlock) && k <= Number(newBlock)
    && o == AncestorAt(oldBlock, k) && n == AncestorAt(newBlock, k)
    && newChain == Branch(newBlock, k) && deleted == BranchLookup(oldBlock, k).Keys
    && (k < Number(oldBlock) && k < Number(newBlock) ==> AncestorAt(oldBlock, k + 1) != AncestorAt(newBlock, k + 1))
  }

  ghost predicate Found(oldBlock: Block, newBlock: Block, r: Fork)
    requires r.Fork?
  {
    Level(oldBlock, newBlock, r.common, r.common, r.newChain, r.deleted)
  }

  lemma LevelStep(oldBlock: Block, newBlock: Block, o: Block, n: Block, newChain: seq<Block>, deleted: set<TxHash>)
    requires Level(oldBlock, newBlock, o, n, newChain, deleted) && o != n
    ensures o.Child? && n.Child?
    ensures Level(oldBlock, newBlock, o.parent, n.parent, newChain + [n], deleted + TxSet(o.txs))
  {
    var k := Number(o);
    AncestorTransitive(oldBlock, k, k - 1);
    AncestorTransitive(newBlock, k, k - 1);
    BranchStep(oldBlock, k - 1);
    BranchStep(newBlock, k - 1);
  }

  /** Once parted, branches stay apart. */
  lemma StaysApart(oldBlock: Block, newBlock: Block, k: nat, m: nat)
    requires k < m <= Number(oldBlock) && m <= Number(newBlock)
    requires AncestorAt(oldBlock, k + 1) != AncestorAt(newBlock, k + 1)
    ensures AncestorAt(oldBlock, m) != AncestorAt(newBlock, m)
  {
    AncestorTransitive(oldBlock, m, k + 1);
    AncestorTransitive(newBlock, m, k + 1);
  }

  lemma AboveStep(b: Block, k: nat)
    requires b.Child? && k <= Number(b.parent)
    ensures Above(b, k) == Above(b.parent, k)[Number(b) := b]
    ensures BranchLookup(b, k) == BranchLookup(b.parent, k) + Entries(b.txs, Number(b))
  {
  }

  /** Where the canonical map, the lookup and the heads stand once a branch has been written up to
      `w`, of which the part above number `k` was not canonical in `l`. */
  ghost function WrittenUpTo(l: Ledger, w: Block, k: nat): (m: Ledger) {
    var c := l.(canon := l.canon + Above(w, k), lookup := l.lookup + BranchLookup(w, k));
    if Number(w) <= k then c else c.(current := w, header := w, fast := w)
  }

  /** Writing one more block of a branch as head. */
  ghost function HeadWritten(l: Ledger, b: Block): (m: Ledger)
    requires b.Child?
  {
    var c := l.(canon := l.canon[Number(b) := b], lookup := l.lookup + Entries(b.txs, Number(b)), current := b);
    if Number(b) in l.canon && l.canon[Number(b)] == b then c else c.(header := b, fast := b)
  }

  lemma WrittenNone(l: Ledger, w: Block)
    ensures WrittenUpTo(l, w, Number(w)) == l
  {
    assert l.canon + Above(w, Number(w)) == l.canon;
    assert l.lookup + BranchLookup(w, Number(w)) == l.lookup;
  }

  lemma WrittenStep(l: Ledger, w: Block, k: nat)
    requires w.Child? && k <= Number(w.parent)
    requires Number(w) in l.canon ==> l.canon[Number(w)] != w
    ensures HeadWritten(WrittenUpTo(l, w.parent, k), w) == WrittenUpTo(l, w, k)
    ensures BranchLookup(w, k).Keys == BranchLookup(w.parent, k).Keys + TxSet(w.txs)
  {
    AboveStep(w, k);
    assert BranchLookup(w, k).Keys == BranchLookup(w.parent, k).Keys + TxSet(w.txs);
    MergeStep(l.canon, Above(w.parent, k), Number(w), w);
    MergeAssociates(l.lookup, BranchLookup(w.parent, k), Entries(w.txs, Number(w)));
  }

  ghost predicate OnPath(b: Block, head: Block) {
    Number(b) <= Number(head) && AncestorAt(head, Number(b)) == b
  }

  lemma LaidOver(oldBlock: Block, w: Block, k: nat, top: nat)
    requires k <= Number(oldBlock) && k <= Number(w)
    requires top == if Number(oldBlock) >= Number(w) then Number(oldBlock) else Number(w)
    ensures forall n: nat :: n in PathMap(oldBlock) + Above(w, k) <==> n <= top
  {
  }

  /** A branch laid over the old path and cut at its own head is that head's path. */
  lemma CutIsPath(oldBlock: Block, w: Block, k: nat)
    requires k <= Number(oldBlock) && k <= Number(w) && AncestorAt(oldBlock, k) == AncestorAt(w, k)
    ensures UpTo(PathMap(oldBlock) + Above(w, k), Number(w)) == PathMap(w)
  {
    forall n: nat | n <= k
      ensures AncestorAt(oldBlock, n) == AncestorAt(w, n)
    {
      AncestorTransitive(oldBlock, k, n);
      AncestorTransitive(w, k, n);
    }
  }

  /** The ledger of a chain with head `b`, given what is stored. */
  ghost function HeadedBy(l: Ledger, b: Block): (m: Ledger) {
    Ledger(l.stored, l.tds, PathMap(b), LookupOf(b), b, b, b)
  }

  /** What reorg leaves for the caller, who then writes the new head. A branch of two or more
      blocks has been written up to the new head's parent; a shorter one leaves everything but the
      lookup at the old head. */
  ghost function Reorged(l: Ledger, b: Block): (m: Ledger)
    requires b.Child?
  {
    if !OnPath(b.parent, l.current) then HeadedBy(l, b.parent)
    else if OnPath(b, l.current) then l.(lookup := LookupOf(b))
    else l.(lookup := LookupOf(b.parent))
  }

  /** The last block of a new branch that reorg itself writes. */
  ghost function LastWritten(b: Block, newChain: seq<Block>): Block
    requires b.Child?
  {
    if newChain == [] then b else b.parent
  }

  /** The new branch is empty iff the new block is canonical already, and at most one block long iff
      its parent is. */
  lemma BranchLength(oldBlock: Block, newBlock: Block, f: Fork)
    requires newBlock.Child? && f.Fork? && Found(oldBlock, newBlock, f)
    ensures var k, w := Number(f.common), LastWritten(newBlock, f.newChain);
      && k <= Number(w) && AncestorAt(w, k) == f.common
      && (f.newChain == [] <==> OnPath(newBlock, oldBlock))
      && (k == Number(w) <==> OnPath(newBlock.parent, oldBlock))
  {
    var k := Number(f.common);
    BranchAt(newBlock, k);
    if k < Number(newBlock) && OnPath(newBlock, oldBlock) {
      StaysApart(oldBlock, newBlock, k, Number(newBlock));
    }
    if k < Number(newBlock.parent) && OnPath(newBlock.parent, oldBlock) {
      AncestorTransitive(newBlock, Number(newBlock) - 1, Number(newBlock) - 1);
      StaysApart(oldBlock, newBlock, k, Number(newBlock) - 1);
    }
    if k == Number(newBlock) {
      AncestorTransitive(oldBlock, k, k - 1);
    }
  }

  lemma ApartFromPath(oldBlock: Block, newBlock: Block, f: Fork)
    requires f.Fork? && Found(oldBlock, newBlock, f)
    ensures forall n: nat | Number(f.common) < n <= Number(newBlock) && n in PathMap(oldBlock) ::
      PathMap(oldBlock)[n] != AncestorAt(newBlock, n)
  {
    var k := Number(f.common);
    forall n: nat | k < n <= Number(newBlock) && n <= Number(oldBlock)
      ensures AncestorAt(oldBlock, n) != AncestorAt(newBlock, n)
    {
      StaysApart(oldBlock, newBlock, k, n);
    }
    hide AncestorAt, Number;
  }

  /** Writing the branch over a settled ledger and then deleting what has gone stale gives what reorg promises. */
  lemma ReorgOutcome(l: Ledger, newBlock: Block, f: Fork)
    requires Settled(l) && NoRepeats(l.current) && newBlock.Child?
    requires f.Fork? && Found(l.current, newBlock, f)
    ensures var k, w := Number(f.common), LastWritten(newBlock, f.newChain);
      var m := WrittenUpTo(l, w, k);
      m.(lookup := m.lookup - (f.deleted - BranchLookup(w, k).Keys),
         canon := UpTo(m.canon, Number(m.current))) == Reorged(l, newBlock)
  {
    var k, w := Number(f.common), LastWritten(newBlock, f.newChain);
    BranchLength(l.current, newBlock, f);
    LookupReplaced(l.current, w, k, f.deleted - BranchLookup(w, k).Keys);
    if k == Number(w) {
      WrittenNone(l, w);
      assert UpTo(l.canon, Number(l.current)) == l.canon;
    } else {
      CutIsPath(l.current, w, k);
    }
  }

  /** The one family of new heads that leaves stale assignments above itself: lower than the old
      head, and the child of a canonical block. */
  ghost predicate LeavesStale(head: Block, b: Block)
    requires b.Child?
  {
    Number(b) < Number(head) && OnPath(b.parent, head)
  }

  /** Making `b` the head of a ledger: reorganise unless `b` extends the head, then write it. */
  ghost function MadeHead(l: Ledger, b: Block): (m: Ledger)
    requires b.Child?
  {
    HeadWritten(if b.parent == l.current then l else Reorged(l, b), b)
  }

  lemma PathExtends(b: Block)
    requires b.Child?
    ensures PathMap(b.parent)[Number(b) := b] == PathMap(b)
  {
    var m := PathMap(b.parent)[Number(b) := b];
    forall n: nat
      ensures n in m <==> n in PathMap(b)
      ensures n in m ==> m[n] == PathMap(b)[n]
    {
      assert n < Number(b) ==> AncestorAt(b, n) == AncestorAt(b.parent, n);
    }
  }

  lemma LookupExtends(b: Block)
    requires b.Child?
    ensures LookupOf(b.parent) + Entries(b.txs, Number(b)) == LookupOf(b)
    ensures LookupOf(b) + Entries(b.txs, Number(b)) == LookupOf(b)
  {
  }

  /** A one-block branch on a canonical parent, not lower than the old head: its path is the old
      one with the head's number reassigned. */
  lemma SiblingPath(head: Block, b: Block)
    requires b.Child? && OnPath(b.parent, head) && Number(b) == Number(head)
    ensures PathMap(head)[Number(b) := b] == PathMap(b)
  {
    assert head.parent == AncestorAt(head, Number(head) - 1);
    PathExtends(b);
    PathExtends(head);
  }

  lemma MadeHeadClean(l: Ledger, b: Block)
    requires Settled(l) && b.Child? && !LeavesStale(l.current, b)
    ensures MadeHead(l, b) == HeadedBy(l, b)
  {
    LookupExtends(b);
    if b.parent == l.current || !OnPath(b.parent, l.current) {
      PathExtends(b);
    } else {
      SiblingPath(l.current, b);
    }
  }

  lemma MadeHeadStale(l: Ledger, b: Block)
    requires Settled(l) && b.Child? && LeavesStale(l.current, b)
    ensures MadeHead(l, b).current == b && MadeHead(l, b).lookup == LookupOf(b)
    ensures Number(l.current) in MadeHead(l, b).canon
  {
    LookupExtends(b);
  }

  /** The exact outcome of making a block the head: the transaction lookup is always the new
      path's, and canonical map and heads are too, except in the one family. */
  lemma MadeHeadSettled(l: Ledger, b: Block)
    requires Settled(l) && b.Child?
    ensures MadeHead(l, b).current == b && MadeHead(l, b).lookup == LookupOf(b)
    ensures Settled(MadeHead(l, b)) <==> !LeavesStale(l.current, b)
    ensures !LeavesStale(l.current, b) ==> MadeHead(l, b) == HeadedBy(l, b)
  {
    hide AncestorAt, BranchLookup, LookupOf, Number, MadeHead;
    if LeavesStale(l.current, b) {
      MadeHeadStale(l, b);
      assert Number(l.current) !in PathMap(b);
    } else {
      MadeHeadClean(l, b);
    }
  }

  lemma AdoptStarts(newBlock: Block, k: nat, l: Ledger)
    requires k <= Number(newBlock)
    ensures |Branch(newBlock, k)| == Number(newBlock) - k && Number(AncestorAt(newBlock, k)) == k
    ensures WrittenUpTo(l, AncestorAt(newBlock, k), k) == l && BranchLookup(AncestorAt(newBlock, k), k) == map[]
  {
    BranchAt(newBlock, k);
    WrittenNone(l, AncestorAt(newBlock, k));
  }

  lemma AdoptStep(newBlock: Block, k: nat, w: Block, i: nat)
    requires k <= Number(w) == Number(newBlock) - (i + 1) && w == AncestorAt(newBlock, Number(w))
    ensures |Branch(newBlock, k)| == Number(newBlock) - k
    ensures var b := Branch(newBlock, k)[i];
      b == AncestorAt(newBlock, Number(w) + 1) && b.Child? && b.parent == w && Number(b) == Number(w) + 1
  {
    BranchAt(newBlock, k);
    AncestorTransitive(newBlock, Number(w) + 1, Number(w));
  }

  lemma AdoptEnds(newBlock: Block, k: nat, w: Block)
    requires k <= Number(w) <= Number(newBlock) && w == AncestorAt(newBlock, Number(w))
    ensures Number(w) == Number(newBlock) ==> w == newBlock
    ensures Number(w) == Number(newBlock) - 1 ==> newBlock.Child? && w == newBlock.parent
  {
  }

  /** No stored block is heavier than the head. */
  ghost predicate Heaviest(l: Ledger) {
    forall b | b in l.stored :: TotalDifficulty(b) <= TotalDifficulty(l.current)
  }

  ghost predicate Good(l: Ledger) {
    Consistent(l) && Settled(l) && Heaviest(l)
  }

  /** A block about to be written, with what fork choice asks about it: whether the local miner
      wants the head or the block preserved, and how a coin falls. */
  datatype Arrival = Arrival(block: Block, preserveHead: bool, preserveBlock: bool, coin: bool)

  /** The fork choice: heavier wins, then lower, then what the local miner prefers, then the coin. */
  predicate Wins(head: Block, a: Arrival) {
    var td, local := TotalDifficulty(a.block), TotalDifficulty(head);
    td > local || (td == local && (
      Number(a.block) < Number(head) ||
      (Number(a.block) == Number(head) && !a.preserveHead && (a.preserveBlock || a.coin))))
  }

  /** The fork choice, case by case: an equally heavy block wins if it is lower, loses if it is higher, and at the same
      height loses to a head of the local miner's, wins if it is the local miner's own, and else is up to the coin. */
  lemma WinsExactly(head: Block, a: Arrival)
    ensures TotalDifficulty(a.block) != TotalDifficulty(head) ==>
      (Wins(head, a) <==> TotalDifficulty(a.block) > TotalDifficulty(head))
    ensures TotalDifficulty(a.block) == TotalDifficulty(head) ==>
      && (Number(a.block) < Number(head) ==> Wins(head, a))
      && (Number(a.block) > Number(head) ==> !Wins(head, a))
      && (Number(a.block) == Number(head) && a.preserveHead ==> !Wins(head, a))
      && (Number(a.block) == Number(head) && !a.preserveHead && a.preserveBlock ==> Wins(head, a))
      && (Number(a.block) == Number(head) && !a.preserveHead && !a.preserveBlock ==> (Wins(head, a) <==> a.coin))
  {
  }

  /** Storing a block, whether it wins or not. */
  ghost function Stored(l: Ledger, b: Block): (m: Ledger) {
    l.(stored := l.stored + {b}, tds := map x | x in l.stored + {b} :: TotalDifficulty(x))
  }

  ghost function BlockWritten(l: Ledger, a: Arrival): (m: Ledger)
    requires a.block.Child?
  {
    if Wins(l.current, a) then MadeHead(Stored(l, a.block), a.block) else Stored(l, a.block)
  }

  /** A valid arrival: its parent is stored and it repeats no transaction of its path. */
  ghost predicate Acceptable(l: Ledger, a: Arrival) {
    a.block.Child? && a.block.parent in l.stored && NoRepeats(a.block)
  }

  /** The ledger of a chain that has been written without trouble. */
  ghost function LedgerOf(stored: set<Block>, head: Block): (l: Ledger) {
    Ledger(stored, map b | b in stored :: TotalDifficulty(b), PathMap(head), LookupOf(head), head, head, head)
  }

  lemma LedgerGood(stored: set<Block>, head: Block)
    requires Closed(stored) && head in stored
    requires forall b | b in stored :: NoRepeats(b) && TotalDifficulty(b) <= TotalDifficulty(head)
    ensures Good(LedgerOf(stored, head))
  {
  }

  /** A block without transactions on another. */
  function Empty(parent: Block, difficulty: Positive, seal: nat): (b: Block) {
    Child(parent, difficulty, [], seal)
  }

  lemma EmptyFacts(parent: Block, difficulty: Positive, seal: nat)
    ensures var b := Empty(parent, difficulty, seal);
      && b.Child? && b.parent == parent && Number(b) == Number(parent) + 1
      && TotalDifficulty(b) == TotalDifficulty(parent) + difficulty && (NoRepeats(parent) ==> NoRepeats(b))
  {
  }

  lemma ShortBranchStale(l: Ledger, a: Arrival)
    requires Settled(l) && a.block.Child? && Wins(l.current, a) && LeavesStale(l.current, a.block)
    ensures Number(l.current) in BlockWritten(l, a).canon && BlockWritten(l, a).current == a.block
  {
    MadeHeadStale(Stored(l, a.block), a.block);
  }

  /** The failing family is inhabited: from a chain of two blocks of difficulty 1, in good order, a block of difficulty
      3 on genesis takes over, and the old head's number stays assigned above the new head. */
  lemma StaleAssignmentsOccur(seal: nat) returns (l: Ledger, a: Arrival)
    ensures Good(l) && Acceptable(l, a) && Wins(l.current, a) && LeavesStale(l.current, a.block)
    ensures Number(l.current) in BlockWritten(l, a).canon && Number(l.current) > Number(BlockWritten(l, a).current)
  {
    hide NoRepeats, Empty, PathMap, LookupOf, BlockWritten, Good, Stored;
    var low := Empty(Genesis, 1, seal);
    var head := Empty(low, 1, seal);
    var heavy := Empty(Genesis, 3, seal);
    EmptyFacts(Genesis, 1, seal);
    EmptyFacts(low, 1, seal);
    EmptyFacts(Genesis, 3, seal);
    GenesisFacts();
    var stored := {Genesis, low, head};
    LedgerGood(stored, head);
    l, a := LedgerOf(stored, head), Arrival(heavy, false, false, false);
    GenesisOnPath(head, heavy);
    ShortBranchStale(l, a);
  }

  lemma GenesisFacts()
    ensures NoRepeats(Genesis) && Number(Genesis) == 0 && TotalDifficulty(Genesis) == 0
  {
  }

  lemma GenesisOnPath(head: Block, b: Block)
    requires b.Child? && b.parent == Genesis && Number(head) > Number(b)
    ensures LeavesStale(head, b)
  {
    GenesisCommon(head);
  }

  lemma StoredConsistent(l: Ledger, a: Arrival)
    requires Consistent(l) && Acceptable(l, a)
    ensures Consistent(Stored(l, a.block))
  {
  }

  /** Writing a block keeps totals and weights right in every case, and the canonical map, the
      transaction lookup and the heads right exactly outside the one family. */
  lemma BlockWrittenGood(l: Ledger, a: Arrival)
    requires Good(l) && Acceptable(l, a)
    ensures Consistent(BlockWritten(l, a)) && Heaviest(BlockWritten(l, a))
    ensures Settled(BlockWritten(l, a)) <==> !(Wins(l.current, a) && LeavesStale(l.current, a.block))
  {
    StoredConsistent(l, a);
    if Wins(l.current, a) {
      MadeHeadSettled(Stored(l, a.block), a.block);
      MadeHeadStores(Stored(l, a.block), a.block);
    }
    hide MadeHead, NoRepeats, Number;
  }

  lemma MadeHeadStores(l: Ledger, b: Block)
    requires b.Child?
    ensures MadeHead(l, b).stored == l.stored && MadeHead(l, b).tds == l.tds
  {
  }

  /** A run of arrivals, none of which leaves stale assignments. */
  ghost predicate CleanRun(l: Ledger, run: seq<Arrival>)
    decreases |run|
  {
    run == [] || (
      && Acceptable(l, run[0])
      && !(Wins(l.current, run[0]) && LeavesStale(l.current, run[0].block))
      && CleanRun(BlockWritten(l, run[0]), run[1..]))
  }

  ghost function After(l: Ledger, run: seq<Arrival>): Ledger
    requires CleanRun(l, run)
    decreases |run|
  {
    if run == [] then l else After(BlockWritten(l, run[0]), run[1..])
  }

  /** Over any run of arrivals the canonical map, the transaction lookup, the heads and the total
      difficulties stay right and the head stays the heaviest block. */
  lemma {:induction false} RunGood(l: Ledger, run: seq<Arrival>)
    requires Good(l) && CleanRun(l, run)
    ensures Good(After(l, run))
    ensures TotalDifficulty(l.current) <= TotalDifficulty(After(l, run).current)
    decreases |run|
  {
    if run != [] {
      BlockWrittenGood(l, run[0]);
      assert TotalDifficulty(l.current) <= TotalDifficulty(BlockWritten(l, run[0]).current) by {
        if Wins(l.current, run[0]) { MadeHeadSettled(Stored(l, run[0].block), run[0].block); }
      }
      RunGood(BlockWritten(l, run[0]), run[1..]);
    }
  }

  class BlockChain {
    var stored: set<Block>
    var tds: map<Block, nat>
    var canon: map<nat, Block>
    var lookup: map<TxHash, nat>
    var current: Block
    var header: Block
    var fast: Block

    ghost function View(): Ledger
      reads this
    {
      Ledger(stored, tds, canon, lookup, current, header, fast)
    }

    /** writeHeadBlock: makes a block the head, forcing the other heads onto it unless it was canonical already. */
    method WriteHeadBlock(b: Block)
      requires b.Child?
      modifies `canon, `lookup, `current, `header, `fast
      ensures View() == HeadWritten(old(View()), b)
    {
      var updateHeads := !(Number(b) in canon && canon[Number(b)] == b);
      canon := canon[Number(b) := b];
      lookup := lookup + map t | t in b.txs :: Number(b);
      if updateHeads {
        header, fast := b, b;
      }
      current := b;
    }

    function GetBlock(b: Block): Option<Block>
      reads this
    {
      if b in stored then Some(b) else None
    }

    /** Follows the old branch down to number `n`, gathering its transactions as deleted ones. */
    method LowerOld(oldBlock: Block, n: nat) returns (r: Option<Block>, deleted: set<TxHash>)
      requires n <= Number(oldBlock)
      ensures r.Some? ==> r.value == AncestorAt(oldBlock, n) && deleted == BranchLookup(oldBlock, n).Keys
      ensures Closed(stored) && oldBlock in stored ==> r.Some?
    {
      deleted := {};
      r := Some(oldBlock);
      while r.Some? && Number(r.value) != n
        invariant r.Some? ==>
          n <= Number(r.value) <= Number(oldBlock) && r.value == AncestorAt(oldBlock, Number(r.value))
        invariant r.Some? ==> deleted == BranchLookup(oldBlock, Number(r.value)).Keys
        invariant Closed(stored) && oldBlock in stored ==> r.Some? && r.value in stored
        decreases if r.Some? then 1 + Number(r.value) else 0
      {
        var o := r.value;
        BranchStep(oldBlock, Number(o) - 1);
        AncestorTransitive(oldBlock, Number(o), Number(o) - 1);
        deleted := deleted + TxSet(o.txs);
        r := GetBlock(o.parent);
      }
    }

    /** Follows the new branch down to number `n`, stashing its blocks away. */
    method LowerNew(newBlock: Block, n: nat) returns (r: Option<Block>, newChain: seq<Block>)
      requires n <= Number(newBlock)
      ensures r.Some? ==> r.value == AncestorAt(newBlock, n) && newChain == Branch(newBlock, n)
      ensures Closed(stored) && newBlock in stored ==> r.Some?
    {
      newChain := [];
      r := Some(newBlock);
      while r.Some? && Number(r.value) != n
        invariant r.Some? ==>
          n <= Number(r.value) <= Number(newBlock) && r.value == AncestorAt(newBlock, Number(r.value))
        invariant r.Some? ==> newChain == Branch(newBlock, Number(r.value))
        invariant Closed(stored) && newBlock in stored ==> r.Some? && r.value in stored
        decreases if r.Some? then 1 + Number(r.value) else 0
      {
        var b := r.value;
        BranchStep(newBlock, Number(b) - 1);
        AncestorTransitive(newBlock, Number(b), Number(b) - 1);
        newChain := newChain + [b];
        r := GetBlock(b.parent);
      }
    }

    /** Steps back on both branches, now level, until they meet. */
    method FindCommon(oldBlock: Block, newBlock: Block, o0: Block, n0: Block, newChain0: seq<Block>,
                      deleted0: set<TxHash>)
      returns (r: Fork)
      requires Level(oldBlock, newBlock, o0, n0, newChain0, deleted0)
      ensures r.Fork? ==> Found(oldBlock, newBlock, r)
      ensures Closed(stored) && o0 in stored && n0 in stored ==> r.Fork?
    {
      var o, n, newChain, deleted := o0, n0, newChain0, deleted0;
      while o != n
        invariant Level(oldBlock, newBlock, o, n, newChain, deleted)
        invariant Closed(stored) && o0 in stored && n0 in stored ==> o in stored && n in stored
        decreases Number(o)
      {
        LevelStep(oldBlock, newBlock, o, n, newChain, deleted);
        deleted := deleted + TxSet(o.txs);
        newChain := newChain + [n];
        var old_ := GetBlock(o.parent);
        if old_.None? {
          return BrokenChain;
        }
        var new_ := GetBlock(n.parent);
        if new_.None? {
          return BrokenChain;
        }
        o, n := old_.value, new_.value;
      }
      return Fork(o, newChain, deleted);
    }

    /** The first half of reorg: both branches are followed back to the block where they part. */
    method FindFork(oldBlock: Block, newBlock: Block) returns (r: Fork)
      ensures r.Fork? ==> Found(oldBlock, newBlock, r)
      ensures Closed(stored) && oldBlock in stored && newBlock in stored ==> r.Fork?
    {
      var old_, new_ := Some(oldBlock), Some(newBlock);
      var newChain, deleted := [], {};
      if Number(oldBlock) > Number(newBlock) {
        old_, deleted := LowerOld(oldBlock, Number(newBlock));
      } else {
        new_, newChain := LowerNew(newBlock, Number(oldBlock));
      }
      if old_.None? || new_.None? {
        return BrokenChain;
      }
      if Closed(stored) && oldBlock in stored && newBlock in stored {
        AncestorStored(stored, oldBlock, Number(old_.value));
        AncestorStored(stored, newBlock, Number(new_.value));
      }
      r := FindCommon(oldBlock, newBlock, old_.value, new_.value, newChain, deleted);
    }

    /** Writes the new branch, except its head, lowest block first. */
    method AdoptBranch(newBlock: Block, newChain: seq<Block>, ghost k: nat) returns (added: set<TxHash>)
      requires k <= Number(newBlock) && newChain == Branch(newBlock, k)
      requires forall n: nat | k < n <= Number(newBlock) && n in canon :: canon[n] != AncestorAt(newBlock, n)
      modifies `canon, `lookup, `current, `header, `fast
      ensures var w := if newChain == [] then newBlock else newBlock.parent;
        View() == WrittenUpTo(old(View()), w, k) && added == BranchLookup(w, k).Keys
    {
      hide BranchLookup, AncestorAt, Branch, WrittenUpTo, HeadWritten, Number;
      added := {};
      ghost var l := View();
      var i := |newChain| - 1;
      ghost var w := AncestorAt(newBlock, k);
      AdoptStarts(newBlock, k, l);
      while i >= 1
        invariant -1 <= i < |newChain| && (i == -1 ==> newChain == [])
        invariant k <= Number(w) == Number(newBlock) - (i + 1) && w == AncestorAt(newBlock, Number(w))
        invariant View() == WrittenUpTo(l, w, k)
        invariant added == BranchLookup(w, k).Keys
      {
        var b := newChain[i];
        AdoptStep(newBlock, k, w, i);
        WrittenStep(l, b, k);
        WriteHeadBlock(b);
        added := added + TxSet(b.txs);
        w := b;
        i := i - 1;
      }
      AdoptEnds(newBlock, k, w);
    }

    /** Drops the lookup entries of transactions that are no longer canonical, and the canonical
        assignments above the current block, stopping at the first free number. */
    method DeleteIndexes(stale: set<TxHash>, ghost top: nat)
      requires forall n: nat :: n in canon <==> n <= top
      modifies `canon, `lookup
      ensures lookup == old(lookup) - stale
      ensures canon == UpTo(old(canon), Number(current))
    {
      var cleared: set<nat> := {};
      var i := Number(current) + 1;
      while i in canon
        invariant i > Number(current) && (i <= top + 1 || i == Number(current) + 1)
        invariant forall n: nat :: n in cleared <==> Number(current) < n < i
        decreases top + 1 - i
      {
        cleared := cleared + {i};
        i := i + 1;
      }
      lookup := lookup - stale;
      canon := canon - cleared;
    }

    /** reorg: rewrites the canonical chain from the old head's branch to the new one's. */
    method Reorg(oldBlock: Block, newBlock: Block) returns (ok: bool)
      requires Settled(View()) && NoRepeats(current) && oldBlock == current && newBlock.Child?
      modifies `canon, `lookup, `current, `header, `fast
      ensures View() == if ok then Reorged(old(View()), newBlock) else old(View())
      ensures Closed(stored) && old(current) in stored && newBlock in stored ==> ok
    {
      hide AncestorAt, BranchLookup, Branch, Number, Reorged, Above, PathMap, Closed, NoRepeats, LookupOf;
      ghost var l := View();
      var f := FindFork(oldBlock, newBlock);
      if f.BrokenChain? {
        return false;
      }
      ghost var k, w := Number(f.common), LastWritten(newBlock, f.newChain);
      BranchLength(oldBlock, newBlock, f);
      ReorgOutcome(l, newBlock, f);
      ApartFromPath(oldBlock, newBlock, f);
      ghost var top := if Number(oldBlock) >= Number(w) then Number(oldBlock) else Number(w);
      LaidOver(oldBlock, w, k, top);
      var added := AdoptBranch(newBlock, f.newChain, k);
      DeleteIndexes(f.deleted - added, top);
      return true;
    }

    /** What the callers of reorg do with a block that is to become the head. */
    method MakeHead(b: Block) returns (ok: bool)
      requires Settled(View()) && NoRepeats(current) && b.Child?
      modifies `canon, `lookup, `current, `header, `fast
      ensures View() == if ok then MadeHead(old(View()), b) else old(View())
      ensures Closed(stored) && old(current) in stored && b in stored ==> ok
    {
      if b.parent != current {
        ok := Reorg(current, b);
        if !ok {
          return;
        }
      }
      WriteHeadBlock(b);
      ok := true;
    }

    /** writeBlockWithState: stores the block and, if it wins the fork choice, makes it the head. A
        block without a stored parent is refused. */
    method WriteBlockWithState(a: Arrival) returns (status: WriteStatus)
      requires Good(View()) && a.block.Child? && NoRepeats(a.block)
      modifies this
      ensures status == NonStat <==> a.block.parent !in old(stored)
      ensures status == NonStat ==> View() == old(View())
      ensures status != NonStat ==> View() == BlockWritten(old(View()), a)
      ensures status == CanonStat <==> a.block.parent in old(stored) && Wins(old(current), a)
    {
      var b := a.block;
      if b.parent !in tds {
        return NonStat;
      }
      ghost var l := View();
      StoredConsistent(l, a);
      var localTd := tds[current];
      var externTd := b.difficulty + tds[b.parent];
      tds := tds[b := externTd];
      stored := stored + {b};
      assert View() == Stored(l, b);
      var reorg := externTd > localTd;
      if !reorg && externTd == localTd {
        if Number(b) < Number(current) {
          reorg := true;
        } else if Number(b) == Number(current) {
          reorg := !a.preserveHead && (a.preserveBlock || a.coin);
        }
      }
      assert reorg == Wins(l.current, a);
      if reorg {
        var ok := MakeHead(b);
        if !ok {
          return NonStat;
        }
        status := CanonStat;
      } else {
        status := SideStat;
      }
    }
  }
}
