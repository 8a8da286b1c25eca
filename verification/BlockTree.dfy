/** Blocks and headers, as their hashes see them.

    A block's hash covers its header, which holds the parent's hash, so with hashes that do
    not collide a hash stands for the block and all of its ancestry. A block is therefore
    modelled as that value: genesis, or a child that contains its parent. Comparing hashes is
    comparing blocks, and following a parent hash is taking `parent`. Validation has already
    made every block's number one more than its parent's, so the number is the depth. */
module BlockTree {
  import opened Common

  /** What a write did: nothing, a new canonical head, or a block on a side chain. */
  datatype WriteStatus = NonStat | CanonStat | SideStat

  type TxHash = nat

  /** `seal` tells apart blocks that agree in everything else. */
  datatype Block = Genesis | Child(parent: Block, difficulty: Positive, txs: seq<TxHash>, seal: nat)

  function Number(b: Block): (n: nat) {
    match b
    case Genesis => 0
    case Child(p, _, _, _) => Number(p) + 1
  }

  /** The parent hash in a header; genesis has none. */
  function ParentHash(b: Block): (p: Option<Block>) {
    if b.Genesis? then None else Some(b.parent)
  }

  /** Total difficulty: the sum of the difficulties along the path from genesis. */
  function TotalDifficulty(b: Block): (td: nat) {
    match b
    case Genesis => 0
    case Child(p, d, _, _) => TotalDifficulty(p) + d
  }

  /** The ancestor of `b` with number `n`; `b` itself when `n` is not below it. */
  function AncestorAt(b: Block, n: nat): (a: Block)
    ensures n <= Number(b) ==> Number(a) == n
    ensures n >= Number(b) ==> a == b
  {
    if n >= Number(b) then b else AncestorAt(b.parent, n)
  }

  /** The canonical number assignment whose head is `b`: its ancestor path and nothing above it. */
  ghost function PathMap(b: Block): (m: map<nat, Block>)
    ensures forall n: nat {:trigger n in m} :: n in m <==> n <= Number(b)
    ensures forall n: nat {:trigger m[n]} :: n <= Number(b) ==> m[n] == AncestorAt(b, n)
  {
    map n: nat | 0 <= n <= Number(b) :: AncestorAt(b, n)
  }

  /** A store that holds the parent of everything it holds, down to genesis. */
  ghost predicate Closed(s: set<Block>) {
    && Genesis in s
    && forall b {:trigger b.parent} | b in s :: b.Child? ==> b.parent in s
  }

  /** Walking to `n` by way of `m` ends where walking there directly does. */
  lemma {:induction false} AncestorTransitive(b: Block, m: nat, n: nat)
    requires n <= m <= Number(b)
    ensures AncestorAt(AncestorAt(b, m), n) == AncestorAt(b, n)
  {
    if m < Number(b) {
      AncestorTransitive(b.parent, m, n);
    }
  }

  lemma {:induction false} AncestorStored(s: set<Block>, b: Block, n: nat)
    requires Closed(s) && b in s
    ensures AncestorAt(b, n) in s
  {
    if n < Number(b) {
      AncestorStored(s, b.parent, n);
    }
  }

  /** A proper ancestor is strictly lighter. */
  lemma {:induction false} AncestorLighter(b: Block, n: nat)
    requires n < Number(b)
    ensures TotalDifficulty(AncestorAt(b, n)) < TotalDifficulty(b)
  {
    if n < Number(b.parent) {
      AncestorLighter(b.parent, n);
    }
  }

  /** The part of a block's path that lies above number `lo`. */
  ghost function Above(b: Block, lo: nat): (r: map<nat, Block>) {
    map n: nat | lo < n <= Number(b) :: AncestorAt(b, n)
  }

  ghost function UpTo(m: map<nat, Block>, last: nat): (r: map<nat, Block>) {
    map n | n in m && n <= last :: m[n]
  }

  lemma {:induction false} GenesisCommon(b: Block)
    ensures AncestorAt(b, 0) == Genesis
  {
    if b.Child? {
      GenesisCommon(b.parent);
    }
  }
}
