/** core/headerchain.go: the header store, the total difficulties, the canonical number
    assignment and the head marker, as batches of headers are written, the head is rewound
    and ancestors are looked up. */
module HeaderChains {
  import opened BlockTree
  import opened Common

  /** Everything the header chain keeps, as one value: `mark` is the head in the database,
      `head` the one held in memory. */
  datatype Chain = Chain(stored: set<Block>, tds: map<Block, nat>, canon: map<nat, Block>, mark: Block, head: Block)

  ghost function Tds(s: set<Block>): map<Block, nat> {
    map b | b in s :: TotalDifficulty(b)
  }

  lemma TdsStep(s: set<Block>, b: Block)
    ensures Tds(s + {b}) == Tds(s)[b := TotalDifficulty(b)]
  {
  }

  /** Headers are parent-linked and every stored total difficulty is the sum along its path. */
  ghost predicate Sound(c: Chain) {
    Closed(c.stored) && c.head in c.stored && c.tds == Tds(c.stored)
  }

  /** The number assignment is the head's ancestor path, with nothing above it. */
  ghost predicate Canonical(c: Chain) {
    c.canon == PathMap(c.head) && c.mark == c.head
  }

  /** No stored header is heavier than the head. */
  ghost predicate Heaviest(c: Chain) {
    forall b | b in c.stored :: TotalDifficulty(b) <= TotalDifficulty(c.head)
  }

  ghost predicate Good(c: Chain) {
    Sound(c) && Canonical(c) && Heaviest(c)
  }

  predicate ChildOfPrevious(b: seq<Block>, i: nat)
    requires 0 < i < |b|
  {
    b[i].Child? && b[i].parent == b[i-1]
  }

  /** What validation has established of a non-empty batch: each header is the child of the one before it. */
  ghost predicate LinkedBatch(b: seq<Block>) {
    && |b| > 0
    && b[0].Child?
    && (forall i {:trigger ChildOfPrevious(b, i)} | 0 < i < |b| :: ChildOfPrevious(b, i))
  }

  function Last(b: seq<Block>): Block
    requires |b| > 0
  {
    b[|b|-1]
  }

  /** The first `k` headers of a batch, as a set. */
  ghost function FirstOf(b: seq<Block>, k: nat): (s: set<Block>)
    requires k <= |b|
  {
    if k == 0 then {} else FirstOf(b, k - 1) + {b[k-1]}
  }

  ghost function Elements(b: seq<Block>): set<Block> {
    FirstOf(b, |b|)
  }

  lemma {:induction false} FirstOfHas(b: seq<Block>, k: nat, i: nat)
    requires i < k <= |b|
    ensures b[i] in FirstOf(b, k)
  {
    if i < k - 1 {
      FirstOfHas(b, k - 1, i);
    }
  }

  lemma {:induction false} FirstOfMembers(b: seq<Block>, k: nat)
    requires k <= |b|
    ensures forall i {:trigger b[i]} | 0 <= i < k :: b[i] in FirstOf(b, k)
    ensures forall x | x in FirstOf(b, k) :: exists i :: 0 <= i < k && b[i] == x
  {
    if k > 0 {
      FirstOfMembers(b, k - 1);
    }
  }

  /** The fork choice: heavier wins, then lower, then the toss of a coin. */
  predicate Prefers(td: nat, number: nat, localTd: nat, headNumber: nat, coin: bool) {
    td > localTd || (td == localTd && (number < headNumber || (number == headNumber && coin)))
  }

  predicate Wins(head: Block, b: seq<Block>, coin: bool)
    requires |b| > 0
  {
    Prefers(TotalDifficulty(Last(b)), Number(Last(b)), TotalDifficulty(head), Number(head), coin)
  }

  /** The intended outcome of writing a batch: the store grows by it, and the head moves
      to its last header, with the canonical path that belongs to it, iff fork choice says so. */
  ghost function Written(c: Chain, b: seq<Block>, coin: bool): (d: Chain)
    requires |b| > 0
  {
    var s := c.stored + Elements(b);
    if Wins(c.head, b, coin) then Chain(s, Tds(s), PathMap(Last(b)), Last(b), Last(b))
    else Chain(s, Tds(s), c.canon, c.mark, c.head)
  }

  /** The one family of batches whose markers go missing: nothing in it is new, it wins the
      fork choice, and it does not end in the current head. */
  ghost predicate LosesMarkers(c: Chain, b: seq<Block>, coin: bool)
    requires |b| > 0
  {
    Elements(b) <= c.stored && Last(b) != c.head && Wins(c.head, b, coin)
  }

  /** The headers of a linked batch are the last one's ancestors, down to the first. */
  lemma {:induction false} BatchIsPath(b: seq<Block>, i: nat, j: nat)
    requires LinkedBatch(b) && i <= j < |b|
    ensures Number(b[i]) == Number(b[0]) + i
    ensures Number(b[i]) + (j - i) == Number(b[j])
    ensures b[i] == AncestorAt(b[j], Number(b[i]))
    decreases j
  {
    if i < j {
      assert ChildOfPrevious(b, j);
      BatchIsPath(b, i, j - 1);
    } else if i > 0 {
      assert ChildOfPrevious(b, i);
      BatchIsPath(b, i - 1, i - 1);
    }
  }

  lemma BatchNotHeavier(b: seq<Block>, i: nat)
    requires LinkedBatch(b) && i < |b|
    ensures TotalDifficulty(b[i]) <= TotalDifficulty(Last(b))
  {
    BatchIsPath(b, i, |b| - 1);
    if Number(b[i]) < Number(Last(b)) {
      AncestorLighter(Last(b), Number(b[i]));
    }
  }

  /** A stored header has its whole ancestry stored, and no header repeats within a batch, so
      the new headers of a batch are a suffix of it. */
  lemma KnownIsPrefix(s: set<Block>, b: seq<Block>, i: nat)
    requires Closed(s) && LinkedBatch(b) && i < |b|
    requires b[i] in s + FirstOf(b, i)
    ensures FirstOf(b, i + 1) <= s && b[0] in s
  {
    FirstOfMembers(b, i);
    if b[i] in FirstOf(b, i) {
      var j :| 0 <= j < i && b[j] == b[i];
      BatchIsPath(b, j, i);
    }
    forall j | 0 <= j <= i ensures b[j] in s {
      BatchIsPath(b, j, i);
      AncestorStored(s, b[i], Number(b[j]));
    }
    FirstOfMembers(b, i + 1);
  }

  /** The new headers of a batch are those from the first new one on, each counted once. */
  lemma NewHeaders(s: set<Block>, b: seq<Block>, first: int)
    requires Closed(s) && LinkedBatch(b) && -1 <= first < |b|
    requires first == -1 ==> Elements(b) <= s
    requires first >= 0 ==> b[first] !in s && FirstOf(b, first) <= s
    ensures |Elements(b) - s| == if first == -1 then 0 else |b| - first
  {
    if first == -1 {
      assert Elements(b) - s == {};
    } else {
      NewSuffix(s, b, first, |b|);
    }
  }

  lemma {:induction false} NewSuffix(s: set<Block>, b: seq<Block>, first: nat, k: nat)
    requires Closed(s) && LinkedBatch(b) && first < |b| && b[first] !in s && FirstOf(b, first) <= s && first <= k <= |b|
    ensures |FirstOf(b, k) - s| == k - first
    decreases k
  {
    hide Closed, LinkedBatch;
    if k == first {
      assert FirstOf(b, k) - s == {};
    } else {
      NewSuffix(s, b, first, k - 1);
      assert b[k-1] !in s + FirstOf(b, k - 1) by {
        if b[k-1] in s + FirstOf(b, k - 1) {
          KnownIsPrefix(s, b, k - 1);
          FirstOfHas(b, k, first);
        }
      }
      assert FirstOf(b, k) - s == (FirstOf(b, k - 1) - s) + {b[k-1]};
    }
  }

  /** The fork choice, case by case. */
  lemma WinsExactly(head: Block, b: seq<Block>, coin: bool)
    requires |b| > 0
    ensures TotalDifficulty(Last(b)) != TotalDifficulty(head) ==>
      (Wins(head, b, coin) <==> TotalDifficulty(Last(b)) > TotalDifficulty(head))
    ensures TotalDifficulty(Last(b)) == TotalDifficulty(head) ==>
      && (Number(Last(b)) < Number(head) ==> Wins(head, b, coin))
      && (Number(Last(b)) > Number(head) ==> !Wins(head, b, coin))
      && (Number(Last(b)) == Number(head) ==> (Wins(head, b, coin) <==> coin))
  {
  }

  lemma GrownClosed(s: set<Block>, b: seq<Block>)
    requires Closed(s) && LinkedBatch(b) && b[0].parent in s
    ensures Closed(s + Elements(b))
  {
    FirstOfMembers(b, |b|);
    forall x | x in s + Elements(b) && x.Child?
      ensures x.parent in s + Elements(b)
    {
      if x !in s {
        var i :| 0 <= i < |b| && b[i] == x;
        if i > 0 {
          assert ChildOfPrevious(b, i);
        }
      }
    }
  }

  /** Writing a batch keeps the chain good: the canonical map is the head's path, every
      total difficulty is its path's sum, and no header outweighs the head. */
  lemma WrittenGood(c: Chain, b: seq<Block>, coin: bool)
    requires Good(c) && LinkedBatch(b) && b[0].parent in c.stored
    ensures Good(Written(c, b, coin))
  {
    var d := Written(c, b, coin);
    GrownClosed(c.stored, b);
    FirstOfMembers(b, |b|);
    forall x | x in d.stored
      ensures TotalDifficulty(x) <= TotalDifficulty(d.head)
    {
      if x !in c.stored {
        var i :| 0 <= i < |b| && b[i] == x;
        BatchNotHeavier(b, i);
      }
    }
  }

  datatype Import = Import(batch: seq<Block>, coin: bool)

  /** A run of imports each of which hangs on a stored header and none of which loses its markers. */
  ghost predicate CleanRun(c: Chain, run: seq<Import>)
    decreases |run|
  {
    run == [] || (
      && LinkedBatch(run[0].batch)
      && run[0].batch[0].parent in c.stored
      && !LosesMarkers(c, run[0].batch, run[0].coin)
      && CleanRun(Written(c, run[0].batch, run[0].coin), run[1..]))
  }

  ghost function After(c: Chain, run: seq<Import>): Chain
    requires CleanRun(c, run)
    decreases |run|
  {
    if run == [] then c else After(Written(c, run[0].batch, run[0].coin), run[1..])
  }

  /** Whatever batches arrive, in whatever order and whichever way the coins fall, the chain
      stays good, nothing stored is lost, and the head only ever gains weight. */
  lemma {:induction false} RunGood(c: Chain, run: seq<Import>)
    requires Good(c) && CleanRun(c, run)
    ensures Good(After(c, run))
    ensures c.stored <= After(c, run).stored
    ensures TotalDifficulty(c.head) <= TotalDifficulty(After(c, run).head)
    decreases |run|
  {
    if run != [] {
      WrittenGood(c, run[0].batch, run[0].coin);
      RunGood(Written(c, run[0].batch, run[0].coin), run[1..]);
    }
  }

  /** One deferred write of a marker batch. */
  datatype Marker = Assign(number: nat, block: Block) | Clear(number: nat) | MarkHead(block: Block)

  function ApplyMarker(canon: map<nat, Block>, op: Marker): (m: map<nat, Block>) {
    match op
    case Assign(n, b) => canon[n := b]
    case Clear(n) => canon - {n}
    case MarkHead(_) => canon
  }

  function Flush(canon: map<nat, Block>, ops: seq<Marker>): (m: map<nat, Block>) {
    if ops == [] then canon
    else ApplyMarker(Flush(canon, ops[..|ops|-1]), ops[|ops|-1])
  }

  function FlushMark(mark: Block, ops: seq<Marker>): (b: Block) {
    if ops == [] then mark
    else if ops[|ops|-1].MarkHead? then ops[|ops|-1].block
    else FlushMark(mark, ops[..|ops|-1])
  }

  lemma FlushStep(canon: map<nat, Block>, mark: Block, ops: seq<Marker>, op: Marker)
    ensures Flush(canon, ops + [op]) == ApplyMarker(Flush(canon, ops), op)
    ensures FlushMark(mark, ops + [op]) == if op.MarkHead? then op.block else FlushMark(mark, ops)
  {
    assert (ops + [op])[..|ops + [op]| - 1] == ops;
  }

  lemma FlushAssign(canon: map<nat, Block>, mark: Block, ops: seq<Marker>, b: Block)
    ensures Flush(canon, ops + [Assign(Number(b), b)] + [MarkHead(b)]) == Flush(canon, ops)[Number(b) := b]
    ensures FlushMark(mark, ops + [Assign(Number(b), b)] + [MarkHead(b)]) == b
  {
    FlushStep(canon, mark, ops, Assign(Number(b), b));
    FlushStep(canon, mark, ops + [Assign(Number(b), b)], MarkHead(b));
  }

  /** The assignment of the headers `b[lo..hi]` to their numbers. */
  ghost function RangeMap(b: seq<Block>, lo: nat, hi: nat): (r: map<nat, Block>)
    requires |b| > 0
  {
    map n: nat | Number(b[0]) + lo <= n < Number(b[0]) + hi :: AncestorAt(Last(b), n)
  }

  lemma RangeEmpty(m: map<nat, Block>, b: seq<Block>, lo: nat)
    requires |b| > 0
    ensures m + RangeMap(b, lo, lo) == m
  {
  }

  lemma RangeStep(b: seq<Block>, lo: nat, i: nat)
    requires LinkedBatch(b) && lo <= i < |b|
    ensures RangeMap(b, lo, i + 1) == RangeMap(b, lo, i)[Number(b[i]) := b[i]]
  {
    BatchIsPath(b, i, |b| - 1);
  }

  lemma AboveStep(b: Block, lo: nat)
    requires 0 < lo <= Number(b)
    ensures Above(b, lo - 1) == Above(b, lo)[lo := AncestorAt(b, lo)]
  {
  }

  /** A path laid over another one that it meets at `m` need only be laid above it. */
  lemma AboveSuffices(x: Block, last: nat, y: Block, m: nat)
    requires m <= Number(x) && m <= Number(y) <= last && AncestorAt(x, m) == AncestorAt(y, m)
    ensures UpTo(PathMap(x), last) + Above(y, m) == UpTo(PathMap(x), last) + PathMap(y)
  {
    forall n: nat | n <= m
      ensures n in UpTo(PathMap(x), last) && UpTo(PathMap(x), last)[n] == AncestorAt(y, n)
    {
      AncestorTransitive(x, m, n);
      AncestorTransitive(y, m, n);
    }
    LayOver(UpTo(PathMap(x), last), y, m);
  }

  lemma LayOver(base: map<nat, Block>, y: Block, m: nat)
    requires m <= Number(y)
    requires forall n: nat | n <= m :: n in base && base[n] == AncestorAt(y, n)
    ensures base + Above(y, m) == base + PathMap(y)
  {
    var l, r := base + Above(y, m), base + PathMap(y);
    assert l.Keys == r.Keys;
  }

  /** Deletes the canonical assignments above the new head number `last`, stopping at the first free one. */
  method ClearAbove(canon: map<nat, Block>, mark: Block, head: Block, last: nat) returns (ops: seq<Marker>)
    requires canon == PathMap(head)
    ensures Flush(canon, ops) == UpTo(canon, last)
    ensures FlushMark(mark, ops) == mark
  {
    ops := [];
    var i := last + 1;
    while i in canon
      invariant last < i && (i <= Number(head) + 1 || i == last + 1)
      invariant Flush(canon, ops) == map n | n in canon && (n <= last || i <= n) :: canon[n]
      invariant FlushMark(mark, ops) == mark
      decreases Number(head) + 1 - i
    {
      FlushStep(canon, mark, ops, Clear(i));
      ops := ops + [Clear(i)];
      i := i + 1;
    }
  }

  /** Rewrites stale canonical assignments from `from` downwards until the old chain is met. */
  method OverwriteDown(canon: map<nat, Block>, mark: Block, head: Block, last: nat, from: Block, start: seq<Marker>)
    returns (ops: seq<Marker>)
    requires canon == PathMap(head)
    requires Number(from) <= last && Flush(canon, start) == UpTo(canon, last)
    ensures Flush(canon, ops) == UpTo(canon, last) + PathMap(from)
    ensures FlushMark(mark, ops) == FlushMark(mark, start)
  {
    ops := start;
    var b := from;
    assert UpTo(canon, last) + Above(from, Number(from)) == UpTo(canon, last);
    while !(Number(b) in canon && canon[Number(b)] == b)
      invariant Number(b) <= Number(from) && b == AncestorAt(from, Number(b))
      invariant Flush(canon, ops) == UpTo(canon, last) + Above(from, Number(b))
      invariant FlushMark(mark, ops) == FlushMark(mark, start)
      decreases Number(b)
    {
      var n := Number(b);
      FlushStep(canon, mark, ops, Assign(n, b));
      ops := ops + [Assign(n, b)];
      MergeStep(UpTo(canon, last), Above(from, n), n, b);
      AboveStep(from, n);
      AncestorTransitive(from, n, n - 1);
      b := b.parent;
    }
    AboveSuffices(head, last, from, Number(b));
  }

  /** Two blocks that share an ancestor share the path below it. */
  lemma SamePathBelow(x: Block, y: Block, m: nat)
    requires m <= Number(x) && m <= Number(y) && AncestorAt(x, m) == AncestorAt(y, m)
    ensures forall n: nat | n <= m :: AncestorAt(x, n) == AncestorAt(y, n)
  {
    forall n: nat | n <= m
      ensures AncestorAt(x, n) == AncestorAt(y, n)
    {
      AncestorTransitive(x, m, n);
      AncestorTransitive(y, m, n);
    }
  }

  /** Assigns the headers `batch[lo..hi]` to their numbers, marking each as head in passing. */
  method AssignRange(canon: map<nat, Block>, mark: Block, batch: seq<Block>, lo: nat, hi: nat, start: seq<Marker>)
    returns (ops: seq<Marker>)
    requires LinkedBatch(batch) && lo <= hi <= |batch|
    ensures Flush(canon, ops) == Flush(canon, start) + RangeMap(batch, lo, hi)
    ensures FlushMark(mark, ops) == if lo == hi then FlushMark(mark, start) else batch[hi-1]
  {
    ops := start;
    assert |batch| > 0;
    hide *;
    RangeEmpty(Flush(canon, start), batch, lo);
    for i := lo to hi
      invariant Flush(canon, ops) == Flush(canon, start) + RangeMap(batch, lo, i)
      invariant FlushMark(mark, ops) == if lo == i then FlushMark(mark, start) else batch[i-1]
    {
      var b := batch[i];
      RangeStep(batch, lo, i);
      MergeStep(Flush(canon, start), RangeMap(batch, lo, i), Number(b), b);
      FlushAssign(canon, mark, ops, b);
      ops := ops + [Assign(Number(b), b)] + [MarkHead(b)];
    }
  }

  /** Below a batch the last header's path is the path of the first one's parent. */
  lemma PathBelow(b: seq<Block>)
    requires LinkedBatch(b)
    ensures forall n: nat {:trigger AncestorAt(Last(b), n)} | n < Number(b[0]) ::
      AncestorAt(Last(b), n) == AncestorAt(b[0].parent, n)
  {
    BatchIsPath(b, 0, |b| - 1);
    forall n: nat | n < Number(b[0])
      ensures AncestorAt(Last(b), n) == AncestorAt(b[0].parent, n)
    {
      AncestorTransitive(Last(b), Number(b[0]), n);
    }
  }

  lemma RangeJoin(b: seq<Block>, k: nat)
    requires 0 < |b| && k <= |b|
    ensures RangeMap(b, 0, k) + RangeMap(b, k, |b|) == RangeMap(b, 0, |b|)
  {
  }

  /** The first header's parent's path and the batch make up the last header's path. */
  lemma PathJoin(b: seq<Block>)
    requires LinkedBatch(b)
    ensures PathMap(b[0].parent) + RangeMap(b, 0, |b|) == PathMap(Last(b))
  {
    BatchIsPath(b, 0, |b| - 1);
    PathBelow(b);
  }

  lemma Covered(m: map<nat, Block>, p: map<nat, Block>)
    requires m.Keys <= p.Keys
    ensures m + p == p
  {
  }

  /** Everything assigned: below the batch its parent's path, then the batch, in two parts. */
  lemma AssignedPath(m: map<nat, Block>, b: seq<Block>, k: nat)
    requires LinkedBatch(b) && k <= |b|
    requires forall n | n in m :: n <= Number(Last(b))
    ensures m + PathMap(b[0].parent) + RangeMap(b, 0, k) + RangeMap(b, k, |b|) == PathMap(Last(b))
  {
    MergeAssociates(m + PathMap(b[0].parent), RangeMap(b, 0, k), RangeMap(b, k, |b|));
    RangeJoin(b, k);
    MergeAssociates(m, PathMap(b[0].parent), RangeMap(b, 0, |b|));
    PathJoin(b);
    Covered(m, PathMap(Last(b)));
  }

  /** The canonical map as it is left when a winning batch held nothing new: it belongs to the
      batch's last header only if that is the head already. */
  lemma UnmarkedIsWrong(head: Block, b: seq<Block>)
    requires LinkedBatch(b)
    requires TotalDifficulty(Last(b)) == TotalDifficulty(head) && Number(Last(b)) <= Number(head)
    ensures UpTo(PathMap(head), Number(Last(b))) + PathMap(b[0].parent) == PathMap(Last(b)) <==> Last(b) == head
  {
    BatchIsPath(b, 0, |b| - 1);
    var n := Number(Last(b));
    var m := UpTo(PathMap(head), n) + PathMap(b[0].parent);
    if Last(b) == head {
      PathBelow(b);
    } else {
      assert m[n] == AncestorAt(head, n);
      if n < Number(head) {
        AncestorLighter(head, n);
      }
      assert m[n] != PathMap(Last(b))[n];
    }
  }

  /** The lost markers do occur: a stored one-header fork, as heavy as the two-header chain but
      lower, takes over when it is imported again, and its number keeps the old chain's header. */
  lemma MarkersCanBeLost(seal: nat) returns (c: Chain, batch: seq<Block>)
    ensures Good(c) && LinkedBatch(batch) && batch[0].parent in c.stored
    ensures LosesMarkers(c, batch, false)
  {
    var fork := Child(Genesis, 2, [], seal);
    var low := Child(Genesis, 1, [], seal);
    var head := Child(low, 1, [], seal);
    assert TotalDifficulty(low) == 1 && Number(low) == 1;
    var s := {Genesis, fork, low, head};
    c := Chain(s, Tds(s), PathMap(head), head, head);
    batch := [fork];
    FirstOfMembers(batch, 1);
  }

  /** The blocks of a store at one number, on whatever fork. */
  function Level(s: set<Block>, n: nat): (r: set<Block>) {
    set b | b in s && Number(b) == n
  }

  ghost function From(s: set<Block>, n: nat): (r: set<Block>) {
    set b | b in s && Number(b) >= n
  }

  lemma FromShrinks(s: set<Block>, n: nat, b: Block)
    requires b in Level(s, n)
    ensures From(s, n + 1) < From(s, n)
  {
    assert b in From(s, n) && b !in From(s, n + 1);
  }

  /** A parent-linked store has no gap between levels, so nothing lies above an empty one. */
  lemma NothingAboveGap(s: set<Block>, n: nat)
    requires Closed(s) && forall b | b in s :: Number(b) != n
    ensures forall b | b in s :: Number(b) < n
  {
    forall b | b in s
      ensures Number(b) < n
    {
      AncestorStored(s, b, n);
    }
  }

  /** What a store keeps when everything above number `n` is deleted, on every fork. */
  ghost function Cut(s: set<Block>, n: nat): (r: set<Block>) {
    set b | b in s && Number(b) <= n
  }

  lemma CutClosed(s: set<Block>, n: nat)
    requires Closed(s)
    ensures Closed(Cut(s, n))
  {
  }

  /** A chain with everything above number `n` deleted, headed by the canonical header there. */
  ghost function CutChain(c: Chain, n: nat): (d: Chain) {
    Chain(Cut(c.stored, n), Tds(Cut(c.stored, n)), UpTo(c.canon, n), AncestorAt(c.head, n), AncestorAt(c.head, n))
  }

  lemma CutSound(c: Chain, n: nat)
    requires Sound(c) && Canonical(c) && n <= Number(c.head)
    ensures Sound(CutChain(c, n)) && Canonical(CutChain(c, n))
  {
    CutClosed(c.stored, n);
    AncestorStored(c.stored, c.head, n);
    SamePathBelow(c.head, AncestorAt(c.head, n), n);
  }

  /** Deleting all headers and assignments above `n` is cutting there. */
  lemma DeletionCuts(c: Chain, n: nat, gone: set<Block>, cleared: set<nat>)
    requires Sound(c) && gone == From(c.stored, n + 1)
    requires forall k: nat | k in c.canon :: k in cleared <==> k > n
    ensures c.stored - gone == Cut(c.stored, n)
    ensures c.tds - gone == Tds(Cut(c.stored, n))
    ensures c.canon - cleared == UpTo(c.canon, n)
  {
  }

  /** Where a rewind of `c` stands at `head`: nothing is marked for deletion before the first step,
      and all above the head afterwards. */
  ghost predicate Rewinding(c: Chain, head: Block, gone: set<Block>, cleared: set<nat>, origin: bool) {
    && Number(head) <= Number(c.head) && head == AncestorAt(c.head, Number(head))
    && (origin ==> head == c.head && gone == {} && cleared == {})
    && (!origin ==> gone == From(c.stored, Number(head) + 1))
    && (!origin ==> forall n: nat | n in c.canon :: n in cleared <==> n > Number(head))
  }

  lemma RewindStarts(c: Chain)
    ensures Rewinding(c, c.head, {}, {}, true)
  {
  }

  lemma RewindBelow(c: Chain, head: Block, gone: set<Block>, cleared: set<nat>, origin: bool)
    requires Sound(c) && Rewinding(c, head, gone, cleared, origin) && Number(head) > 0
    ensures head.Child? && head in c.stored && Number(head.parent) == Number(head) - 1
  {
    AncestorStored(c.stored, c.head, Number(head));
  }

  lemma RewindStep(c: Chain, head: Block, gone: set<Block>, cleared: set<nat>, origin: bool, level: set<Block>,
                   nums: set<nat>)
    requires Sound(c) && Canonical(c) && Rewinding(c, head, gone, cleared, origin) && head.Child?
    requires level == if origin then From(c.stored, Number(head)) else Level(c.stored, Number(head))
    requires Number(head) in nums && forall n | n in nums :: n >= Number(head)
    ensures Rewinding(c, head.parent, gone + level, cleared + nums, false)
  {
    hide *;
    var n := Number(head);
    RewindNumbers(c, head, gone, cleared, origin);
    FromStep(c.stored, n);
    RewindGone(c, head, gone, cleared, origin);
    ClearedStep(c.canon, Number(c.head), cleared, nums, n, origin);
    RewindHolds(c, head.parent, gone + level, cleared + nums);
  }

  lemma RewindNumbers(c: Chain, head: Block, gone: set<Block>, cleared: set<nat>, origin: bool)
    requires Canonical(c) && Rewinding(c, head, gone, cleared, origin) && head.Child?
    ensures Number(head.parent) == Number(head) - 1 < Number(head) <= Number(c.head)
    ensures AncestorAt(c.head, Number(head.parent)) == head.parent
    ensures forall k: nat :: k in c.canon <==> k <= Number(c.head)
  {
    ParentIsAncestor(head);
    AncestorTransitive(c.head, Number(head), Number(head) - 1);
  }

  lemma RewindGone(c: Chain, head: Block, gone: set<Block>, cleared: set<nat>, origin: bool)
    requires Rewinding(c, head, gone, cleared, origin)
    ensures if origin then gone == {} else gone == From(c.stored, Number(head) + 1)
    ensures if origin then cleared == {} && Number(head) == Number(c.head)
      else forall k: nat | k in c.canon :: k in cleared <==> k > Number(head)
    ensures head == AncestorAt(c.head, Number(head)) && Number(head) <= Number(c.head) && (origin ==> head == c.head)
  {
  }

  lemma RewindHolds(c: Chain, head: Block, gone: set<Block>, cleared: set<nat>)
    requires Number(head) <= Number(c.head) && head == AncestorAt(c.head, Number(head))
    requires gone == From(c.stored, Number(head) + 1)
    requires forall k: nat | k in c.canon :: k in cleared <==> k > Number(head)
    ensures Rewinding(c, head, gone, cleared, false)
  {
  }

  lemma ClearedStep(canon: map<nat, Block>, top: nat, cleared: set<nat>, nums: set<nat>, n: nat, origin: bool)
    requires forall k: nat :: k in canon <==> k <= top
    requires n in nums && forall k | k in nums :: k >= n
    requires if origin then cleared == {} && n == top else forall k: nat | k in canon :: k in cleared <==> k > n
    ensures forall k: nat | k in canon :: k in cleared + nums <==> k > n - 1
  {
  }

  lemma FromStep(s: set<Block>, n: nat)
    ensures From(s, n + 1) + Level(s, n) == From(s, n)
  {
  }

  /** The target of a rewind that has come from `top` down to number `low`: the number asked for, or the lowest that
      the callback has demanded on the way. */
  ghost predicate Obeyed(force: Block -> Option<nat>, top: Block, low: nat, number: nat, target: nat) {
    && target <= number
    && (forall n: nat {:trigger AncestorAt(top, n)} | low <= n < Number(top) ::
          force(AncestorAt(top, n)).Some? ==> target <= force(AncestorAt(top, n)).value)
    && (target == number ||
          exists n: nat {:trigger AncestorAt(top, n)} ::
            low <= n < Number(top) && force(AncestorAt(top, n)) == Some(target))
  }

  /** The target after a demand. */
  function Lowered(target: nat, demand: Option<nat>): (r: nat) {
    if demand.Some? && demand.value < target then demand.value else target
  }

  lemma ObeyedStarts(force: Block -> Option<nat>, top: Block, number: nat)
    ensures Obeyed(force, top, Number(top), number, number)
  {
  }

  lemma ObeyedStep(force: Block -> Option<nat>, top: Block, low: nat, number: nat, target: nat, b: Block)
    requires Obeyed(force, top, low, number, target) && 0 < low <= Number(top) && b == AncestorAt(top, low - 1)
    ensures Obeyed(force, top, low - 1, number, Lowered(target, force(b)))
  {
    hide AncestorAt, Number;
    var next := Lowered(target, force(b));
    if next == target && target != number {
      var n: nat :| low <= n < Number(top) && force(AncestorAt(top, n)) == Some(target);
    }
    forall n: nat | low - 1 <= n < Number(top) && force(AncestorAt(top, n)).Some?
      ensures next <= force(AncestorAt(top, n)).value
    {
      if n >= low {
        assert target <= force(AncestorAt(top, n)).value;
      }
    }
  }

  /** How many steps back from `b` the canonical chain of `head` is met. */
  function Detour(b: Block, head: Block): (d: nat)
    ensures d <= Number(b)
  {
    if Number(b) <= Number(head) && AncestorAt(head, Number(b)) == b then 0
    else GenesisCommon(head); 1 + Detour(b.parent, head)
  }

  lemma ParentIsAncestor(b: Block)
    ensures b.Child? <==> Number(b) > 0
    ensures b.Child? ==> AncestorAt(b, Number(b) - 1) == b.parent
  {
  }

  /** The canonical chain is met there, and not before. */
  lemma {:induction false} DetourMeets(b: Block, head: Block)
    ensures var n := Number(b) - Detour(b, head);
      n <= Number(head) && AncestorAt(b, n) == AncestorAt(head, n)
    ensures forall k: nat | Number(b) - Detour(b, head) < k <= Number(b) ::
      !(k <= Number(head) && AncestorAt(b, k) == AncestorAt(head, k))
  {
    if !(Number(b) <= Number(head) && AncestorAt(head, Number(b)) == b) {
      GenesisCommon(head);
      DetourMeets(b.parent, head);
    }
  }

  /** Stepping back from a block off the canonical chain shortens the detour by one. */
  lemma DetourStep(b: Block, head: Block, goal: nat)
    requires goal < Number(b)
    ensures b.Child? && Number(b.parent) == Number(b) - 1 && AncestorAt(b, Number(b) - 1) == b.parent
    ensures AncestorAt(b.parent, goal) == AncestorAt(b, goal)
    ensures if Number(b) in PathMap(head) && PathMap(head)[Number(b)] == b
            then Detour(b, head) == 0 && Number(b) <= Number(head) && AncestorAt(head, Number(b)) == b
            else Detour(b, head) == 1 + Detour(b.parent, head)
  {
  }

  /** `a` steps are left of a walk back from `block`, and `b` is where it has come to. */
  ghost predicate Walking(stored: set<Block>, head: Block, block: Block, ancestor: nat, b: Block, a: nat) {
    && a <= ancestor <= Number(block) && Number(b) == Number(block) - ancestor + a
    && AncestorAt(b, Number(block) - ancestor) == AncestorAt(block, Number(block) - ancestor)
    && (block in stored <==> b in stored) && (block !in stored ==> a == ancestor)
    && Detour(block, head) == Detour(b, head) + (ancestor - a)
  }

  lemma WalkStarts(stored: set<Block>, head: Block, block: Block, ancestor: nat)
    requires ancestor <= Number(block)
    ensures Walking(stored, head, block, ancestor, block, ancestor)
  {
  }

  /** One step: the walk is over if `b` is canonical, and otherwise goes on at the parent. */
  lemma WalkStep(stored: set<Block>, head: Block, block: Block, ancestor: nat, b: Block, a: nat)
    requires Walking(stored, head, block, ancestor, b, a) && a > 0 && Closed(stored) && head in stored
    ensures b.Child? && Number(b.parent) == Number(b) - 1 >= a - 1
    ensures if Number(b) in PathMap(head) && PathMap(head)[Number(b)] == b then
        && Number(b) - a in PathMap(head) && PathMap(head)[Number(b) - a] == AncestorAt(block, Number(block) - ancestor)
        && block in stored && Min(ancestor, Detour(block, head)) == ancestor - a
      else
        && Min(ancestor, Detour(block, head)) > ancestor - a
        && (b in stored ==> Walking(stored, head, block, ancestor, b.parent, a - 1))
        && (b !in stored ==> block !in stored)
  {
    hide *;
    WalkHere(stored, head, block, ancestor, b, a);
    if Number(b) in PathMap(head) && PathMap(head)[Number(b)] == b {
      WalkJumps(stored, head, block, ancestor, b, a);
    } else {
      WalkGoesOn(stored, head, block, ancestor, b, a);
    }
  }

  lemma WalkHere(stored: set<Block>, head: Block, block: Block, ancestor: nat, b: Block, a: nat)
    requires Walking(stored, head, block, ancestor, b, a) && a > 0
    ensures b.Child? && Number(b.parent) == Number(b) - 1 >= a - 1 && a <= Number(b)
  {
    hide Detour, AncestorAt, Closed, PathMap;
  }

  lemma WalkJumps(stored: set<Block>, head: Block, block: Block, ancestor: nat, b: Block, a: nat)
    requires Walking(stored, head, block, ancestor, b, a) && a > 0 && Closed(stored) && head in stored && a <= Number(b)
    requires Number(b) in PathMap(head) && PathMap(head)[Number(b)] == b
    ensures Number(b) - a in PathMap(head)
    ensures PathMap(head)[Number(b) - a] == AncestorAt(block, Number(block) - ancestor)
    ensures block in stored && Min(ancestor, Detour(block, head)) == ancestor - a
  {
    hide Detour, AncestorAt, Number, Closed, PathMap, TotalDifficulty;
    DetourStep(b, head, Number(block) - ancestor);
    CanonicalBelow(stored, head, b, Number(block) - ancestor);
  }

  lemma WalkGoesOn(stored: set<Block>, head: Block, block: Block, ancestor: nat, b: Block, a: nat)
    requires Walking(stored, head, block, ancestor, b, a) && a > 0 && Closed(stored) && b.Child?
    requires !(Number(b) in PathMap(head) && PathMap(head)[Number(b)] == b)
    ensures Min(ancestor, Detour(block, head)) > ancestor - a
    ensures b in stored ==> Walking(stored, head, block, ancestor, b.parent, a - 1)
    ensures b !in stored ==> block !in stored
  {
    hide Detour, AncestorAt, Number, Closed, PathMap, TotalDifficulty;
    DetourStep(b, head, Number(block) - ancestor);
    if b in stored {
      AncestorStored(stored, b, Number(b) - 1);
    }
  }

  lemma CanonicalBelow(stored: set<Block>, head: Block, b: Block, n: nat)
    requires Closed(stored) && head in stored && n <= Number(b) <= Number(head) && AncestorAt(head, Number(b)) == b
    ensures b in stored && n in PathMap(head) && PathMap(head)[n] == AncestorAt(b, n)
  {
    AncestorTransitive(head, Number(b), n);
    AncestorStored(stored, head, Number(b));
  }

  lemma WalkEnds(stored: set<Block>, head: Block, block: Block, ancestor: nat, b: Block)
    requires Walking(stored, head, block, ancestor, b, 0)
    ensures b == AncestorAt(block, Number(block) - ancestor) && Min(ancestor, Detour(block, head)) == ancestor
    ensures ancestor == 0 || block in stored
  {
  }

  /** Where the storing of a batch stands after its first `i` headers. */
  ghost predicate Storing(s: set<Block>, b: seq<Block>, ptd: nat, i: nat, stored: set<Block>, tds: map<Block, nat>,
                          td: nat, first: int, inserted: seq<Block>) {
    && i <= |b| && -1 <= first < i
    && stored == s + FirstOf(b, i) && tds == Tds(stored)
    && td == (if i == 0 then ptd else TotalDifficulty(b[i-1]))
    && (first == -1 ==> inserted == [] && FirstOf(b, i) <= s)
    && (first >= 0 ==> b[first] !in s && FirstOf(b, first) <= s && inserted == b[first..i])
  }

  lemma StoringStarts(s: set<Block>, b: seq<Block>, ptd: nat)
    ensures Storing(s, b, ptd, 0, s, Tds(s), ptd, -1, [])
  {
    assert s + FirstOf(b, 0) == s;
  }

  lemma StoringStep(s: set<Block>, b: seq<Block>, ptd: nat, i: nat, stored: set<Block>, tds: map<Block, nat>,
                    td: nat, first: int, inserted: seq<Block>)
    requires Closed(s) && LinkedBatch(b) && i < |b| && ptd == TotalDifficulty(b[0].parent)
    requires Storing(s, b, ptd, i, stored, tds, td, first, inserted)
    ensures b[i].Child?
    ensures var next := td + b[i].difficulty;
      if b[i] in stored then Storing(s, b, ptd, i + 1, stored, tds, next, first, inserted)
      else Storing(s, b, ptd, i + 1, stored + {b[i]}, tds[b[i] := next], next, if first < 0 then i else first,
                   inserted + [b[i]])
  {
    hide Closed, Tds;
    assert i > 0 ==> ChildOfPrevious(b, i);
    if b[i] in stored {
      KnownIsPrefix(s, b, i);
      if first >= 0 {
        FirstOfHas(b, i + 1, first);
      }
      assert stored == s + FirstOf(b, i + 1);
    } else {
      TdsStep(stored, b[i]);
      assert first >= 0 ==> inserted + [b[i]] == b[first..i+1];
      assert stored + {b[i]} == s + FirstOf(b, i + 1);
    }
  }

  lemma StoringEnds(s: set<Block>, b: seq<Block>, ptd: nat, stored: set<Block>, tds: map<Block, nat>, td: nat,
                    first: int, inserted: seq<Block>)
    requires Closed(s) && LinkedBatch(b) && Storing(s, b, ptd, |b|, stored, tds, td, first, inserted)
    ensures stored == s + Elements(b) && tds == Tds(stored) && td == TotalDifficulty(Last(b))
    ensures -1 <= first < |b| && (first == -1 <==> Elements(b) <= s)
    ensures first >= 0 ==> b[first] !in s && (first > 0 ==> b[0] in s)
    ensures inserted == (if first == -1 then [] else b[first..]) && |inserted| == |Elements(b) - s|
  {
    hide Closed, Tds;
    NewHeaders(s, b, first);
    if first >= 0 {
      FirstOfHas(b, |b|, first);
      if first > 0 {
        FirstOfHas(b, first, 0);
      }
    }
  }

  datatype WriteResult =
    | Nothing
    | UnknownAncestor
    | Wrote(status: WriteStatus, ignored: nat, imported: nat)

  class HeaderChain {
    var stored: set<Block>
    var tds: map<Block, nat>
    var canon: map<nat, Block>
    var mark: Block
    var head: Block

    ghost function View(): Chain
      reads this
    {
      Chain(stored, tds, canon, mark, head)
    }

    lemma SoundParts()
      requires Sound(View())
      ensures Closed(stored) && tds == Tds(stored)
    {
    }

    /** The first phase of writing: headers and total difficulties go to the store. Returns the
        index of the first header that was new (-1 if none was), the new headers, and the total
        difficulty of the last. */
    method StoreBatch(batch: seq<Block>, ptd: nat) returns (firstInserted: int, inserted: seq<Block>, newTd: nat)
      requires Sound(View()) && LinkedBatch(batch) && batch[0].parent in stored
      requires ptd == TotalDifficulty(batch[0].parent)
      modifies `stored, `tds
      ensures stored == old(stored) + Elements(batch)
      ensures tds == Tds(stored)
      ensures newTd == TotalDifficulty(Last(batch))
      ensures -1 <= firstInserted < |batch|
      ensures firstInserted == -1 <==> Elements(batch) <= old(stored)
      ensures firstInserted >= 0 ==>
        batch[firstInserted] !in old(stored) && (firstInserted > 0 ==> batch[0] in old(stored))
      ensures inserted == if firstInserted == -1 then [] else batch[firstInserted..]
      ensures |inserted| == |Elements(batch) - old(stored)|
    {
      hide *;
      firstInserted, inserted, newTd := -1, [], ptd;
      ghost var s := stored;
      SoundParts();
      var newStored, newTds: map<Block, nat> := stored, tds;
      StoringStarts(s, batch, ptd);
      for i := 0 to |batch|
        invariant Storing(s, batch, ptd, i, newStored, newTds, newTd, firstInserted, inserted)
      {
        var header := batch[i];
        StoringStep(s, batch, ptd, i, newStored, newTds, newTd, firstInserted, inserted);
        newTd := newTd + header.difficulty;
        if header !in newStored {
          newTds := newTds[header := newTd];
          newStored := newStored + {header};
          inserted := inserted + [header];
          if firstInserted < 0 {
            firstInserted := i;
          }
        }
      }
      StoringEnds(s, batch, ptd, newStored, newTds, newTd, firstInserted, inserted);
      stored, tds := newStored, newTds;
    }

    /** The second phase, when the batch won: the markers to flush. */
    method CollectMarkers(batch: seq<Block>, firstInserted: int) returns (ops: seq<Marker>)
      requires canon == PathMap(head) && LinkedBatch(batch)
      requires -1 <= firstInserted < |batch|
      requires head == batch[0].parent ==> firstInserted == 0
      ensures firstInserted >= 0 ==> Flush(canon, ops) == PathMap(Last(batch)) && FlushMark(mark, ops) == Last(batch)
      ensures firstInserted == -1 ==>
        && FlushMark(mark, ops) == mark
        && Flush(canon, ops) == UpTo(canon, Number(Last(batch))) + PathMap(batch[0].parent)
    {
      ops := [];
      BatchIsPath(batch, 0, |batch| - 1);
      hide AncestorAt;
      if batch[0].parent != head {
        ops := ClearAbove(canon, mark, head, Number(Last(batch)));
        ops := OverwriteDown(canon, mark, head, Number(Last(batch)), batch[0].parent, ops);
        if firstInserted >= 0 {
          AssignedPath(UpTo(canon, Number(Last(batch))), batch, firstInserted);
          ops := AssignRange(canon, mark, batch, 0, firstInserted, ops);
        }
      } else {
        PathJoin(batch);
      }
      if firstInserted >= 0 {
        ops := AssignRange(canon, mark, batch, firstInserted, |batch|, ops);
      }
    }

    /** Flushes the markers and moves the head. `c` is the chain as it was before the batch was stored. */
    method Adopt(batch: seq<Block>, firstInserted: int, ghost c: Chain)
      requires Good(c) && LinkedBatch(batch)
      requires canon == c.canon && mark == c.mark && head == c.head
      requires -1 <= firstInserted < |batch|
      requires firstInserted == -1 <==> Elements(batch) <= c.stored
      requires firstInserted > 0 ==> batch[0] in c.stored
      requires Wins(head, batch, true)
      modifies `canon, `mark, `head
      ensures head == Last(batch)
      ensures canon == PathMap(head) && mark == head <==> firstInserted >= 0 || head == c.head
    {
      assert Heaviest(c);
      assert batch[0].parent == head ==> batch[0] !in c.stored;
      FirstOfMembers(batch, |batch|);
      var ops := CollectMarkers(batch, firstInserted);
      canon, mark := Flush(canon, ops), FlushMark(mark, ops);
      if firstInserted == -1 {
        UnmarkedIsWrong(head, batch);
      }
      head := Last(batch);
    }

    /** WriteHeaders: a batch is stored whether it wins or not; if it wins the fork choice it becomes
        canonical. The chain that results is the intended one for every batch except one that loses
        its markers, and for those, and only those, the canonical map is left wrong. */
    method WriteHeaders(batch: seq<Block>, coin: bool) returns (r: WriteResult)
      requires Good(View())
      requires batch != [] ==> LinkedBatch(batch)
      modifies this
      ensures batch == [] ==> r == Nothing && View() == old(View())
      ensures r == UnknownAncestor <==> batch != [] && batch[0].parent !in old(stored)
      ensures r == UnknownAncestor ==> View() == old(View())
      ensures r.Wrote? ==> Sound(View()) && Heaviest(View())
      ensures r.Wrote? ==> (Canonical(View()) <==> !LosesMarkers(old(View()), batch, coin))
      ensures r.Wrote? && Canonical(View()) ==> View() == Written(old(View()), batch, coin)
      ensures r.Wrote? ==> r.ignored + r.imported == |batch| && (r.imported == 0 <==> Elements(batch) <= old(stored))
      ensures r.Wrote? ==> r.imported == |Elements(batch) - old(stored)|
      ensures r.Wrote? ==> (r.status == CanonStat <==> r.imported > 0 && Wins(old(head), batch, coin))
      ensures r.Wrote? ==> (r.status == SideStat <==> r.imported > 0 && !Wins(old(head), batch, coin))
      ensures r.Wrote? ==> (r.status == NonStat <==> r.imported == 0)
      ensures r.Wrote? ==> stored == old(stored) + Elements(batch) && tds == Tds(stored)
      ensures r.Wrote? ==> head == if Wins(old(head), batch, coin) then Last(batch) else old(head)
    {
      if batch == [] {
        return Nothing;
      }
      if batch[0].parent !in tds {
        return UnknownAncestor;
      }
      ghost var c := View();
      WrittenGood(c, batch, coin);
      var firstInserted, inserted, newTd := StoreBatch(batch, tds[batch[0].parent]);
      var localTd := tds[head];
      var reorg := newTd > localTd;
      if !reorg && newTd == localTd {
        if Number(Last(batch)) < Number(head) {
          reorg := true;
        } else if Number(Last(batch)) == Number(head) {
          reorg := coin;
        }
      }
      assert reorg == Wins(c.head, batch, coin);
      var status := SideStat;
      if reorg {
        Adopt(batch, firstInserted, c);
        status := CanonStat;
      }
      if inserted == [] {
        status := NonStat;
      }
      r := Wrote(status, |batch| - |inserted|, |inserted|);
    }

    /** The loop of GetAncestor: single steps back until the canonical chain is met. */
    method WalkBack(block: Block, ancestor: nat, allowance: nat) returns (r: Option<Block>, left: nat)
      requires Closed(stored) && head in stored && canon == PathMap(head) && ancestor <= Number(block)
      ensures r.Some? ==> r.value == AncestorAt(block, Number(block) - ancestor)
      ensures r.Some? <==> ancestor == 0 || (block in stored && Min(ancestor, Detour(block, head)) <= allowance)
      ensures r.Some? ==> left == allowance - Min(ancestor, Detour(block, head))
    {
      hide AncestorAt, Detour, Number, Closed, PathMap, TotalDifficulty, Walking, Min;
      left := allowance;
      var b, a, number := block, ancestor, Number(block);
      WalkStarts(stored, head, block, ancestor);
      while a != 0
        invariant 0 <= a <= ancestor && Walking(stored, head, block, ancestor, b, a)
        invariant number == Number(b) && number >= a && left == allowance - (ancestor - a)
      {
        WalkStep(stored, head, block, ancestor, b, a);
        if number in canon && canon[number] == b {
          return Some(canon[number - a]), left;
        }
        if left == 0 {
          return None, left;
        }
        left, a := left - 1, a - 1;
        if b !in stored {
          return None, left;
        }
        b, number := b.parent, number - 1;
      }
      WalkEnds(stored, head, block, ancestor, b);
      return Some(b), left;
    }

    /** GetAncestor: the ancestor `ancestor` steps back, jumping along the canonical map once it is
        met. A result is the true ancestor; one is given exactly when the header is stored and the
        canonical chain, or the ancestor, is met within the allowance of single steps. */
    method GetAncestor(block: Block, ancestor: nat, allowance: nat) returns (r: Option<Block>, left: nat)
      requires Closed(stored) && head in stored && canon == PathMap(head)
      ensures r.Some? ==> ancestor <= Number(block) && r.value == AncestorAt(block, Number(block) - ancestor)
      ensures r.Some? <==>
        || ancestor == 0
        || (ancestor == 1 && ancestor <= Number(block) && block in stored)
        || (ancestor <= Number(block) && block in stored && Min(ancestor, Detour(block, head)) <= allowance)
      ensures r.Some? ==> left == if ancestor == 1 then allowance else allowance - Min(ancestor, Detour(block, head))
    {
      if ancestor > Number(block) {
        return None, allowance;
      }
      if ancestor == 1 {
        ParentIsAncestor(block);
        return if block in stored then Some(block.parent) else None, allowance;
      }
      r, left := WalkBack(block, ancestor, allowance);
    }

    /** The numbers above `num` that hold any header at all, highest first. */
    method LevelsAbove(num: nat) returns (nums: seq<nat>, ghost top: nat)
      requires Closed(stored)
      ensures top > num && (forall n: nat :: n in nums <==> num < n < top)
      ensures forall n | n in nums :: Level(stored, n) != {}
      ensures forall b | b in stored :: Number(b) < top
    {
      nums := [];
      var n := num + 1;
      while Level(stored, n) != {}
        invariant n > num && (forall k: nat :: k in nums <==> num < k < n)
        invariant forall k | k in nums :: Level(stored, k) != {}
        decreases From(stored, n)
      {
        ghost var b :| b in Level(stored, n);
        FromShrinks(stored, n, b);
        nums := [n] + nums;
        n := n + 1;
      }
      assert forall b | b in stored :: Number(b) == n ==> b in Level(stored, n);
      NothingAboveGap(stored, n);
      top := n;
    }

    /** All headers at the given numbers; a number without any stands for the header just left. */
    method HeadersAt(nums: seq<nat>, hdr: Block) returns (gone: set<Block>)
      ensures (forall n | n in nums :: Level(stored, n) != {}) ==> gone == set b | b in stored && Number(b) in nums
    {
      gone := {};
      for i := 0 to |nums|
        invariant (forall n | n in nums :: Level(stored, n) != {}) ==>
          gone == set b | b in stored && Number(b) in nums[..i]
      {
        var hashes := Level(stored, nums[i]);
        if hashes == {} {
          hashes := {hdr};
        }
        gone := gone + hashes;
      }
    }

    /** One step of rewinding: the head moves to its parent; returned are the headers to delete, and
        their numbers, for the first step including whatever lies above the starting point. */
    method StepBack(origin: bool) returns (level: set<Block>, nums: seq<nat>)
      requires Closed(stored) && head in stored && head.Child?
      modifies `mark, `head
      ensures head == old(head).parent && mark == head
      ensures level == if origin then From(stored, Number(old(head))) else Level(stored, Number(old(head)))
      ensures Number(old(head)) in nums && forall n | n in nums :: n >= Number(old(head))
      ensures !origin ==> nums == [Number(old(head))]
    {
      var hdr, num := head, Number(head);
      assert hdr in Level(stored, num);
      var parent := if hdr.parent in stored then hdr.parent else Genesis;
      mark, head := hdr.parent, parent;
      nums := [];
      if origin {
        ghost var top;
        nums, top := LevelsAbove(num);
      }
      nums := nums + [num];
      level := HeadersAt(nums, hdr);
    }

    /** SetHead: rewinds the head one header at a time, deleting every header above it on all forks,
        and once more whatever lies above the starting point. `force` is the update callback's demand
        to rewind below the target, if it makes one on reaching a header. */
    method SetHead(number: nat, force: Block -> Option<nat>) returns (target: nat)
      requires Sound(View()) && Canonical(View())
      modifies this
      ensures Sound(View()) && Canonical(View())
      ensures number >= Number(old(head)) ==> target == number && View() == old(View())
      ensures number < Number(old(head)) ==> target <= number && View() == CutChain(old(View()), target)
      ensures target == number || exists b :: force(b) == Some(target)
      ensures number < Number(old(head)) ==> Obeyed(force, old(head), target, number, target)
    {
      hide Closed, AncestorAt, Number, From, Level, Rewinding, Obeyed;
      target := number;
      ghost var c := View();
      ObeyedStarts(force, head, number);
      RewindStarts(c);
      var gone: set<Block>, cleared: set<nat>, origin := {}, {}, true;
      while Number(head) > target
        invariant stored == c.stored && tds == c.tds && canon == c.canon && mark == head
        invariant Rewinding(c, head, gone, cleared, origin)
        invariant target <= number && (target == number || exists b :: force(b) == Some(target))
        invariant Obeyed(force, c.head, Number(head), number, target)
        invariant if origin then target == number else target <= Number(head) && number < Number(c.head)
        decreases Number(head)
      {
        RewindBelow(c, head, gone, cleared, origin);
        RewindNumbers(c, head, gone, cleared, origin);
        ghost var before := head;
        var level, nums := StepBack(origin);
        ObeyedStep(force, c.head, Number(before), number, target, head);
        match force(head) {
          case Some(n) => if n < target { target := n; }
          case None =>
        }
        var numbers := set n | n in nums;
        RewindStep(c, before, gone, cleared, origin, level, numbers);
        origin := false;
        gone := gone + level;
        cleared := cleared + numbers;
      }
      RewindGone(c, head, gone, cleared, origin);
      if !origin {
        CutSound(c, target);
        DeletionCuts(c, target, gone, cleared);
      } else {
        assert stored - gone == stored && tds - gone == tds && canon - cleared == canon;
      }
      stored := stored - gone;
      tds := tds - gone;
      canon := canon - cleared;
    }
  }
}
