/** core/tx_list.go: the price heap over the pool's remote transactions. Entries of transactions that left the
    pool stay in the heap until they surface or a rebuild drops them, yet every answer is that of a full scan
    of the live remote transactions. */
module PricedLists {
  import opened Common
  import opened Transactions
  import opened TxLookups
  import Heaps

  /** The cheaper transaction first; of equally priced ones the higher nonce first. */
  predicate Less(a: Tx, b: Tx) {
    a.price < b.price || (a.price == b.price && a.nonce > b.nonce)
  }

  function PriceKey(tx: Tx): int {
    tx.price * TWO_64 - tx.nonce
  }

  lemma KeyOrder(a: Tx, b: Tx)
    ensures Less(a, b) <==> PriceKey(a) < PriceKey(b)
    ensures PriceKey(a) <= PriceKey(b) ==> a.price <= b.price
  {
  }

  function SeqSlots(s: seq<Tx>): (r: nat) {
    if s == [] then 0 else SeqSlots(s[..|s|-1]) + NumSlots(s[|s|-1])
  }

  lemma NoSlots(s: seq<Tx>)
    ensures SeqSlots(s[..0]) == 0
  {
  }

  lemma {:induction false} SlotsPrefix(s: seq<Tx>, i: nat)
    requires i < |s|
    ensures SeqSlots(s[..i]) + NumSlots(s[i]) == SeqSlots(s[..i+1]) <= SeqSlots(s)
    decreases |s|
  {
    assert s[..i+1][..i] == s[..i];
    if i + 1 < |s| {
      var t := s[..|s|-1];
      SlotsPrefix(t, i);
      assert t[..i] == s[..i] && t[..i+1] == s[..i+1];
    } else {
      assert s[..i+1] == s;
    }
  }

  /** Every live transaction is in the heap or among those just taken out, and the counter of stale entries
      covers what is in excess of the live ones. */
  ghost predicate Holds(heap: seq<Tx>, stales: int, live: set<Tx>, out: seq<Tx>) {
    && Heaps.IsHeap(heap, PriceKey)
    && (forall tx | tx in live :: tx in heap || tx in out)
    && stales >= |heap| + |out| - |live|
  }

  ghost predicate Tracks(heap: seq<Tx>, stales: int, live: set<Tx>) {
    Holds(heap, stales, live, [])
  }

  /** `rest` is the heap without its first entry. */
  ghost predicate Popped(heap: seq<Tx>, rest: seq<Tx>) {
    |heap| > 0 && Heaps.IsHeap(rest, PriceKey) && multiset(rest) == multiset(heap) - multiset{heap[0]}
  }

  lemma PoppedMembers(heap: seq<Tx>, rest: seq<Tx>)
    requires Popped(heap, rest)
    ensures |rest| == |heap| - 1
    ensures forall tx | tx in heap :: tx == heap[0] || tx in rest
    ensures forall tx | tx in rest :: tx in heap
  {
    forall tx
      ensures tx in heap ==> tx == heap[0] || tx in rest
      ensures tx in rest ==> tx in heap
    {
      assert tx in heap <==> tx in multiset(heap);
      assert tx in rest <==> tx in multiset(rest);
    }
    assert |multiset(rest)| == |multiset(heap)| - 1;
  }

  lemma PopStale(heap: seq<Tx>, rest: seq<Tx>, stales: int, live: set<Tx>, out: seq<Tx>)
    requires Holds(heap, stales, live, out) && Popped(heap, rest) && heap[0] !in live
    ensures Holds(rest, stales - 1, live, out)
  {
    PoppedMembers(heap, rest);
  }

  lemma PopLive(heap: seq<Tx>, rest: seq<Tx>, stales: int, live: set<Tx>, out: seq<Tx>)
    requires Holds(heap, stales, live, out) && Popped(heap, rest)
    ensures Holds(rest, stales, live, out + [heap[0]])
  {
    PoppedMembers(heap, rest);
    forall tx | tx in live
      ensures tx in rest || tx in out + [heap[0]]
    {
    }
  }

  lemma PushBack(heap: seq<Tx>, more: seq<Tx>, stales: int, live: set<Tx>, out: seq<Tx>)
    requires Holds(heap, stales, live, out) && out != []
    requires Heaps.IsHeap(more, PriceKey) && multiset(more) == multiset(heap) + multiset{out[0]}
    ensures Holds(more, stales, live, out[1..])
  {
    assert |multiset(more)| == |multiset(heap)| + 1;
    assert out == [out[0]] + out[1..];
    forall tx | tx in live
      ensures tx in more || tx in out[1..]
    {
      assert tx in heap <==> tx in multiset(heap);
      assert tx in more <==> tx in multiset(more);
      assert out[0] in multiset(more);
    }
  }

  lemma {:induction false} FewerElements(out: seq<Tx>, live: set<Tx>, left: set<Tx>)
    requires forall tx | tx in live :: tx in left || tx in out
    ensures |live| <= |left| + |out|
    decreases |out|
  {
    if out == [] {
      SubsetSize(live, left);
    } else {
      var tx := out[|out|-1];
      assert out == out[..|out|-1] + [tx];
      FewerElements(out[..|out|-1], live - {tx}, left);
      if tx in live {
        assert live == (live - {tx}) + {tx};
      } else {
        assert live == live - {tx};
      }
    }
  }

  /** Once what was taken out has left the pool, the heap tracks what is left. */
  lemma OutIsGone(heap: seq<Tx>, stales: int, live: set<Tx>, out: seq<Tx>, left: set<Tx>)
    requires Holds(heap, stales, live, out)
    requires forall tx :: tx in left <==> tx in live && tx !in out
    ensures Tracks(heap, stales, left)
  {
    FewerElements(out, live, left);
  }

  lemma FirstCheapest(heap: seq<Tx>)
    requires Heaps.IsHeap(heap, PriceKey) && |heap| > 0
    ensures forall tx | tx in heap :: PriceKey(heap[0]) <= PriceKey(tx)
  {
    forall tx | tx in heap
      ensures PriceKey(heap[0]) <= PriceKey(tx)
    {
      var k: nat :| k < |heap| && heap[k] == tx;
      Heaps.FirstIsLeast(heap, PriceKey, k);
    }
  }

  /** All of the live transactions together take no more slots than a sequence they all occur in. */
  lemma {:induction false} SlotsWithin(live: set<Tx>, s: seq<Tx>)
    requires forall tx | tx in live :: tx in s
    ensures SlotSum(live) <= SeqSlots(s)
    decreases |s|
  {
    if s == [] {
      assert live == {};
    } else {
      var tx := s[|s|-1];
      assert s == s[..|s|-1] + [tx];
      SlotsWithin(live - {tx}, s[..|s|-1]);
      if tx in live {
        SlotSumWithout(live, tx);
      } else {
        assert live == live - {tx};
      }
    }
  }

  ghost predicate Distinct(s: seq<Tx>) {
    forall i, j | 0 <= i < j < |s| :: s[i] != s[j]
  }

  /** Dropping transactions frees the slots of each exactly when none is listed twice, and fewer otherwise. */
  lemma {:induction false} DropFrees(all: set<Tx>, drop: seq<Tx>, after: set<Tx>)
    requires forall tx | tx in drop :: tx in all
    requires forall tx :: tx in after <==> tx in all && tx !in drop
    ensures SlotSum(after) + SeqSlots(drop) >= SlotSum(all)
    ensures SlotSum(after) + SeqSlots(drop) == SlotSum(all) <==> Distinct(drop)
    decreases |drop|
  {
    if drop == [] {
      assert after == all;
    } else {
      var k := |drop| - 1;
      var rest, tx := drop[..k], drop[k];
      assert drop == rest + [tx];
      assert Distinct(drop) <==> Distinct(rest) && tx !in rest by { DistinctPush(rest, tx); }
      if tx in rest {
        DropFrees(all, rest, after);
      } else {
        DropFrees(all, rest, after + {tx});
        SlotSumWithout(after + {tx}, tx);
        assert after + {tx} - {tx} == after;
      }
    }
  }

  lemma DistinctEmpty()
    ensures Distinct([])
  {
  }

  lemma DistinctPush(s: seq<Tx>, tx: Tx)
    ensures Distinct(s + [tx]) <==> Distinct(s) && tx !in s
  {
    var t := s + [tx];
    if Distinct(t) {
      assert forall i | 0 <= i < |s| :: t[i] == s[i] && t[i] != t[|s|];
    }
  }

  /** No live transaction has two entries in the heap. */
  ghost predicate LiveOnce(heap: seq<Tx>, live: set<Tx>) {
    forall tx | tx in live :: multiset(heap)[tx] <= 1
  }

  /** The entries taken out and those left are entries of the heap as it was. */
  ghost predicate Among(out: seq<Tx>, left: seq<Tx>, heap: seq<Tx>) {
    multiset(out) + multiset(left) <= multiset(heap)
  }

  lemma AmongStarts(heap: seq<Tx>)
    ensures Among([], heap, heap)
  {
  }

  lemma AmongStep(out: seq<Tx>, left: seq<Tx>, rest: seq<Tx>, heap: seq<Tx>)
    requires Among(out, left, heap) && Popped(left, rest)
    ensures Among(out, rest, heap) && Among(out + [left[0]], rest, heap)
  {
    assert left[0] in multiset(left);
    assert multiset(out + [left[0]]) == multiset(out) + multiset{left[0]};
  }

  lemma AmongOnce(left: seq<Tx>, heap: seq<Tx>, live: set<Tx>)
    requires Among([], left, heap)
    ensures LiveOnce(heap, live) ==> LiveOnce(left, live)
  {
    assert forall tx :: multiset(left)[tx] <= multiset(heap)[tx];
  }

  /** Live transactions with one entry each are taken out once. */
  lemma AmongDistinct(out: seq<Tx>, left: seq<Tx>, heap: seq<Tx>, live: set<Tx>)
    requires Among(out, left, heap) && LiveOnce(heap, live) && forall tx | tx in out :: tx in live
    ensures Distinct(out)
  {
    forall i, j | 0 <= i < j < |out|
      ensures out[i] != out[j]
    {
      assert out == out[..j] + [out[j]] + out[j+1..];
      assert out[j] in out && multiset(out)[out[j]] <= multiset(heap)[out[j]];
      assert multiset(out)[out[j]] == multiset(out[..j])[out[j]] + 1 + multiset(out[j+1..])[out[j]];
      assert out[i] in out[..j];
    }
  }

  /** Nothing that stays is cheaper than anything that goes. */
  ghost predicate Cheapest(out: seq<Tx>, left: seq<Tx>) {
    forall d, tx | d in out && tx in left :: PriceKey(d) <= PriceKey(tx)
  }

  lemma CheapestStep(out: seq<Tx>, heap: seq<Tx>, rest: seq<Tx>)
    requires Cheapest(out, heap) && Popped(heap, rest) && Heaps.IsHeap(heap, PriceKey)
    ensures Cheapest(out, rest) && Cheapest(out + [heap[0]], rest)
  {
    FirstCheapest(heap);
    PoppedMembers(heap, rest);
  }

  class TxPricedList {
    const all: TxLookup
    var remotes: seq<Tx>
    var stales: int

    ghost predicate Valid()
      reads this, all
    {
      Tracks(remotes, stales, all.remotes)
    }

    constructor (all: TxLookup)
      requires all.remotes == {}
      ensures Valid() && this.all == all
    {
      this.all, remotes, stales := all, [], 0;
    }

    /** Called when the transaction has just been added to the lookup. */
    method Put(tx: Tx, local: bool)
      requires if local then Valid() else tx in all.remotes && Tracks(remotes, stales, all.remotes - {tx})
      modifies this
      ensures Valid()
    {
      if local {
        return;
      }
      var heap := Heaps.Push(remotes, PriceKey, tx);
      assert |multiset(heap)| == |multiset(remotes)| + 1;
      forall t | t in all.remotes
        ensures t in heap
      {
        assert t in heap <==> t in multiset(heap);
        assert t in remotes <==> t in multiset(remotes);
      }
      remotes := heap;
    }

    method Reheap()
      modifies this
      ensures Valid() && stales == 0 && multiset(remotes) == multiset(all.remotes) && |remotes| == |all.remotes|
      ensures LiveOnce(remotes, all.remotes)
    {
      var heap: seq<Tx> := [];
      var todo := all.remotes;
      while todo != {}
        invariant todo <= all.remotes && multiset(heap) + multiset(todo) == multiset(all.remotes)
        decreases todo
      {
        var tx :| tx in todo;
        heap := heap + [tx];
        todo := todo - {tx};
      }
      assert multiset(heap) == multiset(all.remotes);
      heap := Heaps.Init(heap, PriceKey);
      assert |multiset(heap)| == |multiset(all.remotes)|;
      forall tx | tx in all.remotes
        ensures tx in heap
      {
        assert tx in multiset(all.remotes) && tx in multiset(heap);
      }
      remotes, stales := heap, 0;
    }

    /** After transactions have left the lookup; then the heap is at most a third larger than the live set. */
    method Removed(count: nat)
      requires Tracks(remotes, stales + count, all.remotes)
      modifies this
      ensures Valid() && 3 * |remotes| <= 4 * |all.remotes|
    {
      stales := stales + count;
      if stales <= |remotes| / 4 {
        return;
      }
      Reheap();
    }

    /** heap.Pop. */
    method Pop() returns (tx: Tx)
      requires Heaps.IsHeap(remotes, PriceKey) && |remotes| > 0
      modifies `remotes
      ensures tx == old(remotes)[0] && Popped(old(remotes), remotes) && |remotes| == |old(remotes)| - 1
    {
      tx := remotes[0];
      remotes := Heaps.Remove(remotes, PriceKey, 0);
      PoppedMembers(old(remotes), remotes);
    }

    /** Takes out exactly the live remote transactions priced below the threshold. */
    method Cap(threshold: nat) returns (drop: seq<Tx>)
      requires Valid()
      modifies this
      ensures forall tx :: tx in drop <==> tx in all.remotes && tx.price < threshold
      ensures Holds(remotes, stales, all.remotes, drop)
    {
      drop := [];
      while |remotes| > 0
        invariant Holds(remotes, stales, all.remotes, drop)
        invariant forall tx | tx in drop :: tx in all.remotes && tx.price < threshold
        decreases |remotes|
      {
        ghost var heap := remotes;
        var cheapest := remotes[0];
        if cheapest !in all.remotes {
          var _ := Pop();
          PopStale(heap, remotes, stales, all.remotes, drop);
          stales := stales - 1;
          continue;
        }
        if cheapest.price >= threshold {
          break;
        }
        var _ := Pop();
        PopLive(heap, remotes, stales, all.remotes, drop);
        drop := drop + [cheapest];
      }
      CappedAll(threshold, drop);
    }

    lemma CappedAll(threshold: nat, drop: seq<Tx>)
      requires Holds(remotes, stales, all.remotes, drop)
      requires |remotes| > 0 ==> remotes[0].price >= threshold
      ensures forall tx | tx in all.remotes && tx.price < threshold :: tx in drop
    {
      if |remotes| > 0 {
        FirstCheapest(remotes);
        forall tx | tx in remotes
          ensures tx.price >= threshold
        {
          KeyOrder(remotes[0], tx);
        }
      }
    }

    /** Whether there are live remote transactions and none of them is cheaper. */
    method Underpriced(tx: Tx) returns (r: bool)
      requires Valid()
      modifies this
      ensures Valid() && r == (all.remotes != {} && forall t | t in all.remotes :: t.price >= tx.price)
      ensures LiveOnce(old(remotes), all.remotes) ==> LiveOnce(remotes, all.remotes)
    {
      hide Among, LiveOnce;
      AmongStarts(remotes);
      while |remotes| > 0
        invariant Valid() && Among([], remotes, old(remotes))
        decreases |remotes|
      {
        ghost var heap := remotes;
        if remotes[0] !in all.remotes {
          stales := stales - 1;
          var _ := Pop();
          PopStale(heap, remotes, stales + 1, all.remotes, []);
          AmongStep([], heap, remotes, old(remotes));
          continue;
        }
        break;
      }
      AmongOnce(remotes, old(remotes), all.remotes);
      if |remotes| == 0 {
        return false;
      }
      FirstCheapest(remotes);
      forall t | t in all.remotes
        ensures t.price >= remotes[0].price
      {
        KeyOrder(remotes[0], t);
      }
      r := remotes[0].price >= tx.price;
    }

    /** Pops live transactions until they make up the slots, dropping stale entries on the way. */
    method PopSlots(slots: int) returns (drop: seq<Tx>, short: int)
      requires Valid()
      modifies this
      ensures Holds(remotes, stales, all.remotes, drop) && Cheapest(drop, remotes)
      ensures forall tx | tx in drop :: tx in all.remotes
      ensures short == slots - SeqSlots(drop) && (short > 0 ==> remotes == [])
      ensures drop != [] ==> SeqSlots(drop[..|drop|-1]) < slots
      ensures LiveOnce(old(remotes), all.remotes) ==> Distinct(drop)
    {
      hide Among, LiveOnce, Distinct;
      drop, short := [], slots;
      AmongStarts(remotes);
      while |remotes| > 0 && short > 0
        invariant Among(drop, remotes, old(remotes))
        invariant Holds(remotes, stales, all.remotes, drop) && Cheapest(drop, remotes)
        invariant forall tx | tx in drop :: tx in all.remotes
        invariant short == slots - SeqSlots(drop)
        invariant drop != [] ==> SeqSlots(drop[..|drop|-1]) < slots
        decreases |remotes|
      {
        ghost var heap := remotes;
        var tx := Pop();
        CheapestStep(drop, heap, remotes);
        AmongStep(drop, heap, remotes, old(remotes));
        if tx !in all.remotes {
          PopStale(heap, remotes, stales, all.remotes, drop);
          stales := stales - 1;
          continue;
        }
        PopLive(heap, remotes, stales, all.remotes, drop);
        assert (drop + [tx])[..|drop|] == drop;
        drop := drop + [tx];
        short := short - NumSlots(tx);
      }
      if LiveOnce(old(remotes), all.remotes) {
        AmongDistinct(drop, remotes, old(remotes), all.remotes);
      }
    }

    /** Takes out the cheapest live transactions, no more of them than needed for the slots. It gives up, with
        nothing taken out, only when all live remote transactions together are too small. */
    method Discard(slots: int, force: bool) returns (drop: seq<Tx>, success: bool)
      requires Valid()
      modifies this
      ensures Holds(remotes, stales, all.remotes, drop) && forall tx | tx in drop :: tx in all.remotes
      ensures forall d, tx | d in drop && tx in all.remotes && tx !in drop :: !Less(tx, d)
      ensures forall d, tx | d in drop && tx in all.remotes && tx !in drop ::
        d.price < tx.price || (d.price == tx.price && d.nonce >= tx.nonce)
      ensures drop != [] ==> SeqSlots(drop[..|drop|-1]) < slots
      ensures success && SeqSlots(drop) < slots ==> force && forall tx | tx in all.remotes :: tx in drop
      ensures !success ==> !force && drop == [] && SlotSum(all.remotes) < slots
      ensures LiveOnce(old(remotes), all.remotes) ==> Distinct(drop)
    {
      var short;
      drop, short := PopSlots(slots);
      forall d, tx | d in drop && tx in all.remotes && tx !in drop
        ensures !Less(tx, d)
      {
        KeyOrder(tx, d);
      }
      if short > 0 && !force {
        SlotsWithin(all.remotes, drop);
        var i := 0;
        while i < |drop|
          invariant 0 <= i <= |drop| && Holds(remotes, stales, all.remotes, drop[i..])
        {
          var heap := Heaps.Push(remotes, PriceKey, drop[i]);
          PushBack(remotes, heap, stales, all.remotes, drop[i..]);
          assert drop[i..][1..] == drop[i+1..];
          remotes := heap;
          i := i + 1;
        }
        assert drop[i..] == [];
        return [], false;
      }
      success := true;
    }
  }
}
