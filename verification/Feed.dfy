/** event/feed.go: one-to-many delivery. Send keeps the channels still to be served in a prefix of
    the very list it holds all of them in; channels come and go while it runs. */
module Feeds {

  type Chan = nat

  /** The channel on which removals interrupt Send; no subscriber's channel is this one. */
  const REMOVE_SUB: Chan := 0

  /** The index of the first subscriber in sendCases. */
  const FIRST: nat := 1

  /** What Send does, in order. */
  datatype Event = Delivered(ch: Chan) | Removed(ch: Chan)

  /** find: the first index that holds the channel, or -1. */
  method Find(cs: seq<Chan>, ch: Chan) returns (index: int)
    ensures index == -1 <==> ch !in cs
    ensures index != -1 ==> 0 <= index < |cs| && cs[index] == ch && ch !in cs[..index]
  {
    for i := 0 to |cs|
      invariant ch !in cs[..i]
    {
      if cs[i] == ch {
        return i;
      }
    }
    return -1;
  }

  /** delete. */
  function Delete(cs: seq<Chan>, index: nat): (r: seq<Chan>)
    requires index < |cs|
    ensures |r| == |cs| - 1
  {
    cs[..index] + cs[index+1..]
  }

  /** deactivate, on the list that the first `n` elements of `cs` are: swaps the one at `index` to their end. */
  function SwapOut(cs: seq<Chan>, index: nat, n: nat): (r: seq<Chan>)
    requires index < n <= |cs|
    ensures |r| == |cs|
  {
    cs[index := cs[n-1]][n-1 := cs[index]]
  }

  lemma DeleteCounts(cs: seq<Chan>, index: nat)
    requires index < |cs|
    ensures multiset(Delete(cs, index)) == multiset(cs) - multiset{cs[index]}
  {
    assert cs == cs[..index] + [cs[index]] + cs[index+1..];
  }

  /** Deleting from the part from `n` on leaves the first `n` alone; deleting before `n` moves it down. */
  lemma DeleteParts(cs: seq<Chan>, index: nat, n: nat)
    requires FIRST <= index < |cs| && FIRST <= n <= |cs|
    ensures Delete(cs, index)[0] == cs[0]
    ensures index < n ==>
      && multiset(Delete(cs, index)[FIRST..n-1]) == multiset(cs[FIRST..n]) - multiset{cs[index]}
      && Delete(cs, index)[n-1..] == cs[n..]
    ensures index >= n ==>
      && Delete(cs, index)[FIRST..n] == cs[FIRST..n]
      && multiset(Delete(cs, index)[n..]) == multiset(cs[n..]) - multiset{cs[index]}
  {
    if index < n {
      DeleteCounts(cs[FIRST..n], index - FIRST);
      assert Delete(cs, index)[FIRST..n-1] == Delete(cs[FIRST..n], index - FIRST);
    } else {
      DeleteCounts(cs[n..], index - n);
      assert Delete(cs, index)[n..] == Delete(cs[n..], index - n);
    }
  }

  lemma SwapOutParts(cs: seq<Chan>, index: nat, n: nat)
    requires FIRST <= index < n <= |cs|
    ensures SwapOut(cs, index, n)[0] == cs[0]
    ensures multiset(SwapOut(cs, index, n)[FIRST..n-1]) == multiset(cs[FIRST..n]) - multiset{cs[index]}
    ensures multiset(SwapOut(cs, index, n)[n-1..]) == multiset(cs[n..]) + multiset{cs[index]}
  {
    var r, a := SwapOut(cs, index, n), cs[FIRST..n-1];
    assert r[n-1..] == [cs[index]] + cs[n..];
    assert cs[FIRST..n] == a + [cs[n-1]];
    if index < n - 1 {
      assert r[FIRST..n-1] == a[index - FIRST := cs[n-1]];
    } else {
      assert r[FIRST..n-1] == a;
    }
  }

  lemma Parts(cs: seq<Chan>, n: nat)
    requires FIRST <= n <= |cs|
    ensures multiset(cs[FIRST..]) == multiset(cs[FIRST..n]) + multiset(cs[n..])
  {
    assert cs[FIRST..] == cs[FIRST..n] + cs[n..];
  }

  ghost function DeliveredIn(log: seq<Event>): (m: multiset<Chan>) {
    if log == [] then multiset{}
    else DeliveredIn(log[..|log|-1]) + if log[|log|-1].Delivered? then multiset{log[|log|-1].ch} else multiset{}
  }

  ghost function RemovedIn(log: seq<Event>): (m: multiset<Chan>) {
    if log == [] then multiset{}
    else RemovedIn(log[..|log|-1]) + if log[|log|-1].Removed? then multiset{log[|log|-1].ch} else multiset{}
  }

  lemma LogStep(log: seq<Event>, e: Event)
    ensures DeliveredIn(log + [e]) == DeliveredIn(log) + if e.Delivered? then multiset{e.ch} else multiset{}
    ensures RemovedIn(log + [e]) == RemovedIn(log) + if e.Removed? then multiset{e.ch} else multiset{}
  {
    assert (log + [e])[..|log + [e]| - 1] == log;
  }

  lemma {:induction false} RemovedCounts(log: seq<Event>, i: nat)
    requires i < |log| && log[i].Removed?
    ensures log[i].ch in RemovedIn(log)
  {
    if i < |log| - 1 {
      RemovedCounts(log[..|log|-1], i);
    }
  }

  /** How a send that started with the channels `start` stands: `active` are still to be served,
      `served` are those served and still subscribed, `unserved` those removed before their turn. */
  datatype Account = Account(start: multiset<Chan>, active: multiset<Chan>, served: multiset<Chan>,
                             unserved: multiset<Chan>)

  /** Every subscription of a channel is active, or was served, or was removed unserved; and a served
      one is still there unless it was removed. */
  ghost predicate Balanced(a: Account, delivered: multiset<Chan>, removed: multiset<Chan>, ch: Chan) {
    && a.start[ch] == a.active[ch] + delivered[ch] + a.unserved[ch]
    && a.unserved[ch] <= removed[ch]
    && a.served[ch] + removed[ch] == delivered[ch] + a.unserved[ch]
  }

  /** The account is balanced for every channel, and none is served after its removal, unless it was
      subscribed more than once. */
  ghost predicate Accounted(a: Account, log: seq<Event>) {
    && (forall ch :: Balanced(a, DeliveredIn(log), RemovedIn(log), ch))
    && NotAfterRemoval(a.start, log)
  }

  ghost predicate NotAfterRemoval(start: multiset<Chan>, log: seq<Event>) {
    forall i, j {:trigger log[i], log[j]} | 0 <= i < j < |log| ::
      log[i].Removed? && log[j] == Delivered(log[i].ch) ==> start[log[i].ch] > 1
  }

  lemma NotAfterRemovalStep(start: multiset<Chan>, log: seq<Event>, e: Event)
    requires NotAfterRemoval(start, log)
    requires e.Delivered? && e.ch in RemovedIn(log) ==> start[e.ch] > 1
    ensures NotAfterRemoval(start, log + [e])
  {
    var t := log + [e];
    forall i, j | 0 <= i < j < |t| && t[i].Removed? && t[j] == Delivered(t[i].ch)
      ensures start[t[i].ch] > 1
    {
      if j < |log| {
        assert t[i] == log[i] && t[j] == log[j];
      } else {
        RemovedCounts(log, i);
      }
    }
  }

  lemma AccountDelivery(a: Account, log: seq<Event>, ch: Chan)
    requires Accounted(a, log) && ch in a.active
    ensures Accounted(a.(active := a.active - multiset{ch}, served := a.served + multiset{ch}), log + [Delivered(ch)])
    ensures |DeliveredIn(log + [Delivered(ch)])| == |DeliveredIn(log)| + 1
  {
    LogStep(log, Delivered(ch));
    assert Balanced(a, DeliveredIn(log), RemovedIn(log), ch);
    NotAfterRemovalStep(a.start, log, Delivered(ch));
    var b := a.(active := a.active - multiset{ch}, served := a.served + multiset{ch});
    forall c ensures Balanced(b, DeliveredIn(log + [Delivered(ch)]), RemovedIn(log + [Delivered(ch)]), c) {
      assert Balanced(a, DeliveredIn(log), RemovedIn(log), c);
    }
  }

  /** A removal takes away a channel that is still active, or else one already served. */
  lemma AccountRemoval(a: Account, log: seq<Event>, ch: Chan, early: bool)
    requires Accounted(a, log) && if early then ch in a.active else ch in a.served
    ensures Accounted(if early then a.(active := a.active - multiset{ch}, unserved := a.unserved + multiset{ch})
                               else a.(served := a.served - multiset{ch}),
                      log + [Removed(ch)])
    ensures DeliveredIn(log + [Removed(ch)]) == DeliveredIn(log)
  {
    LogStep(log, Removed(ch));
    NotAfterRemovalStep(a.start, log, Removed(ch));
    var b := if early then a.(active := a.active - multiset{ch}, unserved := a.unserved + multiset{ch})
                      else a.(served := a.served - multiset{ch});
    forall c ensures Balanced(b, DeliveredIn(log + [Removed(ch)]), RemovedIn(log + [Removed(ch)]), c) {
      assert Balanced(a, DeliveredIn(log), RemovedIn(log), c);
    }
  }

  /** Once nothing is active, each channel subscribed once has been served exactly once, unless it was
      removed unserved; and what is left is what there was, less what was removed. */
  lemma ServedOnce(a: Account, log: seq<Event>, ch: Chan)
    requires Accounted(a, log) && a.active == multiset{}
    ensures a.served[ch] + RemovedIn(log)[ch] == a.start[ch]
    ensures a.start[ch] == 1 ==> DeliveredIn(log)[ch] == 1 || (DeliveredIn(log)[ch] == 0 && RemovedIn(log)[ch] == 1)
    ensures RemovedIn(log)[ch] == 0 ==> DeliveredIn(log)[ch] == a.start[ch]
  {
    assert Balanced(a, DeliveredIn(log), RemovedIn(log), ch);
  }

  lemma DropBoth(cases: multiset<Chan>, inbox: multiset<Chan>, live: multiset<Chan>, leaving: multiset<Chan>, ch: Chan)
    requires cases + inbox == live && leaving <= cases && ch in leaving
    ensures (cases - multiset{ch}) + inbox == live - multiset{ch}
    ensures leaving - multiset{ch} <= cases - multiset{ch}
  {
    assert forall c :: (cases + inbox)[c] == cases[c] + inbox[c];
  }

  /** Every live subscription is in the inbox or among the send cases, once each; those leaving are
      among the send cases; and the removal channel comes first. */
  ghost predicate Consistent(cs: seq<Chan>, inbox: seq<Chan>, live: multiset<Chan>, leaving: multiset<Chan>) {
    && |cs| >= FIRST && cs[0] == REMOVE_SUB
    && REMOVE_SUB !in live
    && multiset(cs[FIRST..]) + multiset(inbox) == live
    && leaving <= multiset(cs[FIRST..])
  }

  lemma MergeInbox(cs: seq<Chan>, inbox: seq<Chan>, live: multiset<Chan>, leaving: multiset<Chan>)
    requires Consistent(cs, inbox, live, leaving)
    ensures multiset((cs + inbox)[FIRST..]) == multiset(cs[FIRST..]) + multiset(inbox)
    ensures Consistent(cs + inbox, [], live, leaving)
  {
    assert (cs + inbox)[FIRST..] == cs[FIRST..] + inbox;
  }

  lemma SwapConsistent(cs: seq<Chan>, inbox: seq<Chan>, live: multiset<Chan>, leaving: multiset<Chan>, index: nat,
                       n: nat)
    requires Consistent(cs, inbox, live, leaving) && FIRST <= index < n <= |cs|
    ensures Consistent(SwapOut(cs, index, n), inbox, live, leaving)
  {
    SwapOutParts(cs, index, n);
    Parts(cs, n);
    Parts(SwapOut(cs, index, n), n - 1);
    assert cs[index] in multiset(cs[FIRST..n]) by { assert cs[index] in cs[FIRST..n]; }
    assert multiset(SwapOut(cs, index, n)[FIRST..]) == multiset(cs[FIRST..]);
  }

  lemma DeleteConsistent(cs: seq<Chan>, inbox: seq<Chan>, live: multiset<Chan>, leaving: multiset<Chan>, index: nat)
    requires Consistent(cs, inbox, live, leaving) && FIRST <= index < |cs| && cs[index] in leaving
    ensures Consistent(Delete(cs, index), inbox, live - multiset{cs[index]}, leaving - multiset{cs[index]})
  {
    DeleteParts(cs, index, FIRST);
    DropBoth(multiset(cs[FIRST..]), multiset(inbox), live, leaving, cs[index]);
  }

  /** The account of a send whose list is `cs`, of which the first `n` are still to be served. */
  ghost function AccountOf(start: multiset<Chan>, unserved: multiset<Chan>, cs: seq<Chan>, n: nat): Account
    requires FIRST <= n <= |cs|
  {
    Account(start, multiset(cs[FIRST..n]), multiset(cs[n..]), unserved)
  }

  lemma Finish(start: multiset<Chan>, unserved: multiset<Chan>, cs: seq<Chan>)
    requires |cs| >= FIRST
    ensures AccountOf(start, unserved, cs, FIRST) == Account(start, multiset{}, multiset(cs[FIRST..]), unserved)
  {
  }

  /** At the start everything is active. */
  lemma AccountStart(cs: seq<Chan>)
    requires |cs| >= FIRST
    ensures Accounted(AccountOf(multiset(cs[FIRST..]), multiset{}, cs, |cs|), [])
  {
    assert cs[FIRST..|cs|] == cs[FIRST..] && cs[|cs|..] == [];
  }

  lemma AccountSwap(start: multiset<Chan>, unserved: multiset<Chan>, cs: seq<Chan>, n: nat, index: nat, log: seq<Event>)
    requires FIRST <= index < n <= |cs| && Accounted(AccountOf(start, unserved, cs, n), log)
    ensures Accounted(AccountOf(start, unserved, SwapOut(cs, index, n), n - 1), log + [Delivered(cs[index])])
    ensures |DeliveredIn(log + [Delivered(cs[index])])| == |DeliveredIn(log)| + 1
  {
    SwapOutParts(cs, index, n);
    assert cs[index] in cs[FIRST..n];
    AccountDelivery(AccountOf(start, unserved, cs, n), log, cs[index]);
  }

  lemma AccountDelete(start: multiset<Chan>, unserved: multiset<Chan>, cs: seq<Chan>, n: nat, index: nat,
                      log: seq<Event>)
    requires FIRST <= index < |cs| && FIRST <= n <= |cs| && Accounted(AccountOf(start, unserved, cs, n), log)
    ensures index < n ==>
      Accounted(AccountOf(start, unserved + multiset{cs[index]}, Delete(cs, index), n - 1), log + [Removed(cs[index])])
    ensures index >= n ==>
      Accounted(AccountOf(start, unserved, Delete(cs, index), n), log + [Removed(cs[index])])
    ensures DeliveredIn(log + [Removed(cs[index])]) == DeliveredIn(log)
  {
    var a := AccountOf(start, unserved, cs, n);
    DeleteParts(cs, index, n);
    if index < n {
      assert cs[index] in cs[FIRST..n];
      AccountRemoval(a, log, cs[index], true);
    } else {
      assert cs[index] == cs[n..][index - n];
      AccountRemoval(a, log, cs[index], false);
    }
  }

  class Feed {
    var sendCases: seq<Chan>
    var inbox: seq<Chan>
    /** Subscriptions handed out and not yet cancelled. */
    var live: multiset<Chan>
    /** Those whose cancellation has looked into the inbox in vain and waits for Send or its lock. */
    var leaving: multiset<Chan>

    ghost predicate Valid()
      reads this
    {
      Consistent(sendCases, inbox, live, leaving)
    }

    constructor ()
      ensures Valid() && live == multiset{} && inbox == []
    {
      sendCases, inbox, live, leaving := [REMOVE_SUB], [], multiset{}, multiset{};
    }

    method Subscribe(ch: Chan)
      requires Valid() && ch != REMOVE_SUB
      modifies `inbox, `live
      ensures Valid()
      ensures inbox == old(inbox) + [ch] && live == old(live) + multiset{ch}
    {
      inbox := inbox + [ch];
      live := live + multiset{ch};
    }

    /** The first half of remove: a channel not yet taken over by a Send is gone at once. */
    method RequestRemoval(ch: Chan) returns (gone: bool)
      requires Valid() && ch in live - leaving
      modifies `inbox, `live, `leaving
      ensures Valid()
      ensures gone <==> ch in old(inbox)
      ensures gone ==> live == old(live) - multiset{ch} && leaving == old(leaving)
      ensures gone ==> multiset(inbox) == multiset(old(inbox)) - multiset{ch}
      ensures !gone ==> inbox == old(inbox) && live == old(live) && leaving == old(leaving) + multiset{ch}
    {
      var index := Find(inbox, ch);
      if index != -1 {
        DeleteCounts(inbox, index);
        inbox := Delete(inbox, index);
        live := live - multiset{ch};
        return true;
      }
      leaving := leaving + multiset{ch};
      return false;
    }

    /** Looking up a channel that is leaving: it is found, and not in place of the removal channel. */
    method FindCase(ch: Chan) returns (index: nat)
      requires Valid() && ch in leaving
      ensures FIRST <= index < |sendCases| && sendCases[index] == ch
    {
      assert ch in multiset(sendCases[FIRST..]) && ch in live;
      assert ch in sendCases;
      var i := Find(sendCases, ch);
      index := i;
    }

    /** The second half of remove when no Send is in progress: the channel is found, always. */
    method RemoveIdle(ch: Chan)
      requires Valid() && ch in leaving
      modifies `sendCases, `live, `leaving
      ensures Valid()
      ensures live == old(live) - multiset{ch} && leaving == old(leaving) - multiset{ch}
    {
      var index := FindCase(ch);
      DeleteConsistent(sendCases, inbox, live, leaving, index);
      sendCases := Delete(sendCases, index);
      live := live - multiset{ch};
      leaving := leaving - multiset{ch};
    }

    /** What other goroutines may do while Send waits: subscribe and ask for removal, any number of times. */
    method Interfere()
      requires Valid()
      modifies `inbox, `live, `leaving
      ensures Valid() && leaving >= old(leaving)
    {
      var rounds: nat :| true;
      for i := 0 to rounds
        invariant Valid() && leaving >= old(leaving)
      {
        var ch: Chan := *;
        var subscribe: bool := *;
        if subscribe && ch != REMOVE_SUB {
          Subscribe(ch);
        } else if ch in live - leaving {
          var gone := RequestRemoval(ch);
        }
      }
    }

    /** A send to the channel at `index` succeeded: it moves out of the active prefix. */
    method Deactivate(index: nat, n: nat, ghost start: multiset<Chan>, ghost unserved: multiset<Chan>,
                      ghost log: seq<Event>)
      returns (ghost newLog: seq<Event>)
      requires Valid() && FIRST <= index < n <= |sendCases|
      requires Accounted(AccountOf(start, unserved, sendCases, n), log)
      modifies `sendCases
      ensures Valid() && |sendCases| == old(|sendCases|)
      ensures newLog == log + [Delivered(old(sendCases)[index])]
      ensures Accounted(AccountOf(start, unserved, sendCases, n - 1), newLog)
      ensures |DeliveredIn(newLog)| == |DeliveredIn(log)| + 1
    {
      SwapConsistent(sendCases, inbox, live, leaving, index, n);
      AccountSwap(start, unserved, sendCases, n, index, log);
      newLog := log + [Delivered(sendCases[index])];
      hide Accounted, AccountOf, SwapOut, DeliveredIn, Consistent;
      sendCases := SwapOut(sendCases, index, n);
    }

    /** A removal received while sending: the channel is deleted, and the active prefix shrinks with it
        if it was still in there. */
    method RemoveWhileSending(ch: Chan, n: nat, ghost start: multiset<Chan>, ghost unserved: multiset<Chan>,
                              ghost log: seq<Event>)
      returns (m: nat, ghost newUnserved: multiset<Chan>, ghost newLog: seq<Event>)
      requires Valid() && ch in leaving && FIRST <= n <= |sendCases|
      requires Accounted(AccountOf(start, unserved, sendCases, n), log)
      modifies `sendCases, `live, `leaving
      ensures Valid() && |sendCases| == old(|sendCases|) - 1
      ensures FIRST <= m <= n && m <= |sendCases|
      ensures newLog == log + [Removed(ch)]
      ensures Accounted(AccountOf(start, newUnserved, sendCases, m), newLog)
      ensures DeliveredIn(newLog) == DeliveredIn(log)
    {
      hide Accounted, AccountOf, Delete, DeliveredIn, Consistent;
      var index := FindCase(ch);
      AccountDelete(start, unserved, sendCases, n, index, log);
      DeleteConsistent(sendCases, inbox, live, leaving, index);
      if index < n {
        m, newUnserved := n - 1, unserved + multiset{ch};
      } else {
        m, newUnserved := n, unserved;
      }
      newLog := log + [Removed(ch)];
      sendCases := Delete(sendCases, index);
      live := live - multiset{ch};
      leaving := leaving - multiset{ch};
    }

    /** The fast path: one pass of non-blocking sends over the active prefix. */
    method TryAll(n0: nat, nsent0: nat, ghost start: multiset<Chan>, ghost unserved: multiset<Chan>,
                  ghost log0: seq<Event>)
      returns (n: nat, nsent: nat, ghost log: seq<Event>)
      requires Valid() && FIRST <= n0 <= |sendCases|
      requires Accounted(AccountOf(start, unserved, sendCases, n0), log0) && nsent0 == |DeliveredIn(log0)|
      modifies `sendCases
      ensures Valid() && |sendCases| == old(|sendCases|) && FIRST <= n <= n0
      ensures Accounted(AccountOf(start, unserved, sendCases, n), log) && nsent == |DeliveredIn(log)|
    {
      hide *;
      n, nsent, log := n0, nsent0, log0;
      var i := FIRST;
      while i < n
        invariant Valid() && |sendCases| == old(|sendCases|) && FIRST <= i <= n <= n0
        invariant Accounted(AccountOf(start, unserved, sendCases, n), log) && nsent == |DeliveredIn(log)|
        decreases n - i
      {
        var sent: bool := *;
        if sent {
          log := Deactivate(i, n, start, unserved, log);
          nsent := nsent + 1;
          n := n - 1;
        } else {
          i := i + 1;
        }
      }
    }

    /** Send: whichever channels become ready in whatever order, and whatever is subscribed and removed
        meanwhile, every channel that was subscribed when it started is served once for each of its
        subscriptions, or removed; the number returned counts the deliveries; and the list ends as it
        started, less what was removed, with the removal channel still first. Every wait makes the
        list or its active part shorter, so it ends. */
    method Send() returns (nsent: nat, ghost log: seq<Event>, ghost a: Account)
      requires Valid()
      modifies this
      ensures Valid()
      ensures a.start == multiset(old(sendCases)[FIRST..]) + multiset(old(inbox))
      ensures a.active == multiset{} && a.served == multiset(sendCases[FIRST..]) && Accounted(a, log)
      ensures nsent == |DeliveredIn(log)|
    {
      MergeInbox(sendCases, inbox, live, leaving);
      assert |sendCases| >= FIRST;
      hide Consistent, Accounted, AccountOf;
      sendCases := sendCases + inbox;
      inbox := [];
      ghost var start, unserved := multiset(sendCases[FIRST..]), multiset{};
      nsent, log := 0, [];
      var n := |sendCases|;
      AccountStart(sendCases);
      assert Valid() && |DeliveredIn(log)| == 0;
      hide *;
      while true
        invariant Valid() && FIRST <= n <= |sendCases|
        invariant Accounted(AccountOf(start, unserved, sendCases, n), log) && nsent == |DeliveredIn(log)|
        decreases |sendCases| + n
      {
        n, nsent, log := TryAll(n, nsent, start, unserved, log);
        if n == FIRST {
          break;
        }
        Interfere();
        var removal: bool := *;
        if removal && leaving != multiset{} {
          var ch :| ch in leaving;
          n, unserved, log := RemoveWhileSending(ch, n, start, unserved, log);
        } else {
          var chosen: nat :| FIRST <= chosen < n;
          log := Deactivate(chosen, n, start, unserved, log);
          n := n - 1;
          nsent := nsent + 1;
        }
      }
      a := AccountOf(start, unserved, sendCases, n);
      Finish(start, unserved, sendCases);
    }
  }
}
