/** core/tx_pool.go: the loop that schedules reorganisation runs, one at a time, and hands each requester a channel
    that is closed when a run has served the request. Channels are numbered in the order of their creation. */
module ReorgSchedulers {
  import opened Common

  type Channel = nat
  type Head = nat

  datatype Heads = Heads(oldHead: Head, newHead: Head)

  datatype Run = Run(done: Channel, reset: Option<Heads>, dirty: Option<set<Address>>)

  datatype Want = Accounts(accounts: set<Address>) | NewHead

  /** A request and the channel its requester got. */
  datatype Ticket = Ticket(done: Channel, want: Want)

  datatype Phase = Running | Stopping | Stopped

  /** What can happen to the loop: requests, the end of the active run, the loop noticing it, and the shutdown. */
  datatype Event = HeadArrived(head: Head) | PromotionWanted(accounts: set<Address>) | RunFinished | FinishNoticed
                 | ShutdownRequested | ShutdownCompleted

  ghost predicate Serves(reset: Option<Heads>, dirty: Option<set<Address>>, want: Want) {
    match want
    case Accounts(s) => dirty.Some? && s <= dirty.value
    case NewHead => reset.Some?
  }

  /** A run that serves the request was launched with the requester's channel. */
  ghost predicate ServedBy(runs: seq<Run>, t: Ticket) {
    t.done < |runs| && Serves(runs[t.done].reset, runs[t.done].dirty, t.want)
  }

  /** The accounts a run looks at: all that have something queued when it resets, those asked for otherwise. A reset
      first puts their virtual nonces back to the state nonces, so it need not promote what they asked for. */
  ghost predicate LooksAt(r: Run, a: Address) {
    r.reset.Some? || (r.dirty.Some? && a in r.dirty.value)
  }

  ghost function Wants(tickets: seq<Ticket>): (r: seq<Want>) {
    seq(|tickets|, i requires 0 <= i < |tickets| => tickets[i].want)
  }

  lemma WantsPush(tickets: seq<Ticket>, t: Ticket)
    ensures Wants(tickets + [t]) == Wants(tickets) + [t.want]
  {
  }

  /** The requests among the events up to the shutdown, in their order. */
  ghost function Wanted(running: bool, events: seq<Event>): (r: seq<Want>) {
    if events == [] || !running then []
    else
      var before, e := Wanted(running, events[..|events|-1]), events[|events|-1];
      if ShutdownRequested in events[..|events|-1] then before
      else if e.HeadArrived? then before + [NewHead]
      else if e.PromotionWanted? then before + [Accounts(e.accounts)]
      else before
  }

  lemma WantedStarts(running: bool, events: seq<Event>, wants: seq<Want>)
    ensures wants + Wanted(running, events[..0]) == wants && ShutdownRequested !in events[..0]
    ensures events[..|events|] == events
  {
  }

  lemma WantedStep(running: bool, events: seq<Event>, i: nat)
    requires i < |events|
    ensures var open, before := running && ShutdownRequested !in events[..i], Wanted(running, events[..i]);
      Wanted(running, events[..i+1]) ==
        if open && events[i].HeadArrived? then before + [NewHead]
        else if open && events[i].PromotionWanted? then before + [Accounts(events[i].accounts)]
        else before
    ensures ShutdownRequested in events[..i+1] <==> ShutdownRequested in events[..i] || events[i].ShutdownRequested?
  {
    assert events[..i+1][..i] == events[..i];
    assert events[..i+1] == events[..i] + [events[i]];
  }

  /** The head the runs have led the pool to. */
  ghost function Reached(first: Head, runs: seq<Run>): (h: Head) {
    if runs == [] then first
    else
      var r := runs[|runs|-1];
      if r.reset.Some? then r.reset.value.newHead else Reached(first, runs[..|runs|-1])
  }

  /** Each reset starts from the head the one before it ended with. */
  ghost predicate Chained(first: Head, runs: seq<Run>) {
    forall i | 0 <= i < |runs| && runs[i].reset.Some? :: runs[i].reset.value.oldHead == Reached(first, runs[..i])
  }

  lemma ChainedPush(first: Head, runs: seq<Run>, r: Run)
    requires Chained(first, runs) && (r.reset.Some? ==> r.reset.value.oldHead == Reached(first, runs))
    ensures Chained(first, runs + [r])
    ensures Reached(first, runs + [r]) == if r.reset.Some? then r.reset.value.newHead else Reached(first, runs)
  {
    var s := runs + [r];
    assert s[..|runs|] == runs;
    forall i | 0 <= i < |s| && s[i].reset.Some?
      ensures s[i].reset.value.oldHead == Reached(first, s[..i])
    {
      if i < |runs| {
        assert s[..i] == runs[..i];
      }
    }
  }

  /** The i-th run has the i-th channel. All runs but the last have ended, and the last too unless its channel is
      the current one. A channel is closed by its run, or by the shutdown if it has none. */
  ghost predicate OneAtATime(runs: seq<Run>, current: Option<Channel>, next: Channel, closed: set<Channel>,
                             phase: Phase) {
    && next == |runs| && (forall i | 0 <= i < |runs| :: runs[i].done == i)
    && (forall d: Channel | d < |runs| - 1 :: d in closed)
    && (if current.None? then |runs| > 0 ==> |runs| - 1 in closed else |runs| > 0 && current.value == |runs| - 1)
    && (forall d | d in closed :: d <= |runs|)
    && (next in closed <==> phase == Stopped)
    && (phase == Stopped && |runs| > 0 ==> |runs| - 1 in closed)
  }

  /** A ticket waits for the next run, which will be launched and serve it, or a run that serves it was launched. */
  ghost predicate Kept(t: Ticket, next: Channel, launch: bool, reset: Option<Heads>, dirty: Option<set<Address>>,
                       runs: seq<Run>) {
    (t.done == next && launch && Serves(reset, dirty, t.want)) || ServedBy(runs, t)
  }

  ghost predicate AllKept(tickets: seq<Ticket>, next: Channel, launch: bool, reset: Option<Heads>,
                          dirty: Option<set<Address>>, runs: seq<Run>) {
    forall i | 0 <= i < |tickets| :: Kept(tickets[i], next, launch, reset, dirty, runs)
  }

  lemma KeptMore(tickets: seq<Ticket>, next: Channel, launch: bool, reset: Option<Heads>, dirty: Option<set<Address>>,
                 runs: seq<Run>, newReset: Option<Heads>, newDirty: Option<set<Address>>, want: Want)
    requires AllKept(tickets, next, launch, reset, dirty, runs)
    requires reset.Some? ==> newReset.Some?
    requires dirty.Some? ==> newDirty.Some? && dirty.value <= newDirty.value
    requires Serves(newReset, newDirty, want)
    ensures AllKept(tickets + [Ticket(next, want)], next, true, newReset, newDirty, runs)
  {
    forall i | 0 <= i < |tickets|
      ensures Kept(tickets[i], next, true, newReset, newDirty, runs)
    {
      assert Kept(tickets[i], next, launch, reset, dirty, runs);
    }
  }

  lemma KeptLaunched(tickets: seq<Ticket>, next: Channel, reset: Option<Heads>, dirty: Option<set<Address>>,
                     runs: seq<Run>)
    requires AllKept(tickets, next, true, reset, dirty, runs) && next == |runs|
    ensures AllKept(tickets, next + 1, false, None, None, runs + [Run(next, reset, dirty)])
  {
    var all := runs + [Run(next, reset, dirty)];
    forall i | 0 <= i < |tickets|
      ensures Kept(tickets[i], next + 1, false, None, None, all)
    {
      assert Kept(tickets[i], next, true, reset, dirty, runs);
      assert ServedBy(all, tickets[i]);
    }
  }

  /** The waiting reset, if any, leads from where the runs have led to the latest head. */
  ghost predicate HeadsOk(first: Head, runs: seq<Run>, reset: Option<Heads>, head: Head) {
    && Chained(first, runs)
    && if reset.Some? then reset.value == Heads(Reached(first, runs), head) else Reached(first, runs) == head
  }

  ghost predicate TicketOk(t: Ticket, runs: seq<Run>, closed: set<Channel>, current: Option<Channel>, next: Channel,
                           launch: bool, phase: Phase) {
    && (t.done in closed && (phase != Stopped || t.done != next) ==>
          ServedBy(runs, t) && (t.want.Accounts? ==> forall a | a in t.want.accounts :: LooksAt(runs[t.done], a)))
    && (t.done !in closed ==> current == Some(t.done) || (t.done == next && launch))
  }

  // ---- The loop as a function of its events ----

  datatype Loop = Loop(curDone: Option<Channel>, nextDone: Channel, launchNextRun: bool, reset: Option<Heads>,
                       dirtyAccounts: Option<set<Address>>, head: Head, closed: set<Channel>, phase: Phase,
                       runs: seq<Run>, tickets: seq<Ticket>)

  /** The top of the loop. */
  function Launched(s: Loop): (r: Loop) {
    if s.phase == Running && s.curDone.None? && s.launchNextRun then
      s.(curDone := Some(s.nextDone), nextDone := s.nextDone + 1, launchNextRun := false, reset := None,
         dirtyAccounts := None, runs := s.runs + [Run(s.nextDone, s.reset, s.dirtyAccounts)])
    else s
  }

  /** What the loop does with an event; requests join the run to come, and an event that cannot happen is passed
      over. */
  function Handled(s: Loop, e: Event): (r: Loop) {
    match e
    case HeadArrived(h) =>
      if s.phase != Running then s
      else s.(reset := Some(Heads(if s.reset.None? then s.head else s.reset.value.oldHead, h)), head := h,
              launchNextRun := true, tickets := s.tickets + [Ticket(s.nextDone, NewHead)])
    case PromotionWanted(accounts) =>
      if s.phase != Running then s
      else s.(dirtyAccounts := Some(if s.dirtyAccounts.None? then accounts else s.dirtyAccounts.value + accounts),
              launchNextRun := true, tickets := s.tickets + [Ticket(s.nextDone, Accounts(accounts))])
    case RunFinished => if s.curDone.None? then s else s.(closed := s.closed + {s.curDone.value})
    case FinishNoticed =>
      if s.phase == Running && s.curDone.Some? && s.curDone.value in s.closed then s.(curDone := None) else s
    case ShutdownRequested => if s.phase == Running then s.(phase := Stopping) else s
    case ShutdownCompleted =>
      if s.phase == Stopping && (s.curDone.None? || s.curDone.value in s.closed) then
        s.(closed := s.closed + {s.nextDone}, phase := Stopped)
      else s
  }

  function Turn(s: Loop, e: Event): (r: Loop) {
    Handled(Launched(s), e)
  }

  ghost function Turns(s: Loop, es: seq<Event>): (r: Loop) {
    if es == [] then s else Turn(Turns(s, es[..|es|-1]), es[|es|-1])
  }

  lemma TurnsStep(s: Loop, es: seq<Event>, i: nat)
    requires i < |es|
    ensures Turns(s, es[..i+1]) == Turn(Turns(s, es[..i]), es[i])
  {
    assert es[..i+1][..i] == es[..i];
  }

  lemma TurnsStart(s: Loop, es: seq<Event>)
    ensures Turns(s, es[..0]) == s && es[..|es|] == es
  {
  }

  // ---- Progress ----

  /** How far a channel has come: its run is active or will be launched; at the latest after the active one; at once;
      it is closed. */
  predicate Stage(s: Loop, d: Channel, stage: nat) {
    || d in s.closed
    || (stage < 3 && s.curDone == Some(d))
    || (stage < 3 && d == s.nextDone && s.launchNextRun
        && (stage >= 1 && s.curDone.Some? ==> stage < 2 && s.curDone.value in s.closed))
  }

  /** No event but the shutdown sets a channel back; the end of a run, and the loop's noticing it, bring it on. */
  lemma StageTurn(s: Loop, e: Event, d: Channel, stage: nat)
    requires s.phase == Running && !e.ShutdownRequested? && Stage(s, d, stage) && stage <= 3
    ensures Turn(s, e).phase == Running && Stage(Turn(s, e), d, stage)
    ensures (e.RunFinished? && stage in {0, 2}) || (e.FinishNoticed? && stage == 1) ==> Stage(Turn(s, e), d, stage + 1)
  {
  }

  /** The stage reached after `n` events, three of which are the end of a run, its being noticed and the end of one
      more. */
  ghost function Reaching(i: nat, j: nat, k: nat, n: nat): (stage: nat) {
    if n <= i then 0 else if n <= j then 1 else if n <= k then 2 else 3
  }

  lemma {:induction false} StageAfter(s: Loop, es: seq<Event>, d: Channel, i: nat, j: nat, k: nat, n: nat)
    requires s.phase == Running && ShutdownRequested !in es && Stage(s, d, 0) && n <= |es|
    requires i < j < k < |es| && es[i].RunFinished? && es[j].FinishNoticed? && es[k].RunFinished?
    ensures Turns(s, es[..n]).phase == Running && Stage(Turns(s, es[..n]), d, Reaching(i, j, k, n))
  {
    hide Turn, Turns, Stage;
    TurnsStart(s, es);
    if n > 0 {
      StageAfter(s, es, d, i, j, k, n - 1);
      TurnsStep(s, es, n - 1);
      assert es[n-1] in es;
      StageTurn(Turns(s, es[..n-1]), es[n-1], d, Reaching(i, j, k, n - 1));
    }
  }

  lemma Progress(s: Loop, es: seq<Event>)
    requires s.phase == Running && ShutdownRequested !in es && forall t | t in s.tickets :: Stage(s, t.done, 0)
    ensures forall i, j, k | 0 <= i < j < k < |es| ::
      es[i].RunFinished? && es[j].FinishNoticed? && es[k].RunFinished? ==>
        forall t | t in s.tickets :: t.done in Turns(s, es).closed
  {
    hide Turns;
    TurnsStart(s, es);
    forall i, j, k, t | 0 <= i < j < k < |es| && t in s.tickets
      && es[i].RunFinished? && es[j].FinishNoticed? && es[k].RunFinished?
      ensures t.done in Turns(s, es).closed
    {
      StageAfter(s, es, t.done, i, j, k, |es|);
    }
  }

  class ReorgScheduler {
    var curDone: Option<Channel>
    var nextDone: Channel
    var launchNextRun: bool
    var reset: Option<Heads>
    var dirtyAccounts: Option<set<Address>>
    var head: Head
    var closed: set<Channel>
    var phase: Phase
    ghost const first: Head
    ghost var runs: seq<Run>
    ghost var tickets: seq<Ticket>

    ghost predicate Valid()
      reads this
    {
      && OneAtATime(runs, curDone, nextDone, closed, phase)
      && AllKept(tickets, nextDone, launchNextRun, reset, dirtyAccounts, runs)
      && HeadsOk(first, runs, reset, head) && (reset.Some? ==> launchNextRun)
    }

    ghost function View(): Loop
      reads this
    {
      Loop(curDone, nextDone, launchNextRun, reset, dirtyAccounts, head, closed, phase, runs, tickets)
    }

    constructor (head: Head)
      ensures Valid() && first == head && runs == [] && tickets == [] && phase == Running
    {
      curDone, nextDone, launchNextRun, reset, dirtyAccounts := None, 0, false, None, None;
      this.head, first, closed, phase, runs, tickets := head, head, {}, Running, [], [];
    }

    /** The top of the loop: launches the next run if one is wanted and none is active. */
    method LaunchIfNeeded()
      requires Valid()
      modifies this
      ensures Valid() && tickets == old(tickets) && phase == old(phase) && closed == old(closed) && head == old(head)
      ensures if old(phase) == Running && old(curDone).None? && old(launchNextRun)
        then runs == old(runs) + [Run(old(nextDone), old(reset), old(dirtyAccounts))]
        else runs == old(runs)
      ensures View() == Launched(old(View()))
    {
      if phase != Running || curDone.Some? || !launchNextRun {
        return;
      }
      ghost var run := Run(nextDone, reset, dirtyAccounts);
      ChainedPush(first, runs, run);
      KeptLaunched(tickets, nextDone, reset, dirtyAccounts, runs);
      hide AllKept, Chained;
      runs := runs + [run];
      curDone, nextDone := Some(nextDone), nextDone + 1;
      launchNextRun := false;
      reset, dirtyAccounts := None, None;
    }

    /** A reset request, from the head before to the new one; it joins one that is already waiting. */
    method RequestReset(newHead: Head) returns (done: Channel)
      requires Valid() && phase == Running
      modifies this
      ensures Valid() && runs == old(runs) && phase == Running && closed == old(closed) && head == newHead
      ensures tickets == old(tickets) + [Ticket(done, NewHead)]
      ensures View() == Handled(old(View()), HeadArrived(newHead))
    {
      hide Chained, OneAtATime, AllKept;
      if reset.None? {
        reset := Some(Heads(head, newHead));
      } else {
        reset := Some(reset.value.(newHead := newHead));
      }
      KeptMore(tickets, nextDone, launchNextRun, old(reset), dirtyAccounts, runs, reset, dirtyAccounts, NewHead);
      head := newHead;
      launchNextRun := true;
      done := nextDone;
      tickets := tickets + [Ticket(done, NewHead)];
    }

    /** A request to promote accounts; it joins one that is already waiting. */
    method RequestPromote(accounts: set<Address>) returns (done: Channel)
      requires Valid() && phase == Running
      modifies this
      ensures Valid() && runs == old(runs) && phase == Running && closed == old(closed) && head == old(head)
      ensures tickets == old(tickets) + [Ticket(done, Accounts(accounts))]
      ensures View() == Handled(old(View()), PromotionWanted(accounts))
    {
      hide Chained, OneAtATime, AllKept, HeadsOk;
      if dirtyAccounts.None? {
        dirtyAccounts := Some(accounts);
      } else {
        dirtyAccounts := Some(dirtyAccounts.value + accounts);
      }
      KeptMore(tickets, nextDone, launchNextRun, reset, old(dirtyAccounts), runs, reset, dirtyAccounts,
               Accounts(accounts));
      launchNextRun := true;
      done := nextDone;
      tickets := tickets + [Ticket(done, Accounts(accounts))];
    }

    /** The active run ends and closes its channel. */
    method FinishRun()
      requires Valid() && curDone.Some? && curDone.value !in closed
      modifies this
      ensures Valid() && runs == old(runs) && tickets == old(tickets) && phase == old(phase) && head == old(head)
      ensures closed == old(closed) + {runs[|runs|-1].done}
      ensures View() == Handled(old(View()), RunFinished)
    {
      hide AllKept, HeadsOk;
      closed := closed + {curDone.value};
    }

    /** The loop receives from the closed channel of the run. */
    method NoticeFinish()
      requires Valid() && phase == Running && curDone.Some? && curDone.value in closed
      modifies this
      ensures Valid() && curDone.None? && runs == old(runs) && tickets == old(tickets) && phase == Running
      ensures closed == old(closed)
      ensures head == old(head)
      ensures View() == Handled(old(View()), FinishNoticed)
    {
      hide AllKept, HeadsOk;
      curDone := None;
    }

    method BeginShutdown()
      requires Valid() && phase == Running
      modifies `phase
      ensures Valid() && phase == Stopping
      ensures View() == Handled(old(View()), ShutdownRequested)
    {
      hide AllKept, HeadsOk;
      phase := Stopping;
    }

    /** With no run active any more, the loop closes the waiting channel and returns. */
    method CompleteShutdown()
      requires Valid() && phase == Stopping && (curDone.None? || curDone.value in closed)
      modifies this
      ensures Valid() && phase == Stopped && runs == old(runs) && tickets == old(tickets)
      ensures closed == old(closed) + {nextDone}
      ensures head == old(head)
      ensures View() == Handled(old(View()), ShutdownCompleted)
    {
      hide AllKept, HeadsOk;
      closed := closed + {nextDone};
      phase := Stopped;
    }

    /** At most one run is active. A closed channel means that a run served its holder's request, or the shutdown; an
        open one belongs to the current run or to the next, which is going to be launched. */
    ghost predicate Promise()
      reads this
    {
      && (forall i: Channel, j: Channel | i < |runs| && j < |runs| && i !in closed && j !in closed :: i == j)
      && (forall i | 0 <= i < |tickets| :: TicketOk(tickets[i], runs, closed, curDone, nextDone, launchNextRun, phase))
      && (phase == Stopped ==> forall t | t in tickets :: t.done in closed)
      && Chained(first, runs) && (reset.None? ==> Reached(first, runs) == head)
    }

    lemma PromiseHolds()
      requires Valid()
      ensures Promise()
    {
      hide Chained, Reached;
      forall i | 0 <= i < |tickets|
        ensures TicketOk(tickets[i], runs, closed, curDone, nextDone, launchNextRun, phase)
      {
        assert Kept(tickets[i], nextDone, launchNextRun, reset, dirtyAccounts, runs);
      }
    }

    /** The loop over any sequence of events; one that cannot happen in the loop's state is passed over. Every request
        up to the shutdown gets a channel, in order. Once a run has ended, that has been noticed and a run has ended
        again, all channels handed out before are closed. */
    method Schedule(events: seq<Event>)
      requires Valid()
      modifies this
      ensures Valid() && Promise()
      ensures View() == Turns(old(View()), events)
      ensures Wants(tickets) == Wants(old(tickets)) + Wanted(old(phase) == Running, events)
      ensures old(tickets) <= tickets && old(runs) <= runs && old(closed) <= closed
      ensures phase == Running <==> old(phase) == Running && ShutdownRequested !in events
      ensures old(phase) == Running && ShutdownRequested !in events ==>
        forall i, j, k | 0 <= i < j < k < |events| ::
          events[i].RunFinished? && events[j].FinishNoticed? && events[k].RunFinished? ==>
            forall t | t in old(tickets) :: t.done in closed
    {
      hide *;
      WantedStarts(old(phase) == Running, events, Wants(tickets));
      TurnsStart(View(), events);
      AllStaged();
      ViewIs();
      if phase == Running && ShutdownRequested !in events {
        Progress(View(), events);
      }
      for i := 0 to |events|
        invariant Valid() && View() == Turns(old(View()), events[..i])
        invariant Wants(tickets) == Wants(old(tickets)) + Wanted(old(phase) == Running, events[..i])
        invariant old(tickets) <= tickets && old(runs) <= runs && old(closed) <= closed
        invariant phase == Running <==> old(phase) == Running && ShutdownRequested !in events[..i]
      {
        WantedStep(old(phase) == Running, events, i);
        TurnsStep(old(View()), events, i);
        TurnIs(Turns(old(View()), events[..i]), events[i]);
        LaunchIfNeeded();
        HandleEvent(events[i]);
      }
      PromiseHolds();
      ViewIs();
    }

    lemma ViewIs()
      ensures View().phase == phase && View().tickets == tickets && View().closed == closed
    {
    }

    /** One turn of the loop's select. */
    method HandleEvent(e: Event)
      requires Valid()
      modifies this
      ensures Valid() && View() == Handled(old(View()), e)
      ensures runs == old(runs) && old(closed) <= closed && old(tickets) <= tickets
      ensures Wants(tickets) == Wants(old(tickets)) +
        if old(phase) != Running then []
        else if e.HeadArrived? then [NewHead]
        else if e.PromotionWanted? then [Accounts(e.accounts)]
        else []
      ensures phase == Running <==> old(phase) == Running && !e.ShutdownRequested?
    {
      hide *;
      PassedOver(e);
      match e
      case HeadArrived(h) =>
        if phase == Running {
          var done := RequestReset(h);
          WantsPush(old(tickets), Ticket(done, NewHead));
        }
      case PromotionWanted(accounts) =>
        if phase == Running {
          var done := RequestPromote(accounts);
          WantsPush(old(tickets), Ticket(done, Accounts(accounts)));
        }
      case RunFinished =>
        if curDone.Some? && curDone.value !in closed {
          FinishRun();
        }
      case FinishNoticed =>
        if phase == Running && curDone.Some? && curDone.value in closed {
          NoticeFinish();
        }
      case ShutdownRequested =>
        if phase == Running {
          BeginShutdown();
        }
      case ShutdownCompleted =>
        if phase == Stopping && (curDone.None? || curDone.value in closed) {
          CompleteShutdown();
        }
    }

    /** Events that cannot happen change nothing. */
    lemma PassedOver(e: Event)
      ensures match e
        case HeadArrived(_) => phase != Running ==> Handled(View(), e) == View()
        case PromotionWanted(_) => phase != Running ==> Handled(View(), e) == View()
        case RunFinished => !(curDone.Some? && curDone.value !in closed) ==> Handled(View(), e) == View()
        case FinishNoticed =>
          !(phase == Running && curDone.Some? && curDone.value in closed) ==> Handled(View(), e) == View()
        case ShutdownRequested => phase != Running ==> Handled(View(), e) == View()
        case ShutdownCompleted =>
          !(phase == Stopping && (curDone.None? || curDone.value in closed)) ==> Handled(View(), e) == View()
    {
      if curDone.Some? && curDone.value in closed {
        assert closed + {curDone.value} == closed;
      }
    }

    lemma AllStaged()
      requires Valid()
      ensures forall t | t in tickets :: Stage(View(), t.done, 0)
    {
      hide Chained, Reached, HeadsOk;
      forall t | t in tickets
        ensures Stage(View(), t.done, 0)
      {
        var i :| 0 <= i < |tickets| && tickets[i] == t;
        assert Kept(tickets[i], nextDone, launchNextRun, reset, dirtyAccounts, runs);
      }
    }
  }

  lemma TurnIs(s: Loop, e: Event)
    ensures Turn(s, e) == Handled(Launched(s), e)
  {
  }
}
