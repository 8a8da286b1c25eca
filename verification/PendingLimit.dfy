/** core/tx_pool.go: what truncatePending leaves of the pending lists. */
module PendingLimits {
  import opened Common
  import opened Transactions
  import opened SortedMaps
  import opened TxLists
  import opened PoolAccounts
  import opened PoolLists
  import opened PoolTotals
  import opened QueueLimits

  /** Lists cut to one level: the total is within the limit or the level is the guaranteed minimum, and one level
      higher there would have been too many. */
  ghost predicate Truncated(orig: AccountLists, after: AccountLists, locals: set<Address>, slots: nat, limit: nat,
                            level: nat) {
    && slots <= level && after == Level(orig, locals, level)
    && (Count(after) <= limit || level == slots)
    && Count(Level(orig, locals, level + 1)) > limit
  }

  lemma TruncatedHolds(orig: AccountLists, after: AccountLists, locals: set<Address>, slots: nat, limit: nat,
                       level: nat)
    requires slots <= level && after == Level(orig, locals, level) && (Count(after) <= limit || level == slots)
    requires Count(Level(orig, locals, level + 1)) > limit
    ensures Truncated(orig, after, locals, slots, limit, level)
  {
  }

  /** The accounts that lost transactions. */
  function Shortened(orig: AccountLists, after: AccountLists): (r: set<Address>) {
    set a | a in orig && ListOf(after, a) != orig[a]
  }

  lemma TruncatedParts(orig: AccountLists, after: AccountLists, locals: set<Address>, slots: nat, limit: nat,
                       level: nat)
    requires Truncated(orig, after, locals, slots, limit, level)
    ensures slots <= level && after == Level(orig, locals, level)
    ensures Count(after) <= limit || level == slots
    ensures Count(Level(orig, locals, level + 1)) > limit
  {
  }

  lemma TruncatedShrinks(orig: AccountLists, after: AccountLists, locals: set<Address>, slots: nat, limit: nat,
                         level: nat)
    requires after == orig || Truncated(orig, after, locals, slots, limit, level)
    ensures Shrunk(after, orig)
  {
  }

  lemma LevelKeys(orig: AccountLists, locals: set<Address>, level: nat)
    ensures Level(orig, locals, level).Keys == orig.Keys && Over(orig, locals, level) <= orig.Keys
  {
  }

  lemma LevelAt(orig: AccountLists, locals: set<Address>, level: nat, a: Address)
    requires a in orig
    ensures var after := Level(orig, locals, level);
      a in after && if a in Over(orig, locals, level) then |after[a]| == level else after[a] == orig[a]
    ensures a in Over(orig, locals, level) <==> a !in locals && |orig[a]| > level
  {
    CappedSize(orig[a], level);
    if |orig[a]| <= level {
      CappedAll(orig[a], level);
    }
  }

  lemma ShortenedOver(orig: AccountLists, after: AccountLists, over: set<Address>, level: nat)
    requires over <= orig.Keys == after.Keys
    requires forall a | a in orig :: if a in over then |after[a]| == level < |orig[a]| else after[a] == orig[a]
    ensures Shortened(orig, after) == over
  {
  }

  /** Local accounts and those within the minimum keep their lists, no list is cut below the minimum, the total is
      within the limit or every other list is down to the minimum, and fewer transactions too many were dropped
      than there are accounts that lost some. */
  lemma TruncatedFacts(orig: AccountLists, after: AccountLists, locals: set<Address>, slots: nat, limit: nat,
                       level: nat)
    requires Truncated(orig, after, locals, slots, limit, level)
    ensures after.Keys == orig.Keys
    ensures forall a | a in orig && (a in locals || |orig[a]| <= slots) :: after[a] == orig[a]
    ensures forall a | a in orig :: |after[a]| >= if |orig[a]| <= slots then |orig[a]| else slots
    ensures Count(after) <= limit || forall a | a in orig && a !in locals :: |after[a]| <= slots
    ensures limit - Count(after) < |Shortened(orig, after)|
    ensures forall a | a in Shortened(orig, after) :: |after[a]| == level
  {
    hide *;
    TruncatedParts(orig, after, locals, slots, limit, level);
    forall a | a in orig
      ensures a in after && (if a in Over(orig, locals, level) then |after[a]| == level else after[a] == orig[a])
      ensures a in Over(orig, locals, level) <==> a !in locals && |orig[a]| > level
    {
      LevelAt(orig, locals, level, a);
    }
    LevelCount(orig, locals, level);
    LevelKeys(orig, locals, level);
    ShortenedOver(orig, after, Over(orig, locals, level), level);
  }

  /** The accounts above the minimum are either still to come or already offenders. */
  ghost predicate SpamSplit(orig: AccountLists, locals: set<Address>, slots: nat, spammers: set<Address>,
                            offenders: seq<Address>) {
    spammers <= Over(orig, locals, slots) && Enumerates(offenders, Over(orig, locals, slots) - spammers)
  }

  /** The accounts are no locals, and their lists have at least `w` transactions. */
  ghost predicate AllReach(s: seq<Address>, orig: AccountLists, locals: set<Address>, w: nat) {
    forall i | 0 <= i < |s| :: s[i] in orig && s[i] !in locals && |orig[s[i]]| >= w
  }

  /** The offenders' lists were at least as long as the level, those still to come are not longer. */
  ghost predicate SpamLevel(orig: AccountLists, locals: set<Address>, spammers: set<Address>, offenders: seq<Address>,
                            level: nat) {
    AllReach(offenders, orig, locals, level) && forall a | a in spammers && a in orig :: |orig[a]| <= level
  }

  lemma {:induction false} HighestLevel(orig: AccountLists, locals: set<Address>, slots: nat) returns (w: nat)
    ensures slots <= w && forall a | a in orig :: |orig[a]| <= w
    decreases |orig|
  {
    w := slots;
    if orig != map[] {
      var a :| a in orig;
      SansSize(orig, a);
      var v := HighestLevel(Sans(orig, a), locals, slots);
      w := v + |orig[a]|;
      forall b | b in orig
        ensures |orig[b]| <= w
      {
        assert b != a ==> b in Sans(orig, a) && Sans(orig, a)[b] == orig[b];
      }
    }
  }

  lemma SpamStarts(orig: AccountLists, locals: set<Address>, slots: nat, w: nat)
    requires forall a | a in orig :: |orig[a]| <= w
    ensures SpamSplit(orig, locals, slots, Over(orig, locals, slots), [])
    ensures SpamLevel(orig, locals, Over(orig, locals, slots), [], w)
    ensures Level(orig, locals, w) == orig && Level(orig, locals, w + 1) == orig
  {
    assert Over(orig, locals, w) == {};
    LevelAbove(orig, locals, w, w);
    LevelAbove(orig, locals, w, w + 1);
    hide Level;
  }

  function Lengths(lists: AccountLists, accounts: set<Address>): (r: map<Address, nat>) {
    map a | a in accounts && a in lists :: |lists[a]|
  }

  predicate Longest(accounts: set<Address>, lengths: map<Address, nat>, a: Address) {
    a in lengths && forall b | b in accounts && b in lengths :: lengths[b] <= lengths[a]
  }

  lemma {:induction false} HasLongest(accounts: set<Address>, lengths: map<Address, nat>) returns (a: Address)
    requires accounts != {} && accounts <= lengths.Keys
    ensures a in accounts && Longest(accounts, lengths, a)
    decreases accounts
  {
    var b :| b in accounts;
    a := b;
    if accounts != {b} {
      assert accounts - {b} != {};
      var c := HasLongest(accounts - {b}, lengths);
      if lengths[c] > lengths[b] {
        a := c;
      }
      forall d | d in accounts
        ensures lengths[d] <= lengths[a]
      {
        assert d != b ==> d in accounts - {b};
      }
    }
  }

  lemma LongestExists(orig: AccountLists, locals: set<Address>, slots: nat, spammers: set<Address>,
                      offenders: seq<Address>)
    requires SpamSplit(orig, locals, slots, spammers, offenders) && spammers != {}
    ensures exists a :: a in spammers && Longest(spammers, Lengths(orig, Over(orig, locals, slots)), a)
  {
    var a := HasLongest(spammers, Lengths(orig, Over(orig, locals, slots)));
  }

  /** The next offender's list is untouched, and the longest of those still to come. */
  ghost predicate Next(orig: AccountLists, spammers: set<Address>, offender: Address) {
    offender in orig && forall a | a in spammers && a in orig :: |orig[a]| <= |orig[offender]|
  }

  lemma SpamParts(orig: AccountLists, locals: set<Address>, slots: nat, spammers: set<Address>, offenders: seq<Address>,
                  level: nat)
    requires SpamSplit(orig, locals, slots, spammers, offenders) && SpamLevel(orig, locals, spammers, offenders, level)
    ensures spammers <= Over(orig, locals, slots) && AllReach(offenders, orig, locals, level)
    ensures forall a | a in spammers && a in orig :: |orig[a]| <= level
  {
  }

  lemma NextFits(orig: AccountLists, locals: set<Address>, slots: nat, spammers: set<Address>, level: nat,
                 offender: Address)
    requires spammers <= Over(orig, locals, slots) && offender in spammers && Next(orig, spammers, offender)
    requires forall a | a in spammers && a in orig :: |orig[a]| <= level
    ensures offender in orig && offender in Level(orig, locals, level)
    ensures Level(orig, locals, level)[offender] == orig[offender]
    ensures slots < |orig[offender]| <= level && forall a | a in spammers && a in orig :: |orig[a]| <= |orig[offender]|
  {
    CappedAll(orig[offender], level);
  }

  lemma NoneOver(orig: AccountLists, locals: set<Address>, slots: nat, spammers: set<Address>, offenders: seq<Address>,
                 t: nat)
    requires SpamSplit(orig, locals, slots, spammers, offenders) && offenders == [] && slots <= t
    requires forall a | a in spammers && a in orig :: |orig[a]| <= t
    ensures Over(orig, locals, t) == {}
  {
    assert Over(orig, locals, slots) - spammers == {};
    assert Over(orig, locals, t) <= Over(orig, locals, slots);
  }

  lemma SameLevels(orig: AccountLists, locals: set<Address>, t: nat, level: nat)
    requires Over(orig, locals, t) == {} && t <= level
    ensures Level(orig, locals, t) == Level(orig, locals, t + 1)
         == Level(orig, locals, level) == Level(orig, locals, level + 1)
  {
    hide *;
    LevelAbove(orig, locals, t, t);
    LevelAbove(orig, locals, t, t + 1);
    LevelAbove(orig, locals, t, level);
    LevelAbove(orig, locals, t, level + 1);
  }

  lemma NextOffender(orig: AccountLists, locals: set<Address>, slots: nat, spammers: set<Address>, offender: Address)
    requires spammers <= Over(orig, locals, slots) && offender in spammers
    requires Longest(spammers, Lengths(orig, Over(orig, locals, slots)), offender)
    ensures Next(orig, spammers, offender)
  {
    var lengths := Lengths(orig, Over(orig, locals, slots));
    forall a | a in spammers && a in orig
      ensures |orig[a]| <= |orig[offender]|
    {
      assert lengths[a] <= lengths[offender];
    }
  }

  lemma OverOffenders(orig: AccountLists, locals: set<Address>, slots: nat, spammers: set<Address>,
                      offenders: seq<Address>, level: nat, t: nat)
    requires SpamSplit(orig, locals, slots, spammers, offenders) && AllReach(offenders, orig, locals, level)
    requires slots <= t < level
    requires forall a | a in spammers && a in orig :: |orig[a]| <= t
    ensures Enumerates(offenders, Over(orig, locals, t))
  {
    EnumeratesAll(offenders, Over(orig, locals, slots) - spammers);
    forall a | a in Over(orig, locals, slots) - spammers
      ensures a in Over(orig, locals, t)
    {
      var i :| 0 <= i < |offenders| && offenders[i] == a;
    }
    assert Over(orig, locals, slots) - spammers == Over(orig, locals, t);
  }

  lemma PopParts(orig: AccountLists, locals: set<Address>, slots: nat, spammers: set<Address>, offenders: seq<Address>,
                 level: nat, offender: Address)
    requires SpamSplit(orig, locals, slots, spammers, offenders) && SpamLevel(orig, locals, spammers, offenders, level)
    requires slots <= level
    requires offender in spammers && Longest(spammers, Lengths(orig, Over(orig, locals, slots)), offender)
    ensures Next(orig, spammers, offender) && offender in orig && offender in Level(orig, locals, level)
    ensures AllReach(offenders, orig, locals, level) && Level(orig, locals, level)[offender] == orig[offender]
    ensures slots < |orig[offender]| <= level
    ensures |orig[offender]| < level ==> Enumerates(offenders, Over(orig, locals, |orig[offender]|))
    ensures offenders == [] ==> 
      var t := |orig[offender]|;
      Level(orig, locals, t) == Level(orig, locals, t + 1)
      == Level(orig, locals, level) == Level(orig, locals, level + 1)
  {
    hide *;
    SpamParts(orig, locals, slots, spammers, offenders, level);
    NextOffender(orig, locals, slots, spammers, offender);
    NextFits(orig, locals, slots, spammers, level, offender);
    var t := |orig[offender]|;
    if t < level {
      OverOffenders(orig, locals, slots, spammers, offenders, level, t);
    }
    if offenders == [] {
      NoneOver(orig, locals, slots, spammers, offenders, t);
      SameLevels(orig, locals, t, level);
    }
  }

  lemma EnumeratesPush(s: seq<Address>, accounts: set<Address>, a: Address)
    requires Enumerates(s, accounts) && a !in accounts
    ensures Enumerates(s + [a], accounts + {a})
  {
  }

  lemma ReachPush(s: seq<Address>, orig: AccountLists, locals: set<Address>, was: nat, level: nat, a: Address)
    requires AllReach(s, orig, locals, was) && level <= was && a in orig && a !in locals && |orig[a]| >= level
    ensures AllReach(s + [a], orig, locals, level)
  {
  }

  lemma PopDone(orig: AccountLists, locals: set<Address>, slots: nat, spammers: set<Address>, offenders: seq<Address>,
                was: nat, level: nat, offender: Address)
    requires SpamSplit(orig, locals, slots, spammers, offenders) && SpamLevel(orig, locals, spammers, offenders, was)
    requires offender in spammers && Next(orig, spammers, offender) && level <= was
    ensures SpamSplit(orig, locals, slots, spammers - {offender}, offenders + [offender])
    ensures level == |orig[offender]| ==> SpamLevel(orig, locals, spammers - {offender}, offenders + [offender], level)
  {
    var over := Over(orig, locals, slots);
    assert offender in over;
    assert over - (spammers - {offender}) == (over - spammers) + {offender};
    hide Over, AllReach, Enumerates;
    EnumeratesPush(offenders, over - spammers, offender);
    if level == |orig[offender]| {
      ReachPush(offenders, orig, locals, was, level, offender);
    }
  }

  lemma SpamEnds(orig: AccountLists, locals: set<Address>, slots: nat, spammers: set<Address>, offenders: seq<Address>,
                 level: nat)
    requires SpamSplit(orig, locals, slots, spammers, offenders) && slots <= level
    ensures spammers == {} ==> Enumerates(offenders, Over(orig, locals, slots))
    ensures spammers == {} && SpamLevel(orig, locals, spammers, offenders, level) ==>
      AllReach(offenders, orig, locals, level)
    ensures spammers == {} && offenders == [] ==>
      Level(orig, locals, slots) == Level(orig, locals, slots + 1)
      == Level(orig, locals, level) == Level(orig, locals, level + 1)
  {
    if spammers == {} {
      assert Over(orig, locals, slots) - spammers == Over(orig, locals, slots);
      if offenders == [] {
        NoneOver(orig, locals, slots, spammers, offenders, slots);
        SameLevels(orig, locals, slots, level);
      }
    }
    hide Level, Over;
  }

  lemma LevelSize(s: seq<Address>, orig: AccountLists, locals: set<Address>, w: nat, level: nat)
    requires AllReach(s, orig, locals, w) && level <= w && s != []
    ensures var last := s[|s|-1]; last in Level(orig, locals, level) && |Level(orig, locals, level)[last]| == level
  {
    CappedSize(orig[s[|s|-1]], level);
  }

  /** Between the threshold and the offenders' level, the accounts above the level are the offenders. */
  lemma OverSame(s: seq<Address>, orig: AccountLists, locals: set<Address>, threshold: nat, w: nat, level: nat)
    requires AllReach(s, orig, locals, w) && threshold < level <= w && Enumerates(s, Over(orig, locals, threshold))
    ensures Enumerates(s, Over(orig, locals, level - 1))
  {
    EnumeratesAll(s, Over(orig, locals, threshold));
    forall a | a in Over(orig, locals, threshold)
      ensures a in Over(orig, locals, level - 1)
    {
      var i :| 0 <= i < |s| && s[i] == a;
    }
    assert Over(orig, locals, level - 1) == Over(orig, locals, threshold);
  }

  ghost predicate CutSoFar(s: seq<Address>, i: nat, cut: set<Address>) {
    i <= |s| && |cut| == i && forall a | a in cut :: a in s[..i]
  }

  lemma CutStarts(s: seq<Address>)
    ensures CutSoFar(s, 0, {})
  {
  }

  lemma CutStep(s: seq<Address>, accounts: set<Address>, i: nat, cut: set<Address>)
    requires CutSoFar(s, i, cut) && i < |s| && Enumerates(s, accounts)
    ensures s[i] in accounts && s[i] !in cut && CutSoFar(s, i + 1, cut + {s[i]})
  {
    assert s[..i+1] == s[..i] + [s[i]];
    assert s[i] !in s[..i];
  }

  lemma CutEnds(s: seq<Address>, accounts: set<Address>, cut: set<Address>)
    requires CutSoFar(s, |s|, cut) && Enumerates(s, accounts)
    ensures cut == accounts && |s| == |accounts|
  {
    assert s[..|s|] == s;
    assert cut <= accounts;
    SubsetSize(cut, accounts);
  }
}
