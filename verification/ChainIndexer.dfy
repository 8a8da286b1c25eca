/** core/chain_indexer.go: an index of the chain in sections of equal size. A section is processed
    without holding the lock, header by header, while the chain may reorganise underneath; the
    section heads stored are what later tells which sections are still valid. */
module ChainIndexers {
  import opened BlockTree
  import opened Common

  /** A section being processed: the head of the section before it, the next number to read, the
      header read last (initially that head), and whether processing has failed. */
  datatype Job = Job(section: nat, oldHead: Option<Block>, next: nat, last: Option<Block>, broken: bool)

  /** `size` blocks make a section; `confirms` blocks must follow it before it is processed; the first
      `checkpoint` sections are covered by the trusted head `trusted`. */
  datatype Config = Config(size: Positive, confirms: nat, checkpoint: nat, trusted: Option<Block>)

  /** `stored` sections are indexed, `known` are known to be complete; `heads` maps a section to its
      last block. */
  datatype Index = Index(stored: nat, known: nat, heads: map<nat, Block>, job: Option<Job>)

  /** Reading a database entry that may be absent. */
  function Read<K, V>(m: map<K, V>, k: K): (v: Option<V>) {
    if k in m then Some(m[k]) else None
  }

  /** The number of the last block of the first `sections` sections, which must not be none. */
  function EndOf(sections: nat, size: Positive): (n: nat)
    requires sections > 0
  {
    sections * size - 1
  }

  /** setValidSections. */
  function SetValid(s: Index, sections: nat): (r: Index) {
    s.(stored := sections, heads := map i | i in s.heads && !(sections <= i < s.stored) :: s.heads[i])
  }

  /** A section is checked by the canonical block at its end. */
  predicate HeadCanonical(heads: map<nat, Block>, canon: map<nat, Block>, section: nat, size: Positive) {
    Read(heads, section) == Read(canon, EndOf(section + 1, size))
  }

  /** How many sections verifyLastHead leaves: it drops the last one until that is canonical or covered by the
      checkpoint. */
  function Verified(heads: map<nat, Block>, canon: map<nat, Block>, stored: nat, c: Config): (n: nat)
    ensures n <= stored
  {
    if stored > 0 && stored > c.checkpoint && !HeadCanonical(heads, canon, stored - 1, c.size)
    then Verified(heads, canon, stored - 1, c)
    else stored
  }

  /** verifyLastHead. */
  function VerifyLast(s: Index, canon: map<nat, Block>, c: Config): (r: Index) {
    SetValid(s, Verified(s.heads, canon, s.stored, c))
  }

  /** newHead on a reorganisation down to block `head`. */
  function Reverted(s: Index, head: nat, c: Config): (r: Index) {
    var sections := (head + 1) / c.size;
    var known := if sections < c.checkpoint then 0 else sections;
    var stored := if sections < c.checkpoint then c.checkpoint else sections;
    var t := if known < s.known then s.(known := known) else s;
    if stored < t.stored then SetValid(t, stored) else t
  }

  /** newHead on progress to block `head`. */
  function Advanced(s: Index, head: nat, canon: map<nat, Block>, c: Config): (r: Index) {
    if head < c.confirms then s
    else
      var complete := (head + 1 - c.confirms) / c.size;
      var sections := if complete < c.checkpoint then 0 else complete;
      if sections <= s.known then s
      else if s.known < c.checkpoint && Read(canon, EndOf(c.checkpoint, c.size)) != c.trusted then s
      else s.(known := sections)
  }

  /** The locked beginning of an update: the last head is verified and the next section chosen. */
  function Begun(s: Index, canon: map<nat, Block>, c: Config): (r: Index) {
    if s.known <= s.stored then s
    else
      var t := VerifyLast(s, canon, c);
      var oldHead := if t.stored > 0 then Read(t.heads, t.stored - 1) else None;
      t.(job := Some(Job(t.stored, oldHead, t.stored * c.size, oldHead, false)))
  }

  /** One header of the section being read, with the lock not held. A number without a canonical
      header, or a header that does not follow the one before, breaks the job. */
  function NextRead(j: Job, canon: map<nat, Block>, headers: set<Block>): (r: Job) {
    match Read(canon, j.next)
    case None => j.(broken := true)
    case Some(b) =>
      if b !in headers || Number(b) != j.next || ParentHash(b) != j.last then j.(broken := true)
      else j.(next := j.next + 1, last := Some(b))
  }

  /** The locked end of an update: if the section was processed and the head it continues from is
      still stored, the section is stored; otherwise nothing is retried until the next notification. */
  function Ended(s: Index, canon: map<nat, Block>, c: Config): (r: Index)
    requires s.job.Some?
  {
    var j := s.job.value;
    if !j.broken && j.last.Some? && (j.section == 0 || j.oldHead == Read(s.heads, j.section - 1)) then
      SetValid(s.(heads := s.heads[j.section := j.last.value], job := None), j.section + 1)
    else
      var t := VerifyLast(s, canon, c);
      t.(known := t.stored, job := None)
  }

  /** What happens to the indexer, each step under a canonical map and set of known headers of its
      own: notifications, queries, and an update's start, reads, backend errors and end. A backend that
      refuses to reset drops every section. */
  datatype Event =
    | Reorganised(head: nat)
    | Progressed(head: nat, canon: map<nat, Block>)
    | Queried(canon: map<nat, Block>)
    | Start(canon: map<nat, Block>)
    | ReadOne(canon: map<nat, Block>, headers: set<Block>)
    | BackendError(resetRefused: bool)
    | End(canon: map<nat, Block>)

  predicate ReadsLeft(j: Job, c: Config) {
    !j.broken && j.next < (j.section + 1) * c.size
  }

  /** Events that do not apply, such as a read with no job running, change nothing. */
  function Step(s: Index, e: Event, c: Config): (r: Index) {
    match e
    case Reorganised(head) => Reverted(s, head, c)
    case Progressed(head, canon) => Advanced(s, head, canon, c)
    case Queried(canon) => VerifyLast(s, canon, c)
    case Start(canon) => if s.job.Some? then s else Begun(s, canon, c)
    case ReadOne(canon, headers) =>
      if s.job.None? || !ReadsLeft(s.job.value, c) then s
      else s.(job := Some(NextRead(s.job.value, canon, headers)))
    case BackendError(resetRefused) =>
      if s.job.None? then s
      else
        var t := if resetRefused then SetValid(s, 0) else s;
        t.(job := Some(s.job.value.(broken := true)))
    case End(canon) => if s.job.None? || ReadsLeft(s.job.value, c) then s else Ended(s, canon, c)
  }

  function Run(s: Index, es: seq<Event>, c: Config): (r: Index)
    decreases |es|
  {
    if es == [] then s else Run(Step(s, es[0], c), es[1..], c)
  }

  /** Section `i` ends in its stored head, which descends, one section back, from the head before. */
  ghost predicate LinkedSection(heads: map<nat, Block>, i: nat, c: Config) {
    && i in heads
    && Number(heads[i]) == EndOf(i + 1, c.size)
    && (i > 0 ==> i - 1 in heads && AncestorAt(heads[i], EndOf(i, c.size)) == heads[i - 1])
  }

  /** What every step keeps: the sections above the checkpoint are linked to one another and to the
      checkpoint, no head is left above the stored ones, and a running job is a path that grows
      from the head it started at. */
  ghost predicate Linked(s: Index, c: Config) {
    && (forall i | i in s.heads :: i < s.stored)
    && (forall i {:trigger LinkedSection(s.heads, i, c)} | c.checkpoint <= i < s.stored :: LinkedSection(s.heads, i, c))
    && (s.stored > 0 ==> s.stored - 1 in s.heads)
    && (s.job.Some? ==> GoodJob(s.job.value, s.stored, c))
  }

  ghost predicate GoodJob(j: Job, stored: nat, c: Config) {
    && stored <= j.section
    && (j.oldHead.None? <==> j.section == 0)
    && j.section * c.size <= j.next <= (j.section + 1) * c.size
    && (j.next == j.section * c.size ==> j.last == j.oldHead)
    && (j.next > j.section * c.size ==>
          && j.last.Some? && Number(j.last.value) == j.next - 1
          && (j.section > 0 ==> AncestorAt(j.last.value, EndOf(j.section, c.size)) == j.oldHead.value))
  }

  /** A fresh index, and one that starts from a checkpoint, are linked. */
  lemma StartsLinked(c: Config)
    requires c.checkpoint > 0 ==> c.trusted.Some?
    ensures c.checkpoint == 0 ==> Linked(Index(0, 0, map[], None), c)
    ensures c.checkpoint > 0 ==> Linked(Index(c.checkpoint, 0, map[c.checkpoint - 1 := c.trusted.value], None), c)
  {
  }

  /** Dropping the last sections keeps the rest linked, unless it cuts into the checkpoint. */
  lemma SetValidLinked(s: Index, n: nat, c: Config)
    requires Linked(s, c) && n <= s.stored && (n < s.stored ==> n >= c.checkpoint || n == 0)
    ensures Linked(SetValid(s, n), c)
  {
    var t := SetValid(s, n);
    if n < s.stored && n > 0 {
      assert LinkedSection(s.heads, n, c);
    }
    forall i | c.checkpoint <= i < n
      ensures LinkedSection(t.heads, i, c)
    {
      assert LinkedSection(s.heads, i, c);
    }
  }

  lemma {:induction false} VerifiedAboveCheckpoint(heads: map<nat, Block>, canon: map<nat, Block>, stored: nat,
                                                   c: Config)
    ensures Verified(heads, canon, stored, c) < stored ==> Verified(heads, canon, stored, c) >= c.checkpoint
  {
    if Verified(heads, canon, stored, c) < stored {
      VerifiedAboveCheckpoint(heads, canon, stored - 1, c);
    }
  }

  lemma VerifyLastLinked(s: Index, canon: map<nat, Block>, c: Config)
    requires Linked(s, c)
    ensures Linked(VerifyLast(s, canon, c), c)
  {
    VerifiedAboveCheckpoint(s.heads, canon, s.stored, c);
    SetValidLinked(s, Verified(s.heads, canon, s.stored, c), c);
  }

  /** The arithmetic of section ends. */
  lemma Ends(i: nat, size: Positive)
    ensures (i + 1) * size == i * size + size
    ensures i > 0 ==> EndOf(i, size) + 1 == i * size
  {
  }

  lemma NextReadGood(j: Job, stored: nat, canon: map<nat, Block>, headers: set<Block>, c: Config)
    requires GoodJob(j, stored, c) && ReadsLeft(j, c)
    ensures GoodJob(NextRead(j, canon, headers), stored, c)
  {
    var r := NextRead(j, canon, headers);
    Ends(j.section, c.size);
    if !r.broken && j.section > 0 {
      var b := r.last.value;
      assert b.Child? && j.last == Some(b.parent);
    }
  }

  lemma EndedLinked(s: Index, canon: map<nat, Block>, c: Config)
    requires Linked(s, c) && s.job.Some? && !ReadsLeft(s.job.value, c)
    ensures Linked(Ended(s, canon, c), c)
  {
    var j := s.job.value;
    if !j.broken && (j.section == 0 || j.oldHead == Read(s.heads, j.section - 1)) {
      var t := Ended(s, canon, c);
      Ends(j.section, c.size);
      assert s.stored == j.section;
      forall i | c.checkpoint <= i < t.stored
        ensures LinkedSection(t.heads, i, c)
      {
        if i < j.section {
          assert LinkedSection(s.heads, i, c);
        }
      }
    } else {
      VerifyLastLinked(s, canon, c);
    }
  }

  lemma BegunLinked(s: Index, canon: map<nat, Block>, c: Config)
    requires Linked(s, c)
    ensures Linked(Begun(s, canon, c), c)
  {
    VerifyLastLinked(s, canon, c);
    if s.known > s.stored {
      var t := VerifyLast(s, canon, c);
      Ends(t.stored, c.size);
    }
  }

  lemma StepLinked(s: Index, e: Event, c: Config)
    requires Linked(s, c)
    ensures Linked(Step(s, e, c), c)
  {
    match e
    case Reorganised(head) =>
      if Reverted(s, head, c).stored < s.stored {
        SetValidLinked(s, Reverted(s, head, c).stored, c);
      }
    case Progressed(_, _) =>
    case Queried(canon) => VerifyLastLinked(s, canon, c);
    case Start(canon) => BegunLinked(s, canon, c);
    case ReadOne(canon, headers) =>
      if s.job.Some? && ReadsLeft(s.job.value, c) {
        NextReadGood(s.job.value, s.stored, canon, headers, c);
      }
    case BackendError(_) => SetValidLinked(s, 0, c);
    case End(canon) =>
      if s.job.Some? && !ReadsLeft(s.job.value, c) {
        EndedLinked(s, canon, c);
      }
  }

  /** In every interleaving of notifications, queries and section processing, whatever canonical maps
      the steps see, each stored section head above the checkpoint descends from the one before it. */
  lemma {:induction false} RunLinked(s: Index, es: seq<Event>, c: Config)
    requires Linked(s, c)
    ensures Linked(Run(s, es, c), c)
    decreases |es|
  {
    if es != [] {
      StepLinked(s, es[0], c);
      RunLinked(Step(s, es[0], c), es[1..], c);
    }
  }

  /** If a stored head above the checkpoint is canonical, so is the one before it. */
  lemma CanonicalBelow(s: Index, tip: Block, i: nat, c: Config)
    requires Linked(s, c) && c.checkpoint <= i < s.stored && i > 0
    requires HeadCanonical(s.heads, PathMap(tip), i, c.size)
    ensures HeadCanonical(s.heads, PathMap(tip), i - 1, c.size)
  {
    assert LinkedSection(s.heads, i, c);
    Ends(i, c.size);
    AncestorTransitive(tip, EndOf(i + 1, c.size), EndOf(i, c.size));
  }

  lemma {:induction false} CanonicalAllBelow(s: Index, tip: Block, i: nat, k: nat, c: Config)
    requires Linked(s, c) && i <= k < s.stored && c.checkpoint <= i + 1
    requires HeadCanonical(s.heads, PathMap(tip), k, c.size)
    ensures HeadCanonical(s.heads, PathMap(tip), i, c.size)
    decreases k
  {
    if i < k {
      CanonicalBelow(s, tip, k, c);
      CanonicalAllBelow(s, tip, i, k - 1, c);
    }
  }

  lemma {:induction false} VerifiedStops(heads: map<nat, Block>, canon: map<nat, Block>, stored: nat, c: Config)
    ensures var n := Verified(heads, canon, stored, c);
      && (n > c.checkpoint ==> HeadCanonical(heads, canon, n - 1, c.size))
      && (forall i | n <= i < stored :: !HeadCanonical(heads, canon, i, c.size))
  {
    if Verified(heads, canon, stored, c) < stored {
      VerifiedStops(heads, canon, stored - 1, c);
    }
  }

  lemma KeptCanonical(s: Index, tip: Block, i: nat, c: Config)
    requires Linked(s, c) && c.checkpoint <= i + 1 && i < s.stored
    ensures var n := Verified(s.heads, PathMap(tip), s.stored, c);
      && (i < n && n > c.checkpoint ==> HeadCanonical(s.heads, PathMap(tip), i, c.size))
      && (n <= i ==> !HeadCanonical(s.heads, PathMap(tip), i, c.size))
  {
    var n := Verified(s.heads, PathMap(tip), s.stored, c);
    VerifiedStops(s.heads, PathMap(tip), s.stored, c);
    if i < n && n > c.checkpoint {
      CanonicalAllBelow(s, tip, i, n - 1, c);
    }
  }

  /** Although verifyLastHead looks at the last head only, above the checkpoint it keeps exactly the
      sections whose heads are canonical, and if it keeps any the checkpoint itself is canonical. */
  lemma VerifyLastExact(s: Index, tip: Block, c: Config)
    requires Linked(s, c)
    ensures var r := VerifyLast(s, PathMap(tip), c);
      && (forall i: nat | c.checkpoint <= i < s.stored ::
            i < r.stored <==> HeadCanonical(s.heads, PathMap(tip), i, c.size))
      && (forall i | i in s.heads && i < r.stored :: i in r.heads && r.heads[i] == s.heads[i])
      && (r.stored > c.checkpoint > 0 ==> HeadCanonical(s.heads, PathMap(tip), c.checkpoint - 1, c.size))
  {
    var r := VerifyLast(s, PathMap(tip), c);
    forall i: nat | c.checkpoint <= i < s.stored
      ensures i < r.stored <==> HeadCanonical(s.heads, PathMap(tip), i, c.size)
    {
      KeptCanonical(s, tip, i, c);
    }
    if r.stored > c.checkpoint > 0 {
      KeptCanonical(s, tip, c.checkpoint - 1, c);
    }
  }

  /** Section `i` lies within the first `head + 1` blocks iff it is one of the whole sections there. */
  lemma SectionsFit(i: nat, head: nat, size: Positive)
    ensures EndOf(i + 1, size) <= head <==> i < (head + 1) / size
  {
    var q := (head + 1) / size;
    assert q * size <= head + 1 < q * size + size;
    if i < q {
      assert (i + 1) * size <= q * size;
    } else {
      assert (i + 1) * size >= (q + 1) * size == q * size + size;
    }
  }

  lemma SharedHead(s: Index, oldTip: Block, newTip: Block, head: nat, i: nat, c: Config)
    requires head <= Number(oldTip) && head <= Number(newTip) && AncestorAt(oldTip, head) == AncestorAt(newTip, head)
    requires EndOf(i + 1, c.size) <= head
    requires HeadCanonical(s.heads, PathMap(oldTip), i, c.size)
    ensures HeadCanonical(s.heads, PathMap(newTip), i, c.size)
  {
    AncestorTransitive(oldTip, head, EndOf(i + 1, c.size));
    AncestorTransitive(newTip, head, EndOf(i + 1, c.size));
  }

  /** How many sections a reorganisation down to `head` leaves. */
  lemma RevertedStored(s: Index, head: nat, c: Config)
    ensures var q := (head + 1) / c.size; var keep := if q < c.checkpoint then c.checkpoint else q;
      Reverted(s, head, c).stored == if s.stored < keep then s.stored else keep
    ensures forall i: nat | i in s.heads && i < Reverted(s, head, c).stored ::
      Read(Reverted(s, head, c).heads, i) == Some(s.heads[i])
  {
  }

  /** A notification that the chain reorganised down to `head` drops no section that ends at or
      below it, and leaves only sections that are canonical on the new chain. */
  lemma RevertedCanonical(s: Index, oldTip: Block, newTip: Block, head: nat, i: nat, c: Config)
    requires Linked(s, c) && c.checkpoint <= i < s.stored
    requires head <= Number(oldTip) && head <= Number(newTip) && AncestorAt(oldTip, head) == AncestorAt(newTip, head)
    requires HeadCanonical(s.heads, PathMap(oldTip), i, c.size)
    ensures i < Reverted(s, head, c).stored <==> EndOf(i + 1, c.size) <= head
    ensures i < Reverted(s, head, c).stored ==> HeadCanonical(Reverted(s, head, c).heads, PathMap(newTip), i, c.size)
  {
    SectionsFit(i, head, c.size);
    RevertedStored(s, head, c);
    hide Reverted, PathMap;
    if i < Reverted(s, head, c).stored {
      SharedHead(s, oldTip, newTip, head, i, c);
      assert LinkedSection(s.heads, i, c);
    }
  }

  // ---- Progress ----

  /** Notifications of progress make known exactly the sections whose last block has its confirmations, above the
      checkpoint and once that is on the chain; no section is forgotten. */
  lemma AdvancedKnown(s: Index, head: nat, canon: map<nat, Block>, i: nat, c: Config)
    requires c.checkpoint <= i
    ensures var trusting := s.known >= c.checkpoint || Read(canon, EndOf(c.checkpoint, c.size)) == c.trusted;
      i < Advanced(s, head, canon, c).known <==>
        i < s.known || (trusting && EndOf(i + 1, c.size) + c.confirms <= head)
  {
    if head >= c.confirms {
      SectionsFit(i, head - c.confirms, c.size);
    }
  }

  /** Those of a reorganisation leave known exactly the sections that end at or below the common ancestor. */
  lemma RevertedKnown(s: Index, head: nat, i: nat, c: Config)
    requires c.checkpoint <= i
    ensures i < Reverted(s, head, c).known <==> i < s.known && EndOf(i + 1, c.size) <= head
  {
    SectionsFit(i, head, c.size);
  }

  /** A read goes on exactly with a canonical header that is known and follows the one before. */
  lemma ReadExactly(j: Job, canon: map<nat, Block>, headers: set<Block>)
    requires !j.broken
    ensures var r := NextRead(j, canon, headers);
      && (!r.broken <==> j.next in canon && canon[j.next] in headers && Number(canon[j.next]) == j.next
                         && (if canon[j.next].Child? then Some(canon[j.next].parent) else None) == j.last)
      && (!r.broken ==> r.next == j.next + 1 && r.last == Some(canon[j.next]))
      && (r.broken ==> r.next == j.next && r.last == j.last)
      && r.section == j.section && r.oldHead == j.oldHead
  {
  }

  /** A section that could not be processed is not tried again until a notification says there is more to know. */
  lemma FailedWaits(s: Index, canon: map<nat, Block>, c: Config, later: map<nat, Block>)
    requires s.job.Some? && s.job.value.broken
    ensures var r := Step(s, End(canon), c);
      r.job.None? && r.stored <= s.stored && r.known == r.stored && Step(r, Start(later), c) == r
  {
  }

  /** The last head stored is on the chain up to `tip`. */
  ghost predicate OnChain(s: Index, tip: Block, c: Config) {
    s.stored > 0 ==> HeadCanonical(s.heads, PathMap(tip), s.stored - 1, c.size)
  }

  /** The headers of a section are on the chain up to `tip`, and known. */
  ghost predicate SectionThere(section: nat, tip: Block, headers: set<Block>, c: Config) {
    && EndOf(section + 1, c.size) <= Number(tip)
    && forall n: nat | section * c.size <= n < (section + 1) * c.size :: AncestorAt(tip, n) in headers
  }

  /** An update that nothing interferes with. */
  ghost function Update(tip: Block, headers: set<Block>, c: Config): (es: seq<Event>) {
    [Start(PathMap(tip))] + Reads(c.size, tip, headers) + [End(PathMap(tip))]
  }

  ghost function Reads(k: nat, tip: Block, headers: set<Block>): (es: seq<Event>) {
    if k == 0 then [] else Reads(k - 1, tip, headers) + [ReadOne(PathMap(tip), headers)]
  }

  lemma {:induction false} RunJoin(s: Index, es: seq<Event>, fs: seq<Event>, c: Config)
    ensures Run(s, es + fs, c) == Run(Run(s, es, c), fs, c)
    decreases |es|
  {
    if es == [] {
      assert es + fs == fs;
    } else {
      assert (es + fs)[0] == es[0] && (es + fs)[1..] == es[1..] + fs;
      RunJoin(Step(s, es[0], c), es[1..], fs, c);
    }
  }

  lemma RunOne(s: Index, e: Event, c: Config)
    ensures Run(s, [e], c) == Step(s, e, c)
  {
    assert [e][1..] == [];
  }

  /** With its last head on the chain an index loses nothing to verification. */
  lemma VerifiesAll(s: Index, tip: Block, c: Config)
    requires OnChain(s, tip, c)
    ensures VerifyLast(s, PathMap(tip), c) == s
  {
    assert (map i | i in s.heads && !(s.stored <= i < s.stored) :: s.heads[i]) == s.heads;
  }

  /** The block on the chain before number `n`. */
  ghost function Preceding(tip: Block, n: nat): (b: Option<Block>) {
    if n == 0 then None else Some(AncestorAt(tip, n - 1))
  }

  /** A job that has read the chain up to number `n`, for the section that starts at `start`. */
  ghost function JobAt(section: nat, start: nat, n: nat, tip: Block): (j: Job) {
    Job(section, Preceding(tip, start), n, Preceding(tip, n), false)
  }

  lemma ReadFollows(section: nat, start: nat, n: nat, tip: Block, headers: set<Block>)
    requires n <= Number(tip) && AncestorAt(tip, n) in headers
    ensures NextRead(JobAt(section, start, n, tip), PathMap(tip), headers) == JobAt(section, start, n + 1, tip)
  {
    if n > 0 {
      AncestorTransitive(tip, n, n - 1);
    }
    hide PathMap;
  }

  lemma ReadSteps(s: Index, start: nat, n: nat, end: nat, tip: Block, headers: set<Block>, c: Config)
    requires n < end == (s.stored + 1) * c.size && n <= Number(tip) && AncestorAt(tip, n) in headers
    ensures Step(s.(job := Some(JobAt(s.stored, start, n, tip))), ReadOne(PathMap(tip), headers), c)
         == s.(job := Some(JobAt(s.stored, start, n + 1, tip)))
  {
    hide PathMap, NextRead, AncestorAt, Preceding;
    ReadFollows(s.stored, start, n, tip, headers);
  }

  lemma {:induction false} ReadsFollow(s: Index, start: nat, end: nat, tip: Block, headers: set<Block>, k: nat,
                                       c: Config)
    requires start + k <= end == (s.stored + 1) * c.size && start + k <= Number(tip) + 1
    requires forall n: nat | start <= n < start + k :: AncestorAt(tip, n) in headers
    ensures Run(s.(job := Some(JobAt(s.stored, start, start, tip))), Reads(k, tip, headers), c)
         == s.(job := Some(JobAt(s.stored, start, start + k, tip)))
  {
    hide PathMap, Step, AncestorAt, JobAt;
    if k > 0 {
      ReadsFollow(s, start, end, tip, headers, k - 1, c);
      ReadSteps(s, start, start + k - 1, end, tip, headers, c);
      var t := s.(job := Some(JobAt(s.stored, start, start, tip)));
      var e := ReadOne(PathMap(tip), headers);
      RunJoin(t, Reads(k - 1, tip, headers), [e], c);
      RunOne(Run(t, Reads(k - 1, tip, headers), c), e, c);
    }
  }

  lemma HeadPrecedes(s: Index, start: nat, tip: Block, c: Config)
    requires OnChain(s, tip, c) && start == s.stored * c.size && start <= Number(tip) + 1
    ensures (if s.stored > 0 then Read(s.heads, s.stored - 1) else None) == Preceding(tip, start)
  {
    if s.stored > 0 {
      Ends(s.stored, c.size);
    }
  }

  lemma StartBegins(s: Index, start: nat, tip: Block, c: Config)
    requires s.job.None? && s.known > s.stored && OnChain(s, tip, c)
    requires start == s.stored * c.size && start <= Number(tip) + 1
    ensures Step(s, Start(PathMap(tip)), c) == s.(job := Some(JobAt(s.stored, start, start, tip)))
  {
    hide PathMap, OnChain, VerifyLast, Preceding;
    VerifiesAll(s, tip, c);
    HeadPrecedes(s, start, tip, c);
  }

  lemma EndStores(s: Index, start: nat, end: nat, tip: Block, c: Config)
    requires s.job.None? && end == (s.stored + 1) * c.size && end > 0 && (forall i | i in s.heads :: i < s.stored)
    requires s.stored > 0 ==> Read(s.heads, s.stored - 1) == Preceding(tip, start)
    ensures Step(s.(job := Some(JobAt(s.stored, start, end, tip))), End(PathMap(tip)), c)
         == s.(stored := s.stored + 1, heads := s.heads[s.stored := AncestorAt(tip, end - 1)])
  {
    hide PathMap, AncestorAt, VerifyLast;
    var heads := s.heads[s.stored := AncestorAt(tip, end - 1)];
    assert (map i | i in heads && !(s.stored + 1 <= i < s.stored) :: heads[i]) == heads;
  }

  /** An update on a quiet chain stores the next section, with its block on the chain as head, and keeps the others. */
  lemma UpdateStores(s: Index, tip: Block, headers: set<Block>, c: Config)
    requires Linked(s, c) && s.job.None? && s.known > s.stored && OnChain(s, tip, c)
    requires SectionThere(s.stored, tip, headers, c)
    ensures Run(s, Update(tip, headers, c), c)
         == s.(stored := s.stored + 1, heads := s.heads[s.stored := AncestorAt(tip, EndOf(s.stored + 1, c.size))])
  {
    hide *;
    var start, end := s.stored * c.size, (s.stored + 1) * c.size;
    HeadsBelow(s, c);
    SectionParts(s.stored, tip, headers, c);
    HeadPrecedes(s, start, tip, c);
    StartBegins(s, start, tip, c);
    ReadsFollow(s, start, end, tip, headers, c.size, c);
    EndStores(s, start, end, tip, c);
    UpdateRuns(s, s.(job := Some(JobAt(s.stored, start, start, tip))),
               s.(job := Some(JobAt(s.stored, start, end, tip))), tip, headers, c);
  }

  lemma HeadsBelow(s: Index, c: Config)
    requires Linked(s, c)
    ensures forall i | i in s.heads :: i < s.stored
  {
  }

  lemma SectionParts(section: nat, tip: Block, headers: set<Block>, c: Config)
    requires SectionThere(section, tip, headers, c)
    ensures section * c.size + c.size == (section + 1) * c.size <= Number(tip) + 1
    ensures EndOf(section + 1, c.size) == (section + 1) * c.size - 1
    ensures forall n: nat | section * c.size <= n < section * c.size + c.size :: AncestorAt(tip, n) in headers
  {
    Ends(section, c.size);
  }

  lemma UpdateRuns(s: Index, t: Index, u: Index, tip: Block, headers: set<Block>, c: Config)
    requires Step(s, Start(PathMap(tip)), c) == t && Run(t, Reads(c.size, tip, headers), c) == u
    ensures Run(s, Update(tip, headers, c), c) == Step(u, End(PathMap(tip)), c)
  {
    hide Step, PathMap, Reads, Run;
    var begin, middle, stop := [Start(PathMap(tip))], Reads(c.size, tip, headers), [End(PathMap(tip))];
    RunJoin(s, begin + middle, stop, c);
    RunJoin(s, begin, middle, c);
    RunOne(s, Start(PathMap(tip)), c);
    RunOne(u, End(PathMap(tip)), c);
  }

  /** So updates on a quiet chain go on until every known section is stored. */
  lemma {:induction false} CatchesUp(s: Index, tip: Block, headers: set<Block>, n: nat, c: Config)
    requires Linked(s, c) && s.job.None? && OnChain(s, tip, c) && s.stored + n <= s.known
    requires forall i | s.stored <= i < s.stored + n :: SectionThere(i, tip, headers, c)
    ensures CaughtUp(s, Run(s, Updates(n, tip, headers, c), c), tip, n, c)
    decreases n
  {
    hide Update, Linked, SectionThere, PathMap, CaughtUp, HeadCanonical;
    if n == 0 {
      NothingToCatch(s, tip, c);
    } else {
      UpdateStores(s, tip, headers, c);
      RunLinked(s, Update(tip, headers, c), c);
      var t := Run(s, Update(tip, headers, c), c);
      RunJoin(s, Update(tip, headers, c), Updates(n - 1, tip, headers, c), c);
      OneCaught(s, t, tip, headers, c);
      CatchesUp(t, tip, headers, n - 1, c);
      CaughtOn(s, t, Run(t, Updates(n - 1, tip, headers, c), c), tip, n, c);
    }
  }

  /** The index has gone on by `n` sections, all on the chain, and kept what it had. */
  ghost predicate CaughtUp(s: Index, r: Index, tip: Block, n: nat, c: Config) {
    && r.stored == s.stored + n && r.known == s.known && r.job.None? && OnChain(r, tip, c)
    && (forall i | i in s.heads :: Read(r.heads, i) == Some(s.heads[i]))
    && (forall i: nat | s.stored <= i < r.stored :: Read(r.heads, i) == Some(AncestorAt(tip, EndOf(i + 1, c.size))))
  }

  lemma NothingToCatch(s: Index, tip: Block, c: Config)
    requires s.job.None? && OnChain(s, tip, c)
    ensures CaughtUp(s, s, tip, 0, c)
  {
  }

  lemma OneCaught(s: Index, t: Index, tip: Block, headers: set<Block>, c: Config)
    requires Linked(s, c) && s.job.None? && SectionThere(s.stored, tip, headers, c)
    requires t == s.(stored := s.stored + 1, heads := s.heads[s.stored := AncestorAt(tip, EndOf(s.stored + 1, c.size))])
    ensures CaughtUp(s, t, tip, 1, c) && OnChain(t, tip, c)
  {
  }

  lemma CaughtOn(s: Index, t: Index, r: Index, tip: Block, n: nat, c: Config)
    requires n > 0 && CaughtUp(s, t, tip, 1, c) && CaughtUp(t, r, tip, n - 1, c)
    ensures CaughtUp(s, r, tip, n, c)
  {
    hide EndOf, AncestorAt, OnChain;
    assert Read(t.heads, s.stored).Some? && s.stored in t.heads;
  }

  ghost function Updates(n: nat, tip: Block, headers: set<Block>, c: Config): (es: seq<Event>) {
    if n == 0 then [] else Update(tip, headers, c) + Updates(n - 1, tip, headers, c)
  }

  class ChainIndexer {
    const c: Config
    var stored: nat
    var known: nat
    var heads: map<nat, Block>
    var job: Option<Job>

    /** On an empty database, with the checkpoint added before the indexer is started if there is one. */
    constructor (c: Config)
      requires c.checkpoint > 0 ==> c.trusted.Some?
      ensures this.c == c && Linked(View(), c) && stored == c.checkpoint && known == 0 && job.None?
      ensures c.checkpoint > 0 ==> Read(heads, c.checkpoint - 1) == c.trusted
    {
      this.c := c;
      known, job := 0, None;
      stored := c.checkpoint;
      heads := if c.checkpoint > 0 then map[c.checkpoint - 1 := c.trusted.value] else map[];
      new;
      StartsLinked(c);
    }

    ghost function View(): Index
      reads this
    {
      Index(stored, known, heads, job)
    }

    /** setValidSections: removes the heads of sections that are no longer valid. */
    method SetValidSections(sections: nat)
      modifies `stored, `heads
      ensures View() == SetValid(old(View()), sections)
    {
      ghost var s := View();
      while stored > sections
        invariant stored <= s.stored && (stored < s.stored ==> sections <= stored)
        invariant heads == map i | i in s.heads && !(stored <= i < s.stored) :: s.heads[i]
        invariant known == s.known && job == s.job
      {
        stored := stored - 1;
        heads := heads - {stored};
      }
      stored := sections;
    }

    /** verifyLastHead. */
    method VerifyLastHead(canon: map<nat, Block>)
      modifies `stored, `heads
      ensures View() == VerifyLast(old(View()), canon, c)
    {
      ghost var s := View();
      while stored > 0 && stored > c.checkpoint
        invariant stored <= s.stored && known == s.known && job == s.job
        invariant View() == SetValid(s, stored)
        invariant Verified(s.heads, canon, s.stored, c) == Verified(s.heads, canon, stored, c)
      {
        if Read(heads, stored - 1) == Read(canon, EndOf(stored, c.size)) {
          return;
        }
        SetValidSections(stored - 1);
      }
    }

    /** newHead. */
    method NewHead(head: nat, reorg: bool, canon: map<nat, Block>)
      modifies `stored, `known, `heads
      ensures View() == Step(old(View()), if reorg then Reorganised(head) else Progressed(head, canon), c)
    {
      if reorg {
        var knownNow := (head + 1) / c.size;
        var storedNow := knownNow;
        if knownNow < c.checkpoint {
          knownNow := 0;
        }
        if storedNow < c.checkpoint {
          storedNow := c.checkpoint;
        }
        if knownNow < known {
          known := knownNow;
        }
        if storedNow < stored {
          SetValidSections(storedNow);
        }
        return;
      }
      if head >= c.confirms {
        var sections := (head + 1 - c.confirms) / c.size;
        if sections < c.checkpoint {
          sections := 0;
        }
        if sections > known {
          if known < c.checkpoint {
            if Read(canon, EndOf(c.checkpoint, c.size)) != c.trusted {
              return;
            }
          }
          known := sections;
        }
      }
    }

    /** The part of updateLoop before the lock is released. */
    method BeginUpdate(canon: map<nat, Block>)
      requires job.None?
      modifies this
      ensures View() == Step(old(View()), Start(canon), c)
    {
      if known > stored {
        VerifyLastHead(canon);
        var oldHead := None;
        if stored > 0 {
          oldHead := Read(heads, stored - 1);
        }
        job := Some(Job(stored, oldHead, stored * c.size, oldHead, false));
      }
    }

    /** One round of processSection's loop. */
    method ReadHeader(canon: map<nat, Block>, headers: set<Block>)
      requires job.Some? && ReadsLeft(job.value, c)
      modifies `job
      ensures View() == Step(old(View()), ReadOne(canon, headers), c)
    {
      var j := job.value;
      if j.next !in canon {
        job := Some(j.(broken := true));
        return;
      }
      var b := canon[j.next];
      if b !in headers || Number(b) != j.next {
        job := Some(j.(broken := true));
      } else if ParentHash(b) != j.last {
        job := Some(j.(broken := true));
      } else {
        job := Some(j.(next := j.next + 1, last := Some(b)));
      }
    }

    /** The part of updateLoop after the lock is taken again. */
    method EndUpdate(canon: map<nat, Block>)
      requires job.Some? && !ReadsLeft(job.value, c)
      modifies this
      ensures View() == Step(old(View()), End(canon), c)
    {
      var j := job.value;
      job := None;
      if !j.broken && j.last.Some? && (j.section == 0 || j.oldHead == Read(heads, j.section - 1)) {
        heads := heads[j.section := j.last.value];
        SetValidSections(j.section + 1);
      } else {
        VerifyLastHead(canon);
        known := stored;
      }
    }
  }
}
