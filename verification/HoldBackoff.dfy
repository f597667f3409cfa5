/** The retry schedule of held deletions (`targeted_deletion.rs`): an operation
    that is resumed again and again is resumed less and less often. */
module HoldBackoff {
  import opened Prelude
  import DeletionWalk

  const MAX_SKIP_SHIFT: nat := 3

  type Operation = nat
  type u32 = x: int | 0 <= x <= U32_MAX

  datatype HoldRetry = HoldRetry(attempts: u32, nextEligible: u64)

  type Retries = map<Operation, HoldRetry>

  /** What the store answers to the request to resume an operation. */
  datatype Outcome = Applied | Refused | Failed

  /** A record of the page. */
  datatype Held = Held(operation: Operation, retryable: bool, outcome: Outcome)

  function Power2(n: nat): nat {
    if n == 0 then 1 else 2 * Power2(n - 1)
  }

  function NextRetry(before: Option<HoldRetry>, tick: u64): HoldRetry {
    var attempts := Min((if before.Some? then before.value.attempts else 0) + 1, U32_MAX);
    HoldRetry(attempts, Min(tick + Power2(Min(attempts - 1, MAX_SKIP_SHIFT)), U64_MAX))
  }

  predicate IsEligible(entry: Option<HoldRetry>, tick: u64) {
    entry.Some? ==> tick >= entry.value.nextEligible
  }

  function Entry(retries: Retries, operation: Operation): Option<HoldRetry> {
    if operation in retries then Some(retries[operation]) else None
  }

  /** The operations a page shows as retryable. */
  function Retryable(page: seq<Held>): set<Operation> {
    set i | 0 <= i < |page| && page[i].retryable :: page[i].operation
  }

  function Retained(retries: Retries, held: set<Operation>): Retries {
    map x | x in retries && x in held :: retries[x]
  }

  /** Whether the record is resumed at this tick. */
  predicate Resumes(retries: Retries, held: set<Operation>, record: Held, tick: u64) {
    record.operation in held && IsEligible(Entry(retries, record.operation), tick)
  }

  function Considered(retries: Retries, held: set<Operation>, record: Held, tick: u64): Retries {
    if Resumes(retries, held, record, tick) && record.outcome.Applied?
    then retries[record.operation := NextRetry(Entry(retries, record.operation), tick)]
    else retries
  }

  /** The schedule once the first `n` records have been gone through. */
  function Walked(retries: Retries, page: seq<Held>, tick: u64, n: nat): Retries
    requires n <= |page|
  {
    if n == 0 then Retained(retries, Retryable(page))
    else Considered(Walked(retries, page, tick, n - 1), Retryable(page), page[n - 1], tick)
  }

  /** The indices of the records among the first `n` that are resumed. */
  function Resumed(retries: Retries, page: seq<Held>, tick: u64, n: nat): seq<nat>
    requires n <= |page|
  {
    if n == 0 then []
    else
      var earlier := Resumed(retries, page, tick, n - 1);
      if Resumes(Walked(retries, page, tick, n - 1), Retryable(page), page[n - 1], tick) then earlier + [n - 1]
          else earlier
  }

  /** The store is asked to resume the k-th record and fails. */
  predicate Fails(retries: Retries, page: seq<Held>, tick: u64, k: nat)
    requires k < |page|
  {
    page[k].outcome.Failed? && Resumes(Walked(retries, page, tick, k), Retryable(page), page[k], tick)
  }

  class HeldRetrySchedule {
    var tick: u64
    var retries: Retries

    constructor ()
      ensures tick == 0 && retries == map[]
    {
      tick, retries := 0, map[];
    }

    method NextTick() returns (now: u64)
      modifies this`tick
      ensures now == tick == Min(old(tick) + 1, U64_MAX)
    {
      tick := SaturatingAdd(tick, 1);
      now := tick;
    }

    predicate Eligible(operation: Operation, at: u64)
      reads this
    {
      operation !in retries || at >= retries[operation].nextEligible
    }

    method RecordResume(operation: Operation, at: u64)
      modifies this`retries
      ensures retries == old(retries)[operation := NextRetry(Entry(old(retries), operation), at)]
    {
      var attempts: u32 := if operation in retries then retries[operation].attempts else 0;
      attempts := if attempts == U32_MAX then U32_MAX else attempts + 1;
      var shift := Min(SaturatingSub(attempts, 1), MAX_SKIP_SHIFT);
      var skip: u64 := 1;
      for i := 0 to shift
        invariant skip == Power2(i) && skip <= 8
      {
        assert i < 3 && Power2(0) == 1 && Power2(1) == 2 && Power2(2) == 4;
        skip := 2 * skip;
      }
      retries := retries[operation := HoldRetry(attempts, SaturatingAdd(at, skip))];
    }

    method RetainOnly(held: set<Operation>)
      modifies this`retries
      ensures retries == Retained(old(retries), held)
    {
      retries := map x | x in retries && x in held :: retries[x];
    }

    /** One record of the page: whether the store was asked to resume it. */
    method Consider(held: set<Operation>, record: Held, at: u64) returns (asked: bool)
      modifies this`retries
      ensures asked == Resumes(old(retries), held, record, at)
      ensures retries == Considered(old(retries), held, record, at)
    {
      asked := record.operation in held && Eligible(record.operation, at);
      if asked && record.outcome.Applied? {
        RecordResume(record.operation, at);
      }
    }

    /** One page of `resume_hold_page`; `resumed` are the indices of the records
        the store was asked to resume. A failing store ends it at once. */
    method ResumePage(page: seq<Held>, at: u64) returns (ok: bool, walked: nat, resumed: seq<nat>)
      modifies this`retries
      ensures walked <= |page| && retries == Walked(old(retries), page, at, walked)
      ensures resumed == Resumed(old(retries), page, at, walked)
      ensures if ok then walked == |page| else walked > 0 && Fails(old(retries), page, at, walked - 1)
      ensures forall k: nat :: k < (if ok then walked else walked - 1) ==> !Fails(old(retries), page, at, k)
    {
      var retryable := Retryable(page);
      RetainOnly(retryable);
      resumed := [];
      walked := 0;
      while walked < |page|
        invariant walked <= |page| && retries == Walked(old(retries), page, at, walked)
        invariant resumed == Resumed(old(retries), page, at, walked)
        invariant forall k: nat :: k < walked ==> !Fails(old(retries), page, at, k)
      {
        var asked := Consider(retryable, page[walked], at);
        if asked { resumed := resumed + [walked]; }
        walked := walked + 1;
        if asked && page[walked - 1].outcome.Failed? { return false, walked, resumed; }
      }
      ok := true;
    }
  }

  // ---------------------------------------------------- one operation alone

  /** The operations of a page are distinct. */
  ghost predicate Distinct(page: seq<Held>) {
    forall i, j :: 0 <= i < j < |page| ==> page[i].operation != page[j].operation
  }

  lemma {:induction false} OthersUntouched(retries: Retries, page: seq<Held>, tick: u64, n: nat, x: Operation)
    requires n <= |page| && forall i :: 0 <= i < n ==> page[i].operation != x
    ensures Entry(Walked(retries, page, tick, n), x) == if x in Retryable(page) then Entry(retries, x) else None
  {
    if n > 0 {
      OthersUntouched(retries, page, tick, n - 1, x);
    }
  }

  lemma {:induction false} EntryKept(retries: Retries, page: seq<Held>, tick: u64, k: nat, n: nat, x: Operation)
    requires k <= n <= |page| && forall i :: k <= i < n ==> page[i].operation != x
    ensures Entry(Walked(retries, page, tick, n), x) == Entry(Walked(retries, page, tick, k), x)
  {
    if k < n {
      EntryKept(retries, page, tick, k, n - 1, x);
    }
  }

  /** On a page that shows it as retryable, an operation is resumed exactly when
      its own entry is eligible, and only that changes its entry, however far the
      page is gone through. */
  lemma OwnEntryOnly(retries: Retries, page: seq<Held>, tick: u64, k: nat, n: nat)
    requires k < |page| && n <= |page| && Distinct(page) && page[k].retryable
    ensures var x := page[k].operation; var entry := Entry(retries, x);
            && (Resumes(Walked(retries, page, tick, k), Retryable(page), page[k], tick) <==> IsEligible(entry, tick))
            && Entry(Walked(retries, page, tick, n), x)
               == if k < n && IsEligible(entry, tick) && page[k].outcome.Applied? then Some(NextRetry(entry, tick))
                  else entry
  {
    var x := page[k].operation;
    assert x in Retryable(page);
    OthersUntouched(retries, page, tick, k, x);
    if k < n {
      EntryKept(retries, page, tick, k + 1, n, x);
    } else {
      OthersUntouched(retries, page, tick, n, x);
    }
  }

  lemma {:induction false} ResumedRises(retries: Retries, page: seq<Held>, tick: u64, n: nat)
    requires n <= |page|
    ensures Rising(Resumed(retries, page, tick, n), n)
  {
    if n > 0 {
      ResumedRises(retries, page, tick, n - 1);
      RisingGrows(Resumed(retries, page, tick, n - 1), n - 1);
    }
  }

  /** A record is resumed exactly when its turn finds its operation retryable and
      eligible. */
  lemma {:induction false} ResumedAtTurn(retries: Retries, page: seq<Held>, tick: u64, n: nat, k: nat)
    requires k < n <= |page|
    ensures k in Resumed(retries, page, tick, n)
            <==> Resumes(Walked(retries, page, tick, k), Retryable(page), page[k], tick)
  {
    ResumedRises(retries, page, tick, n - 1);
    RisingGrows(Resumed(retries, page, tick, n - 1), n - 1);
    if k < n - 1 {
      ResumedAtTurn(retries, page, tick, n - 1, k);
    }
  }

  /** On a page of distinct operations the records resumed are, in the page's order,
      those that it shows as retryable and that were eligible when it began, whatever
      the store answers. */
  lemma ResumedExactly(retries: Retries, page: seq<Held>, tick: u64, n: nat)
    requires n <= |page| && Distinct(page)
    ensures var resumed := Resumed(retries, page, tick, n);
            && Rising(resumed, n)
            && (forall k: nat :: k < n ==>
                  (k in resumed <==> page[k].retryable && IsEligible(Entry(retries, page[k].operation), tick)))
  {
    ResumedRises(retries, page, tick, n);
    forall k: nat | k < n
      ensures k in Resumed(retries, page, tick, n)
              <==> page[k].retryable && IsEligible(Entry(retries, page[k].operation), tick)
    {
      ResumedAtTurn(retries, page, tick, n, k);
      if page[k].retryable {
        OwnEntryOnly(retries, page, tick, k, n);
      } else {
        NotRetryable(page, k);
      }
    }
  }

  lemma NotRetryable(page: seq<Held>, k: nat)
    requires k < |page| && Distinct(page) && !page[k].retryable
    ensures page[k].operation !in Retryable(page)
  {
  }

  /** An operation that a page does not show as retryable loses its backoff: at
      whatever tick it comes back, it is eligible at once. */
  lemma AbsenceForgets(retries: Retries, page: seq<Held>, tick: u64, x: Operation, later: u64)
    requires x !in Retryable(page)
    ensures Entry(Walked(retries, page, tick, |page|), x) == None
    ensures IsEligible(Entry(Walked(retries, page, tick, |page|), x), later)
  {
    NeverEntered(retries, page, tick, |page|, x);
  }

  lemma {:induction false} NeverEntered(retries: Retries, page: seq<Held>, tick: u64, n: nat, x: Operation)
    requires n <= |page| && x !in Retryable(page)
    ensures x !in Walked(retries, page, tick, n)
  {
    if n > 0 {
      NeverEntered(retries, page, tick, n - 1, x);
    }
  }

  // ----------------------------------------------------------- whole runs

  /** Consecutive ticks from `start` on, each going through `walked[i]` records of
      one page: all of them, or those up to the one at which the store failed. */
  datatype Run = Run(start: u64, retries: seq<Retries>, pages: seq<seq<Held>>, walked: seq<nat>) {
    ghost predicate Valid() {
      && |retries| == |pages| + 1 && |walked| == |pages|
      && (forall i: nat :: i < |pages| ==> Steps(i))
    }

    function Tick(i: nat): u64 {
      Min(start + i, U64_MAX)
    }

    ghost predicate Steps(i: nat)
      requires |retries| == |pages| + 1 && |walked| == |pages| && i < |pages|
    {
      && Distinct(pages[i]) && walked[i] <= |pages[i]|
      && retries[i + 1] == Walked(retries[i], pages[i], Tick(i), walked[i])
      && (walked[i] < |pages[i]| ==> walked[i] > 0 && pages[i][walked[i] - 1].outcome.Failed?)
    }

    /** Every page shows `x` as retryable and its resumption is applied. */
    ghost predicate Offers(x: Operation)
      requires Valid()
    {
      forall i: nat :: i < |pages| ==> IsOffered(i, x)
    }

    ghost predicate IsOffered(i: nat, x: Operation)
      requires Valid() && i < |pages|
    {
      assert Steps(i);
      Held(x, true, Applied) in pages[i][..walked[i]]
    }

    /** Every page shows `x` as retryable, whatever the store answers. */
    ghost predicate Shows(x: Operation) {
      forall i: nat :: i < |pages| ==> x in Retryable(pages[i])
    }

    /** `x` is eligible at the tick `i` after the first. */
    predicate ResumedAt(i: nat, x: Operation)
      requires i < |retries|
    {
      IsEligible(Entry(retries[i], x), Tick(i))
    }

    /** The store applies a resumption of `x` at the tick `i` after the first. */
    predicate AppliedAt(i: nat, x: Operation)
      requires i < |retries| && i < |pages| && i < |walked|
    {
      && ResumedAt(i, x)
      && exists k :: 0 <= k < |pages[i]| && k < walked[i] && pages[i][k] == Held(x, true, Applied)
    }
  }

  /** The tick offset of the k-th resumption: the gaps are 1, 2, 4, 8, 8, ... */
  function Offset(k: nat): nat {
    if k == 0 then 0 else Offset(k - 1) + Power2(Min(k - 1, MAX_SKIP_SHIFT))
  }

  /** The offsets at which a persistent hold is resumed. */
  predicate IsResumeOffset(i: nat) {
    i == 0 || i == 1 || i == 3 || i % 8 == 7
  }

  /** How many resumptions there are at offsets up to `i`. */
  function ResumesUpTo(i: nat): nat {
    if i == 0 then 1 else if i < 3 then 2 else if i < 7 then 3 else 4 + (i - 7) / 8
  }

  lemma SmallPowers()
    ensures Power2(0) == 1 && Power2(1) == 2 && Power2(2) == 4 && Power2(3) == 8
  {
    assert Power2(1) == 2 * Power2(0);
    assert Power2(2) == 2 * Power2(1);
  }

  lemma {:induction false} OffsetsClosed(k: nat)
    ensures Offset(0) == 0 && Offset(1) == 1 && Offset(2) == 3
    ensures k >= 3 ==> Offset(k) == 8 * k - 17
  {
    SmallPowers();
    assert Offset(1) == Offset(0) + Power2(0);
    assert Offset(2) == Offset(1) + Power2(1);
    if k == 3 {
      assert Offset(3) == Offset(2) + Power2(2);
    } else if k > 3 {
      OffsetsClosed(k - 1);
    }
  }

  /** Before the tick at offset `i`, the entry tells how often the operation was
      resumed and when it is next. */
  predicate IsEntryBefore(entry: Option<HoldRetry>, start: u64, i: nat) {
    if i == 0 then entry == None
    else entry.Some? && entry.value.attempts == Min(ResumesUpTo(i - 1), U32_MAX)
         && entry.value.nextEligible == Min(start + Offset(ResumesUpTo(i - 1)), U64_MAX)
  }

  lemma OffsetsFit(i: nat)
    ensures i > 0 ==> (i >= Offset(ResumesUpTo(i - 1)) <==> IsResumeOffset(i))
    ensures ResumesUpTo(i) == if i == 0 then 1 else ResumesUpTo(i - 1) + if IsResumeOffset(i) then 1 else 0
    ensures IsResumeOffset(i) ==> Offset(ResumesUpTo(i)) == i + Power2(Min(ResumesUpTo(i) - 1, MAX_SKIP_SHIFT))
  {
    SmallPowers();
    OffsetsClosed(ResumesUpTo(i));
    if i > 0 {
      OffsetsClosed(ResumesUpTo(i - 1));
    }
  }

  /** One tick of a persistent hold. */
  lemma EntryAdvances(entry: Option<HoldRetry>, start: u64, i: nat)
    requires IsEntryBefore(entry, start, i) && start + i < U64_MAX
    ensures IsEligible(entry, start + i) <==> IsResumeOffset(i)
    ensures IsEntryBefore(if IsEligible(entry, start + i) then Some(NextRetry(entry, start + i))
                          else entry, start, i + 1)
  {
    OffsetsFit(i);
    SmallPowers();
  }

  lemma {:induction false} EntryFollows(run: Run, x: Operation, i: nat)
    requires run.Valid() && run.Offers(x) && Entry(run.retries[0], x) == None
    requires i <= |run.pages| && run.start + i <= U64_MAX
    ensures IsEntryBefore(Entry(run.retries[i], x), run.start, i)
  {
    if i > 0 {
      EntryFollows(run, x, i - 1);
      assert run.Steps(i - 1);
      assert run.IsOffered(i - 1, x);
      var page, n := run.pages[i - 1], run.walked[i - 1];
      var k :| 0 <= k < n && page[..n][k] == Held(x, true, Applied);
      OwnEntryOnly(run.retries[i - 1], page, run.Tick(i - 1), k, n);
      EntryAdvances(Entry(run.retries[i - 1], x), run.start, i - 1);
    }
  }

  /** An operation retryable on every page is resumed exactly at the offsets 0,
      1, 3 and 7, 15, 23, ... from its first tick, until the tick counter
      saturates; from then on at every tick. */
  lemma BackoffExact(run: Run, x: Operation, i: nat)
    requires run.Valid() && run.Offers(x) && Entry(run.retries[0], x) == None
    requires i < |run.pages|
    ensures run.ResumedAt(i, x) <==> IsResumeOffset(i) || run.start + i >= U64_MAX
  {
    if run.start + i < U64_MAX {
      EntryFollows(run, x, i);
      EntryAdvances(Entry(run.retries[i], x), run.start, i);
    }
  }

  function Resumptions(run: Run, x: Operation, n: nat): nat
    requires n <= |run.retries|
  {
    if n == 0 then 0 else Resumptions(run, x, n - 1) + if run.ResumedAt(n - 1, x) then 1 else 0
  }

  /** Below saturation it is resumed exactly this often at the offsets 0 to `last`,
      which is at most 4 + last / 8 times. */
  lemma {:induction false} BackoffBound(run: Run, x: Operation, last: nat)
    requires run.Valid() && run.Offers(x) && Entry(run.retries[0], x) == None
    requires last < |run.pages| && run.start + last < U64_MAX
    ensures Resumptions(run, x, last + 1) == ResumesUpTo(last) <= 4 + last / 8
  {
    BackoffExact(run, x, last);
    OffsetsFit(last);
    if last > 0 {
      BackoffBound(run, x, last - 1);
    } else {
      assert Resumptions(run, x, 0) == 0;
    }
  }

  // ------------------------------------------------------ arbitrary answers

  function Applications(run: Run, x: Operation, n: nat): nat
    requires n <= |run.pages| < |run.retries| && |run.walked| == |run.pages|
  {
    if n == 0 then 0 else Applications(run, x, n - 1) + if run.AppliedAt(n - 1, x) then 1 else 0
  }

  /** After `applied` applied resumptions before the tick at offset `i`, the last
      of them was no earlier than in the fastest schedule, and so is the next. */
  predicate IsPaced(entry: Option<HoldRetry>, start: u64, i: nat, applied: nat) {
    if applied == 0 then entry == None
    else entry.Some? && entry.value.attempts == Min(applied, U32_MAX)
         && entry.value.nextEligible >= Min(start + Offset(applied), U64_MAX)
         && Offset(applied - 1) < i
  }

  lemma PaceKept(entry: Option<HoldRetry>, start: u64, i: nat, applied: nat, now: bool)
    requires IsPaced(entry, start, i, applied) && start + i < U64_MAX
    requires now ==> IsEligible(entry, start + i)
    ensures if now then IsPaced(Some(NextRetry(entry, start + i)), start, i + 1, applied + 1)
            else IsPaced(entry, start, i + 1, applied)
  {
    SmallPowers();
    assert Offset(applied + 1) == Offset(applied) + Power2(Min(applied, MAX_SKIP_SHIFT));
    assert Offset(0) == 0;
  }

  /** One tick of an operation that its page shows as retryable. */
  lemma EntryStep(run: Run, x: Operation, i: nat)
    requires run.Valid() && i < |run.pages| && x in Retryable(run.pages[i])
    ensures var entry := Entry(run.retries[i], x);
            Entry(run.retries[i + 1], x) == if run.AppliedAt(i, x) then Some(NextRetry(entry, run.Tick(i))) else entry
  {
    assert run.Steps(i);
    var page, n := run.pages[i], run.walked[i];
    var k :| 0 <= k < |page| && page[k].retryable && page[k].operation == x;
    OwnEntryOnly(run.retries[i], page, run.Tick(i), k, n);
    assert run.AppliedAt(i, x) <==> run.ResumedAt(i, x) && k < n && page[k].outcome.Applied?;
  }

  lemma {:induction false} PaceHolds(run: Run, x: Operation, i: nat)
    requires run.Valid() && run.Shows(x) && Entry(run.retries[0], x) == None
    requires i <= |run.pages| && run.start + i <= U64_MAX
    ensures IsPaced(Entry(run.retries[i], x), run.start, i, Applications(run, x, i))
  {
    if i > 0 {
      PaceHolds(run, x, i - 1);
      EntryStep(run, x, i - 1);
      PaceKept(Entry(run.retries[i - 1], x), run.start, i - 1, Applications(run, x, i - 1), run.AppliedAt(i - 1, x));
    }
  }

  /** Whatever the store answers, below saturation at most 4 + last / 8
      resumptions of an operation are applied at the offsets 0 to `last`. */
  lemma AppliedBound(run: Run, x: Operation, last: nat)
    requires run.Valid() && run.Shows(x) && Entry(run.retries[0], x) == None
    requires last < |run.pages| && run.start + last < U64_MAX
    ensures Applications(run, x, last + 1) <= ResumesUpTo(last) <= 4 + last / 8
  {
    PaceHolds(run, x, last + 1);
    var applied := Applications(run, x, last + 1);
    if applied > 0 {
      OffsetsClosed(applied - 1);
    }
  }

  /** Once the tick counter has saturated there is no backoff any more: every
      entry is eligible at every tick. */
  lemma SaturationEndsBackoff(run: Run, x: Operation, i: nat)
    requires run.Valid() && i < |run.retries| && run.start + i >= U64_MAX
    ensures run.ResumedAt(i, x)
  {
  }

  // ------------------------------------------------- what the walk shows

  function Operations(page: seq<Held>): (operations: seq<Operation>)
    ensures |operations| == |page|
  {
    seq(|page|, i requires 0 <= i < |page| => page[i].operation)
  }

  /** The pages of the ticks are those of a walk at a standstill, gone through to
      the end. */
  ghost predicate Drives(walk: DeletionWalk.Run, u: set<Operation>, run: Run) {
    && DeletionWalk.Standstill(walk, u) && run.Valid() && |walk.pages| == |run.pages|
    && (forall i: nat :: i < |run.pages| ==> IsShown(walk, run, i))
  }

  ghost predicate IsShown(walk: DeletionWalk.Run, run: Run, i: nat)
    requires i < |run.pages| == |walk.pages| && |run.walked| == |run.pages|
  {
    run.walked[i] == |run.pages[i]| && Operations(run.pages[i]) == walk.pages[i]
  }

  /** On how many pages in a row, up to the last before the tick `i`, `x` was shown
      as retryable. */
  function Streak(run: Run, x: Operation, i: nat): nat
    requires i <= |run.pages|
  {
    if i == 0 || x !in Retryable(run.pages[i - 1]) then 0 else 1 + Streak(run, x, i - 1)
  }

  lemma ShownIsOnPage(walk: DeletionWalk.Run, run: Run, i: nat, x: Operation)
    requires i < |run.pages| == |walk.pages| && |run.walked| == |run.pages| && IsShown(walk, run, i)
    requires x in Retryable(run.pages[i])
    ensures x in walk.pages[i]
  {
    var k :| 0 <= k < |run.pages[i]| && run.pages[i][k].retryable && run.pages[i][k].operation == x;
    assert walk.pages[i][k] == x;
  }

  /** When the operations do not fit on one page, no streak is longer than two. */
  lemma {:induction false} ShortStreaks(walk: DeletionWalk.Run, u: set<Operation>, run: Run, x: Operation, i: nat)
    requires Drives(walk, u, run) && |u| > walk.limit && i <= |run.pages|
    ensures Streak(run, x, i) <= 2
    ensures Streak(run, x, i) == 2 && i < |run.pages| ==> x !in Retryable(run.pages[i])
  {
    if Streak(run, x, i) >= 2 {
      assert Streak(run, x, i) == 1 + Streak(run, x, i - 1) && Streak(run, x, i - 1) == 1 + Streak(run, x, i - 2);
      assert IsShown(walk, run, i - 1) && IsShown(walk, run, i - 2);
      ShownIsOnPage(walk, run, i - 1, x);
      ShownIsOnPage(walk, run, i - 2, x);
      if i < |run.pages| {
        DeletionWalk.NotThreeInARow(walk, u, i - 2, x);
        assert IsShown(walk, run, i);
        assert x !in Retryable(run.pages[i]) by {
          if x in Retryable(run.pages[i]) { ShownIsOnPage(walk, run, i, x); }
        }
      }
      if Streak(run, x, i - 2) > 0 {
        DeletionWalk.NotThreeInARow(walk, u, i - 3, x);
        assert IsShown(walk, run, i - 3);
        ShownIsOnPage(walk, run, i - 3, x);
      }
    }
  }

  /** An entry counts no more attempts than pages have shown its operation in a row,
      and with at most two of them it holds the operation back at most two ticks. */
  predicate IsShort(entry: Option<HoldRetry>, tick: u64, streak: nat) {
    entry.Some? ==>
      && entry.value.attempts <= streak
      && (streak <= 2 ==> entry.value.nextEligible <= tick + 1)
  }

  lemma {:induction false} EntriesAreShort(run: Run, x: Operation, i: nat)
    requires run.Valid() && i <= |run.pages| && Entry(run.retries[0], x) == None
    ensures IsShort(Entry(run.retries[i], x), run.Tick(i), Streak(run, x, i))
  {
    if i > 0 {
      EntriesAreShort(run, x, i - 1);
      assert run.Steps(i - 1);
      if x in Retryable(run.pages[i - 1]) {
        EntryStep(run, x, i - 1);
        SmallPowers();
      } else {
        NeverEntered(run.retries[i - 1], run.pages[i - 1], run.Tick(i - 1), run.walked[i - 1], x);
      }
    }
  }

  /** At a standstill with more operations than fit on one page, no operation ever
      gets beyond its second attempt in a row, so it is held back for at most two
      ticks: the gaps of four and eight ticks do not occur. */
  lemma NoLongBackoff(walk: DeletionWalk.Run, u: set<Operation>, run: Run, x: Operation, i: nat)
    requires Drives(walk, u, run) && |u| > walk.limit && i <= |run.pages|
    requires Entry(run.retries[0], x) == None
    ensures var entry := Entry(run.retries[i], x);
            entry.Some? ==> entry.value.attempts <= 2 && entry.value.nextEligible <= run.Tick(i) + 1
  {
    EntriesAreShort(run, x, i);
    ShortStreaks(walk, u, run, x, i);
  }

  /** At a standstill with operations that fit on one page and a cursor at either
      end, every page shows every operation, so the schedule is the exact one. */
  lemma FullBackoff(walk: DeletionWalk.Run, u: set<Operation>, run: Run, x: Operation, i: nat)
    requires Drives(walk, u, run) && |u| <= walk.limit && i < |run.pages| && x in u
    requires walk.cursors[0] == None || DeletionWalk.Ahead(u, walk.cursors[0]) == {}
    requires forall j, k :: 0 <= j < |run.pages| && 0 <= k < |run.pages[j]| && run.pages[j][k].operation == x ==>
               run.pages[j][k] == Held(x, true, Applied)
    requires Entry(run.retries[0], x) == None
    ensures run.ResumedAt(i, x) <==> IsResumeOffset(i) || run.start + i >= U64_MAX
  {
    forall j: nat | j < |run.pages| ensures run.IsOffered(j, x) {
      DeletionWalk.EveryPageShowsAll(walk, u, j);
      assert IsShown(walk, run, j) && x in walk.pages[j];
      var k :| 0 <= k < |walk.pages[j]| && walk.pages[j][k] == x;
      assert run.pages[j][k].operation == x;
      assert run.pages[j][..run.walked[j]][k] == Held(x, true, Applied);
    }
    BackoffExact(run, x, i);
  }
}
