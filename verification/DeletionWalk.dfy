/** The persisted round-robin walk over the unfinished deletions
    (`targeted_deletion.rs`). */
module DeletionWalk {
  import opened Prelude

  type Operation = nat

  /** The walk's cursor as the store keeps it. */
  class CursorStore {
    var cursor: Option<Operation>

    constructor (cursor: Option<Operation>)
      ensures this.cursor == cursor
    {
      this.cursor := cursor;
    }
  }

  predicate Passed(cursor: Option<Operation>, x: Operation) {
    cursor.Some? && x <= cursor.value
  }

  ghost function Ahead(unfinished: set<Operation>, cursor: Option<Operation>): set<Operation> {
    set y | y in unfinished && !Passed(cursor, y)
  }

  ghost function Elements(page: seq<Operation>): set<Operation> {
    set y | y in page
  }

  /** What the store answers: the first `limit` unfinished operations behind the
      cursor, in order. */
  ghost predicate IsPage(unfinished: set<Operation>, cursor: Option<Operation>, limit: nat, page: seq<Operation>) {
    && |page| <= limit
    && (forall i, j :: 0 <= i < j < |page| ==> page[i] < page[j])
    && (forall y :: y in page ==> y in Ahead(unfinished, cursor))
    && (forall y :: y in Ahead(unfinished, cursor) && y !in page ==> |page| == limit && forall z :: z in page ==> z < y)
  }

  /** The page of a pass, which wraps when nothing is left behind the cursor. */
  function Chosen(cursor: Option<Operation>, first: seq<Operation>, again: seq<Operation>): seq<Operation> {
    if first != [] || cursor.None? then first else again
  }

  /** Where the next pass starts. */
  function NextCursor(page: seq<Operation>, limit: nat): Option<Operation>
    requires limit > 0
  {
    if |page| < limit then None else Some(page[|page| - 1])
  }

  class UnfinishedWalk {
    var after: Option<Operation>
    var persisted: Option<Operation>

    /** Opens the walk at the cursor the store keeps. */
    constructor (store: CursorStore)
      ensures after == persisted == store.cursor
    {
      after, persisted := store.cursor, store.cursor;
    }

    /** `first` and `again` are what the store answers behind the cursor and from
        the start. */
    method Page(first: Option<seq<Operation>>, again: Option<seq<Operation>>) returns (page: Option<seq<Operation>>)
      modifies this`after
      ensures page == if first.None? || first.value != [] || old(after).None? then first else again
      ensures page.Some? ==> page.value == Chosen(old(after), first.value, if again.Some? then again.value else [])
      ensures after == if first.Some? && first.value == [] then None else old(after)
    {
      if first.None? { return None; }
      if first.value != [] || after.None? { return first; }
      after := None;
      page := again;
    }

    method Examined(operation: Operation)
      modifies this`after
      ensures after == Some(operation)
    {
      after := Some(operation);
    }

    /** Writes the cursor when it moved; a write that fails leaves the store as
        it was. */
    method Advance(store: CursorStore, end: bool, writable: bool) returns (ok: bool)
      requires persisted == store.cursor
      modifies this, store
      ensures after == if end then None else old(after)
      ensures store.cursor == persisted == if ok then after else old(store.cursor)
      ensures ok <==> writable || after == old(store.cursor)
    {
      if end { after := None; }
      if after == persisted { return true; }
      if !writable { return false; }
      store.cursor := after;
      persisted := after;
      ok := true;
    }
  }

  /** One pass over the unfinished operations; the store's answers, the first
      record whose handling fails and whether the cursor can be written are
      given. A pass that succeeds moves the stored cursor behind the last
      operation it examined, or to the start; one that fails leaves it alone. */
  method Pass(store: CursorStore, first: Option<seq<Operation>>, again: Option<seq<Operation>>, limit: nat,
              failing: Option<nat>, writable: bool)
    returns (ok: bool, examined: seq<Operation>)
    requires limit > 0
    modifies store
    ensures store.cursor == if ok then NextCursor(examined, limit) else old(store.cursor)
    ensures ok ==> first.Some?
                   && examined == Chosen(old(store.cursor), first.value, if again.Some? then again.value else [])
    ensures first.Some? && again.Some? && failing.None? && writable ==> ok
    ensures first.Some? && again.Some? && failing.Some? &&
            |Chosen(old(store.cursor), first.value, again.value)| <= limit
            && failing.value < |Chosen(old(store.cursor), first.value, again.value)|
            ==> !ok && |examined| == failing.value + 1
  {
    var walk := new UnfinishedWalk(store);
    examined := [];
    var answer := walk.Page(first, again);
    if answer.None? { return false, []; }
    var page := answer.value;
    for i := 0 to |page|
      invariant examined == page[..i]
      invariant walk.persisted == store.cursor == old(store.cursor)
      invariant i > 0 ==> walk.after == Some(page[i - 1])
      invariant failing.Some? ==> i <= failing.value
    {
      walk.Examined(page[i]);
      examined := examined + [page[i]];
      if failing == Some(i) { return false, examined; }
    }
    ok := walk.Advance(store, |page| < limit, writable);
  }

  // ------------------------------------------------------------- fairness

  /** How many pages of `limit` hold `count` operations. */
  function Pages(count: nat, limit: nat): nat
    requires limit > 0
  {
    if count == 0 then 0 else 1 + Pages(SaturatingSub(count, limit), limit)
  }

  /** `Pages` is division rounded up. */
  lemma {:induction false} PagesIsCeiling(count: nat, limit: nat)
    requires limit > 0
    ensures Pages(count, limit) * limit >= count
    ensures count > 0 ==> (Pages(count, limit) - 1) * limit < count
  {
    if count > limit {
      PagesIsCeiling(count - limit, limit);
    }
  }

  lemma {:induction false} PagesMonotone(a: nat, b: nat, limit: nat)
    requires limit > 0 && a <= b
    ensures Pages(a, limit) <= Pages(b, limit)
  {
    if a > 0 {
      PagesMonotone(SaturatingSub(a, limit), SaturatingSub(b, limit), limit);
    }
  }

  lemma {:induction false} PagesOfParts(a: nat, b: nat, all: nat, limit: nat)
    requires limit > 0 && a + b <= all
    ensures Pages(a, limit) + Pages(b, limit) <= Pages(all, limit) + 1
  {
    if a >= limit {
      PagesOfParts(a - limit, b, all - limit, limit);
    } else {
      PagesMonotone(b, all, limit);
    }
  }

  ghost function UpTo(unfinished: set<Operation>, cursor: Option<Operation>, x: Operation): set<Operation> {
    set y | y in Ahead(unfinished, cursor) && y <= x
  }

  /** A bound on the passes until `x` is examined: the pages up to `x`, behind
      the pages up to the end when the cursor has passed it. */
  ghost function Distance(unfinished: set<Operation>, cursor: Option<Operation>, limit: nat, x: Operation): nat
    requires limit > 0
  {
    if !Passed(cursor, x) then Pages(|UpTo(unfinished, cursor, x)|, limit)
    else Pages(|Ahead(unfinished, cursor)|, limit) + Pages(|UpTo(unfinished, None, x)|, limit)
  }

  lemma {:induction false} DistinctElements(page: seq<Operation>)
    requires forall i, j :: 0 <= i < j < |page| ==> page[i] < page[j]
    ensures |Elements(page)| == |page|
  {
    if page != [] {
      var init := page[..|page| - 1];
      DistinctElements(init);
      assert Elements(page) == Elements(init) + {page[|page| - 1]};
    }
  }

  /** What a full page takes away leaves one page fewer. */
  lemma OnePageFewer(from: set<Operation>, page: seq<Operation>, left: set<Operation>, limit: nat)
    requires limit > 0 && |page| == limit
    requires forall i, j :: 0 <= i < j < |page| ==> page[i] < page[j]
    requires Elements(page) <= from && left <= from - Elements(page)
    ensures Pages(|left|, limit) < Pages(|from|, limit)
  {
    DistinctElements(page);
    DisjointSizes(left, Elements(page), from);
    PagesMonotone(|left|, |from| - limit, limit);
  }

  lemma FewerPages(a: set<Operation>, b: set<Operation>, limit: nat)
    requires limit > 0 && a <= b
    ensures Pages(|a|, limit) <= Pages(|b|, limit)
  {
    SubsetCardinality(a, b);
    PagesMonotone(|a|, |b|, limit);
  }

  /** One pass: `unfinished` when its page is read behind the cursor, `wrapped`
      when it is read from the start. */
  ghost predicate IsPass(unfinished: set<Operation>, wrapped: set<Operation>, cursor: Option<Operation>, limit: nat,
                         page: seq<Operation>) {
    exists first, again ::
      IsPage(unfinished, cursor, limit, first) && IsPage(wrapped, None, limit, again) &&
          page == Chosen(cursor, first, again)
  }

  /** A pass that does not reach `x` ahead of the cursor brings the cursor at
      least a page closer. */
  lemma CloserAhead(u: set<Operation>, next: set<Operation>, cursor: Option<Operation>, limit: nat,
                    page: seq<Operation>, x: Operation)
    requires limit > 0 && next <= u && x in next && !Passed(cursor, x)
    requires IsPage(u, cursor, limit, page) && x !in page
    ensures var c := NextCursor(page, limit);
            !Passed(c, x) && Pages(|UpTo(next, c, x)|, limit) < Pages(|UpTo(u, cursor, x)|, limit)
  {
    assert x in Ahead(u, cursor);
    var c := NextCursor(page, limit);
    assert page[|page| - 1] in page;
    forall y | y in UpTo(next, c, x) ensures y in UpTo(u, cursor, x) - Elements(page) {
      assert forall i :: 0 <= i < |page| ==> page[i] <= c.value < y;
      assert c.value in Ahead(u, cursor);
    }
    OnePageFewer(UpTo(u, cursor, x), page, UpTo(next, c, x), limit);
  }

  /** A pass behind `x` brings the end at least a page closer. */
  lemma CloserBehind(u: set<Operation>, next: set<Operation>, cursor: Option<Operation>, limit: nat,
                     page: seq<Operation>, x: Operation)
    requires limit > 0 && next <= u && x in next && Passed(cursor, x)
    requires IsPage(u, cursor, limit, page) && page != []
    ensures Distance(next, NextCursor(page, limit), limit, x) < Distance(u, cursor, limit, x)
  {
    var c := NextCursor(page, limit);
    assert page[0] in Ahead(u, cursor);
    FewerPages(UpTo(next, None, x), UpTo(u, None, x), limit);
    if |page| == limit {
      assert page[|page| - 1] in page && c.value in Ahead(u, cursor);
      forall y | y in Ahead(next, c) ensures y in Ahead(u, cursor) - Elements(page) {
        assert forall i :: 0 <= i < |page| ==> page[i] <= c.value < y;
      }
      OnePageFewer(Ahead(u, cursor), page, Ahead(next, c), limit);
    } else {
      assert !Passed(c, x);
      assert |Ahead(u, cursor)| > 0;
    }
  }

  /** Every pass that does not examine `x` brings `x` closer. */
  lemma PassCloser(u: set<Operation>, wrapped: set<Operation>, next: set<Operation>, cursor: Option<Operation>,
                   limit: nat,
                   page: seq<Operation>, x: Operation)
    requires limit > 0 && next <= wrapped <= u && x in next
    requires IsPass(u, wrapped, cursor, limit, page) && x !in page
    ensures Distance(next, NextCursor(page, limit), limit, x) < Distance(u, cursor, limit, x)
  {
    var first, again :| IsPage(u, cursor, limit, first) && IsPage(wrapped, None, limit, again) &&
        page == Chosen(cursor, first, again);
    if !Passed(cursor, x) {
      assert x in Ahead(u, cursor);
      assert first != [];
      CloserAhead(u, next, cursor, limit, page, x);
    } else if first != [] {
      CloserBehind(u, next, cursor, limit, page, x);
    } else {
      CloserAhead(wrapped, next, None, limit, page, x);
      FewerPages(UpTo(wrapped, None, x), UpTo(u, None, x), limit);
    }
  }

  lemma DisjointSizes<T>(a: set<T>, b: set<T>, all: set<T>)
    requires a !! b && a <= all && b <= all
    ensures |a| + |b| <= |all|
  {
    assert |a + b| == |a| + |b|;
    SubsetCardinality(a + b, all);
  }

  lemma DistanceBound(u: set<Operation>, cursor: Option<Operation>, limit: nat, x: Operation)
    requires limit > 0 && x in u
    ensures 1 <= Distance(u, cursor, limit, x) <= Pages(|u|, limit) + 1
  {
    if !Passed(cursor, x) {
      assert x in UpTo(u, cursor, x);
      FewerPages(UpTo(u, cursor, x), u, limit);
    } else {
      assert x in UpTo(u, None, x);
      DisjointSizes(Ahead(u, cursor), UpTo(u, None, x), u);
      PagesOfParts(|Ahead(u, cursor)|, |UpTo(u, None, x)|, |u|, limit);
    }
  }

  /** Consecutive passes that all succeed, while operations finish but none is
      added. */
  datatype Run = Run(limit: nat, cursors: seq<Option<Operation>>, unfinished: seq<set<Operation>>,
                     wrapped: seq<set<Operation>>, pages: seq<seq<Operation>>) {
    ghost predicate Valid() {
      && limit > 0
      && |cursors| == |unfinished| == |pages| + 1 && |wrapped| == |pages|
      && (forall i: nat :: i < |pages| ==> Succeeds(i))
    }

    ghost predicate Succeeds(i: nat)
      requires limit > 0 && |cursors| == |unfinished| == |pages| + 1 && |wrapped| == |pages| && i < |pages|
    {
      && unfinished[i + 1] <= wrapped[i] <= unfinished[i]
      && IsPass(unfinished[i], wrapped[i], cursors[i], limit, pages[i])
      && cursors[i + 1] == NextCursor(pages[i], limit)
    }
  }

  lemma {:induction false} StaysUnfinished(run: Run, i: nat, x: Operation)
    requires run.Valid() && i <= |run.pages| && x in run.unfinished[|run.pages|]
    ensures x in run.unfinished[i]
    decreases |run.pages| - i
  {
    if i < |run.pages| {
      StaysUnfinished(run, i + 1, x);
      assert run.Succeeds(i);
    }
  }

  lemma {:induction false} ExaminedWithin(run: Run, i: nat, x: Operation) returns (j: nat)
    requires run.Valid() && i <= |run.pages| && x in run.unfinished[|run.pages|]
    requires i + Distance(run.unfinished[i], run.cursors[i], run.limit, x) <= |run.pages|
    ensures i <= j < |run.pages| && j < i + Distance(run.unfinished[i], run.cursors[i], run.limit, x)
    ensures x in run.pages[j]
    decreases |run.pages| - i
  {
    StaysUnfinished(run, i, x);
    DistanceBound(run.unfinished[i], run.cursors[i], run.limit, x);
    if x in run.pages[i] {
      j := i;
    } else {
      assert run.Succeeds(i);
      StaysUnfinished(run, i + 1, x);
      PassCloser(run.unfinished[i], run.wrapped[i], run.unfinished[i + 1], run.cursors[i], run.limit, run.pages[i], x);
      j := ExaminedWithin(run, i + 1, x);
    }
  }

  /** From any cursor, with N operations unfinished, every operation that stays
      unfinished is examined within N / limit (rounded up) + 1 passes. */
  lemma WalkIsFair(run: Run, i: nat, x: Operation)
    requires run.Valid() && i <= |run.pages| && x in run.unfinished[|run.pages|]
    requires i + Pages(|run.unfinished[i]|, run.limit) + 1 <= |run.pages|
    ensures exists j :: i <= j < |run.pages| && j <= i + Pages(|run.unfinished[i]|, run.limit) && x in run.pages[j]
  {
    StaysUnfinished(run, i, x);
    DistanceBound(run.unfinished[i], run.cursors[i], run.limit, x);
    var j := ExaminedWithin(run, i, x);
  }

  // ---------------------------------------------- exactly when, at a standstill

  lemma PagesStep(count: nat, limit: nat)
    requires limit > 0
    ensures count >= limit ==> Pages(count - limit, limit) == Pages(count, limit) - 1
    ensures 1 <= count <= limit ==> Pages(count, limit) == 1
  {
    assert Pages(0, limit) == 0;
  }

  /** What a full page takes away leaves exactly one page fewer. */
  lemma ExactlyOnePageFewer(from: set<Operation>, page: seq<Operation>, limit: nat)
    requires limit > 0 && |page| == limit && Elements(page) <= from
    requires forall i, j :: 0 <= i < j < |page| ==> page[i] < page[j]
    ensures Pages(|from - Elements(page)|, limit) == Pages(|from|, limit) - 1
  {
    DistinctElements(page);
    assert from == Elements(page) + (from - Elements(page));
    PagesStep(|from|, limit);
  }

  /** A page ahead of which `x` lies holds it exactly when one page does. */
  lemma ExactAhead(u: set<Operation>, cursor: Option<Operation>, limit: nat, page: seq<Operation>, x: Operation)
    requires limit > 0 && x in u && !Passed(cursor, x) && IsPage(u, cursor, limit, page)
    ensures x in page ==> Pages(|UpTo(u, cursor, x)|, limit) == 1
    ensures x !in page ==>
              && !Passed(NextCursor(page, limit), x)
              && Pages(|UpTo(u, NextCursor(page, limit), x)|, limit) == Pages(|UpTo(u, cursor, x)|, limit) - 1
  {
    var all := UpTo(u, cursor, x);
    assert x in all;
    if x in page {
      forall y | y in all ensures y in Elements(page) {
      }
      DistinctElements(page);
      SubsetCardinality(all, Elements(page));
      PagesStep(|all|, limit);
    } else {
      var c := NextCursor(page, limit);
      assert x in Ahead(u, cursor);
      assert page[|page| - 1] in page;
      assert forall i :: 0 <= i < |page| ==> page[i] <= c.value && page[i] in page;
      assert c.value in Ahead(u, cursor);
      assert UpTo(u, c, x) == all - Elements(page);
      ExactlyOnePageFewer(all, page, limit);
    }
  }

  /** A pass behind `x` that finds something ends one page closer. */
  lemma ExactBehind(u: set<Operation>, cursor: Option<Operation>, limit: nat, page: seq<Operation>, x: Operation)
    requires limit > 0 && x in u && Passed(cursor, x) && IsPage(u, cursor, limit, page) && page != []
    ensures x !in page && Distance(u, NextCursor(page, limit), limit, x) == Distance(u, cursor, limit, x) - 1
  {
    var c, ahead := NextCursor(page, limit), Ahead(u, cursor);
    assert page[0] in ahead && page[|page| - 1] in page;
    if |page| == limit {
      assert forall i :: 0 <= i < |page| ==> page[i] <= c.value && page[i] in page;
      assert c.value in ahead;
      assert Ahead(u, c) == ahead - Elements(page);
      ExactlyOnePageFewer(ahead, page, limit);
    } else {
      forall y | y in ahead ensures y in Elements(page) {
      }
      DistinctElements(page);
      SubsetCardinality(ahead, Elements(page));
      PagesStep(|ahead|, limit);
    }
  }

  /** While nothing finishes, a pass examines `x` exactly when it is one pass away,
      and otherwise brings it exactly one pass closer. */
  lemma PassExact(u: set<Operation>, cursor: Option<Operation>, limit: nat, page: seq<Operation>, x: Operation)
    requires limit > 0 && x in u && IsPass(u, u, cursor, limit, page)
    ensures x in page <==> Distance(u, cursor, limit, x) == 1
    ensures x !in page ==> Distance(u, NextCursor(page, limit), limit, x) == Distance(u, cursor, limit, x) - 1
  {
    var first, again :| IsPage(u, cursor, limit, first) && IsPage(u, None, limit, again) &&
        page == Chosen(cursor, first, again);
    if x !in page {
      DistanceBound(u, NextCursor(page, limit), limit, x);
    }
    if !Passed(cursor, x) {
      assert x in Ahead(u, cursor);
      assert first != [];
      ExactAhead(u, cursor, limit, page, x);
    } else if first != [] {
      ExactBehind(u, cursor, limit, page, x);
    } else {
      assert Ahead(u, cursor) == {};
      ExactAhead(u, None, limit, page, x);
    }
  }

  /** From any cursor, while nothing finishes, an operation is first examined in
      exactly the pass that the pages in front of it say: those up to it, behind
      those up to the end when the cursor has passed it. */
  lemma {:induction false} ExaminedExactly(run: Run, u: set<Operation>, i: nat, x: Operation)
    requires Standstill(run, u) && i <= |run.pages| && x in u
    requires i + Distance(u, run.cursors[i], run.limit, x) <= |run.pages|
    ensures var last := i + Distance(u, run.cursors[i], run.limit, x) - 1;
            && i <= last < |run.pages| && x in run.pages[last]
            && forall j :: i <= j < last ==> x !in run.pages[j]
    decreases |run.pages| - i
  {
    DistanceBound(u, run.cursors[i], run.limit, x);
    assert run.Succeeds(i);
    PassExact(u, run.cursors[i], run.limit, run.pages[i], x);
    if x !in run.pages[i] {
      ExaminedExactly(run, u, i + 1, x);
    }
  }

  /** Nothing finishes and nothing is added. */
  ghost predicate Standstill(run: Run, u: set<Operation>) {
    run.Valid() && forall j :: 0 <= j < |run.unfinished| ==> run.unfinished[j] == u
  }

  /** Where the page of a pass comes from. */
  lemma PageSource(u: set<Operation>, cursor: Option<Operation>, limit: nat, page: seq<Operation>)
    requires limit > 0 && IsPass(u, u, cursor, limit, page)
    ensures IsPage(u, if Ahead(u, cursor) == {} then None else cursor, limit, page)
  {
    var first, again :| IsPage(u, cursor, limit, first) && IsPage(u, None, limit, again)
                        && page == Chosen(cursor, first, again);
    if first != [] {
      assert first[0] in Ahead(u, cursor);
    }
    if Ahead(u, cursor) != {} {
      var y :| y in Ahead(u, cursor);
      assert first != [];
    }
  }

  /** More operations than fit on a page: one taken from the start is full, and
      something is left behind it. */
  lemma FullFromStart(u: set<Operation>, limit: nat, page: seq<Operation>)
    requires limit > 0 && |u| > limit && IsPage(u, None, limit, page)
    ensures |page| == limit && Ahead(u, NextCursor(page, limit)) != {}
  {
    DistinctElements(page);
    if u <= Elements(page) {
      SubsetCardinality(u, Elements(page));
    }
    var y :| y in u && y !in Elements(page);
    assert y in Ahead(u, None);
    assert page[|page| - 1] in page;
    assert y in Ahead(u, NextCursor(page, limit));
  }

  /** An operation on two pages in a row is on the second as on one taken from the
      start. */
  lemma SecondFromStart(u: set<Operation>, cursor: Option<Operation>, limit: nat,
                        page: seq<Operation>, second: seq<Operation>, x: Operation)
    requires limit > 0 && IsPass(u, u, cursor, limit, page) && IsPass(u, u, NextCursor(page, limit), limit, second)
    requires x in page && x in second
    ensures IsPage(u, None, limit, second)
    ensures Passed(NextCursor(page, limit), x) || NextCursor(page, limit) == None
  {
    var next := NextCursor(page, limit);
    PageSource(u, cursor, limit, page);
    PageSource(u, next, limit, second);
    if |page| == limit {
      var k :| 0 <= k < |page| && page[k] == x;
      assert page[k] <= page[|page| - 1];
      assert x !in Ahead(u, next);
    }
  }

  lemma ThirdMisses(u: set<Operation>, cursor: Option<Operation>, limit: nat,
                    page: seq<Operation>, second: seq<Operation>, third: seq<Operation>, x: Operation)
    requires limit > 0 && |u| > limit && IsPass(u, u, cursor, limit, page)
    requires IsPass(u, u, NextCursor(page, limit), limit, second)
    requires IsPass(u, u, NextCursor(second, limit), limit, third)
    requires x in page && x in second
    ensures x !in third
  {
    SecondFromStart(u, cursor, limit, page, second, x);
    FullFromStart(u, limit, second);
    PageSource(u, NextCursor(second, limit), limit, third);
    var k :| 0 <= k < |second| && second[k] == x;
    assert second[k] <= second[|second| - 1];
    assert x !in Ahead(u, NextCursor(second, limit));
  }

  /** When the unfinished operations do not fit on one page, no operation is on
      three pages in a row. */
  lemma NotThreeInARow(run: Run, u: set<Operation>, i: nat, x: Operation)
    requires Standstill(run, u) && |u| > run.limit && i + 2 < |run.pages|
    ensures !(x in run.pages[i] && x in run.pages[i + 1] && x in run.pages[i + 2])
  {
    assert run.Succeeds(i) && run.Succeeds(i + 1) && run.Succeeds(i + 2);
    if x in run.pages[i] && x in run.pages[i + 1] {
      ThirdMisses(u, run.cursors[i], run.limit, run.pages[i], run.pages[i + 1], run.pages[i + 2], x);
    }
  }

  /** When they do, a cursor at either end shows all of them and stays at an end. */
  lemma AllOnOnePage(u: set<Operation>, cursor: Option<Operation>, limit: nat, page: seq<Operation>)
    requires limit > 0 && |u| <= limit && (cursor == None || Ahead(u, cursor) == {})
    requires IsPass(u, u, cursor, limit, page)
    ensures Elements(page) == u
    ensures NextCursor(page, limit) == None || Ahead(u, NextCursor(page, limit)) == {}
  {
    PageSource(u, cursor, limit, page);
    DistinctElements(page);
    assert forall y :: y in page ==> y in Ahead(u, None);
    SubsetCardinality(Elements(page), u);
    if |page| == limit {
      forall y | y in u ensures Passed(NextCursor(page, limit), y) {
        assert y in Elements(page);
        var k :| 0 <= k < |page| && page[k] == y;
        assert page[k] <= page[|page| - 1];
      }
    } else {
      assert forall y :: y in u ==> y in Ahead(u, None);
    }
  }

  lemma {:induction false} EveryPageShowsAll(run: Run, u: set<Operation>, i: nat)
    requires Standstill(run, u) && |u| <= run.limit && i < |run.pages|
    requires run.cursors[0] == None || Ahead(u, run.cursors[0]) == {}
    ensures run.cursors[i] == None || Ahead(u, run.cursors[i]) == {}
    ensures Elements(run.pages[i]) == u
  {
    if i > 0 {
      EveryPageShowsAll(run, u, i - 1);
      assert run.Succeeds(i - 1);
      AllOnOnePage(u, run.cursors[i - 1], run.limit, run.pages[i - 1]);
    }
    assert run.Succeeds(i);
    AllOnOnePage(u, run.cursors[i], run.limit, run.pages[i]);
  }

  // -------------------------------------------------- handling that fails

  /** The first operation of the page whose handling fails. */
  function FirstBroken(page: seq<Operation>, broken: set<Operation>, from: nat): (f: nat)
    requires from <= |page|
    ensures from <= f <= |page|
    decreases |page| - from
  {
    if from == |page| || page[from] in broken then from else FirstBroken(page, broken, from + 1)
  }

  predicate IsStuck(page: seq<Operation>, broken: set<Operation>) {
    FirstBroken(page, broken, 0) < |page|
  }

  /** Consecutive passes at a standstill, in which handling one of the operations
      `broken` always fails. Such a pass ends there and leaves the cursor alone. */
  datatype Attempts = Attempts(
    limit: nat, unfinished: set<Operation>, broken: set<Operation>,
    cursors: seq<Option<Operation>>, pages: seq<seq<Operation>>, examined: seq<seq<Operation>>) {

    ghost predicate Valid() {
      && limit > 0
      && |cursors| == |pages| + 1 && |examined| == |pages|
      && (forall i: nat :: i < |pages| ==> IsAttempt(i))
    }

    ghost predicate IsAttempt(i: nat)
      requires limit > 0 && |cursors| == |pages| + 1 && |examined| == |pages| && i < |pages|
    {
      && IsPass(unfinished, unfinished, cursors[i], limit, pages[i])
      && var f := FirstBroken(pages[i], broken, 0);
         if f < |pages[i]| then examined[i] == pages[i][..f + 1] && cursors[i + 1] == cursors[i]
         else examined[i] == pages[i] && cursors[i + 1] == NextCursor(pages[i], limit)
    }
  }

  lemma {:induction false} AscendingUnique(p: seq<Operation>, q: seq<Operation>)
    requires forall i, j :: 0 <= i < j < |p| ==> p[i] < p[j]
    requires forall i, j :: 0 <= i < j < |q| ==> q[i] < q[j]
    requires Elements(p) == Elements(q)
    ensures p == q
    decreases |p|
  {
    DistinctElements(p);
    DistinctElements(q);
    if p != [] {
      var last := |p| - 1;
      assert p[last] in Elements(q) && q[last] in Elements(p);
      assert p[last] == q[last];
      assert Elements(p[..last]) == Elements(p) - {p[last]};
      assert Elements(q[..last]) == Elements(q) - {q[last]};
      AscendingUnique(p[..last], q[..last]);
    }
  }

  lemma PageWithin(u: set<Operation>, cursor: Option<Operation>, limit: nat, p: seq<Operation>, q: seq<Operation>)
    requires IsPage(u, cursor, limit, p) && IsPage(u, cursor, limit, q)
    ensures Elements(p) <= Elements(q)
  {
    forall y | y in Elements(p) ensures y in Elements(q) {
      if y !in q {
        assert y in Ahead(u, cursor) && |q| == limit;
        forall z | z in q ensures z in Elements(p) {
          assert z in Ahead(u, cursor) && z < y;
        }
        DistinctElements(p);
        DistinctElements(q);
        SubsetCardinality(Elements(q), Elements(p));
        assert false;
      }
    }
  }

  /** The store's answer is determined. */
  lemma PassUnique(u: set<Operation>, cursor: Option<Operation>, limit: nat, p: seq<Operation>, q: seq<Operation>)
    requires limit > 0 && IsPass(u, u, cursor, limit, p) && IsPass(u, u, cursor, limit, q)
    ensures p == q
  {
    var from := if Ahead(u, cursor) == {} then None else cursor;
    PageSource(u, cursor, limit, p);
    PageSource(u, cursor, limit, q);
    PageWithin(u, from, limit, p, q);
    PageWithin(u, from, limit, q, p);
    AscendingUnique(p, q);
  }

  /** Once a pass is stuck, every later pass examines the same operations: those up
      to the one whose handling fails, and none behind it. */
  lemma {:induction false} StuckStarves(run: Attempts, i: nat, j: nat)
    requires run.Valid() && i <= j < |run.pages| && IsStuck(run.pages[i], run.broken)
    ensures run.cursors[j] == run.cursors[i] && run.pages[j] == run.pages[i] && run.examined[j] == run.examined[i]
    ensures run.examined[j] == run.pages[i][..FirstBroken(run.pages[i], run.broken, 0) + 1]
    decreases j
  {
    assert run.IsAttempt(i) && run.IsAttempt(j);
    if i < j {
      StuckStarves(run, i, j - 1);
      assert run.IsAttempt(j - 1);
      PassUnique(run.unfinished, run.cursors[i], run.limit, run.pages[i], run.pages[j]);
    }
  }

  /** Fairness is lost only so: within the bound an operation is examined, or a pass
      is stuck, and then it is examined afterwards exactly if that pass examined it. */
  lemma ExaminedOrStuck(run: Attempts, i: nat, x: Operation)
    requires run.Valid() && x in run.unfinished
    requires i + Pages(|run.unfinished|, run.limit) + 1 <= |run.pages|
    ensures exists j: nat :: i <= j <= i + Pages(|run.unfinished|, run.limit)
              && (IsStuck(run.pages[j], run.broken) || x in run.examined[j])
    ensures forall j: nat, k: nat :: j <= k < |run.pages| && IsStuck(run.pages[j], run.broken) ==>
              (x in run.examined[k] <==> x in run.examined[j])
  {
    forall j: nat, k: nat | j <= k < |run.pages| && IsStuck(run.pages[j], run.broken)
      ensures x in run.examined[k] <==> x in run.examined[j]
    {
      StuckStarves(run, j, k);
    }
    var n := Pages(|run.unfinished|, run.limit) + 1;
    if forall j: nat :: i <= j < i + n ==> !IsStuck(run.pages[j], run.broken) {
      var smooth := SmoothPart(run, i, n);
      WalkIsFair(smooth, 0, x);
      var j :| 0 <= j < |smooth.pages| && x in smooth.pages[j];
      assert run.IsAttempt(i + j) && x in run.examined[i + j];
    } else {
      var j: nat :| i <= j < i + n && IsStuck(run.pages[j], run.broken);
    }
  }

  /** Passes none of which is stuck form a run in which all succeed. */
  lemma SmoothPart(run: Attempts, i: nat, n: nat) returns (smooth: Run)
    requires run.Valid() && i + n <= |run.pages|
    requires forall j: nat :: i <= j < i + n ==> !IsStuck(run.pages[j], run.broken)
    ensures smooth.Valid() && smooth.limit == run.limit && |smooth.pages| == n
    ensures forall j :: 0 <= j <= n ==> smooth.unfinished[j] == run.unfinished
    ensures forall j :: 0 <= j < n ==> smooth.pages[j] == run.pages[i + j]
  {
    var u := run.unfinished;
    smooth := Run(run.limit, run.cursors[i..i + n + 1], seq(n + 1, _ => u), seq(n, _ => u), run.pages[i..i + n]);
    forall j: nat | j < n ensures smooth.Succeeds(j) {
      assert run.IsAttempt(i + j) && !IsStuck(run.pages[i + j], run.broken);
    }
  }
}
