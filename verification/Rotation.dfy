/** The watcher's rotating cursor over the watched invoices, in id order. */
module Rotation {
  import opened Base
  import opened Invoices

  ghost predicate Ascending(ids: seq<Id>) { forall i, j :: 0 <= i < j < |ids| ==> ids[i] < ids[j] }

  function Beyond(cursor: Option<Id>): Id -> bool { (id: Id) => cursor.None? || id > cursor.value }

  /** The query of _load_batch on the watched ids in order: those beyond the cursor. Mongo takes limit 0 as none. */
  function Queried(watched: seq<Id>, limit: nat, cursor: Option<Id>): seq<Id> {
    var listed := Filter(watched, Beyond(cursor));
    if limit == 0 then listed else listed[..Min(limit, |listed|)]
  }

  function Position(watched: seq<Id>, cursor: Option<Id>): (p: nat)
    ensures p <= |watched|
  {
    FirstIndex(watched, Beyond(cursor))
  }

  /** The same batch as a slice of the listing. */
  function BatchIds(watched: seq<Id>, limit: nat, cursor: Option<Id>): seq<Id> {
    SliceFrom(watched, limit, Position(watched, cursor))
  }

  function SliceFrom(watched: seq<Id>, limit: nat, p: nat): seq<Id>
    requires p <= |watched|
  {
    watched[p..Min(p + limit, |watched|)]
  }

  /** A short batch resets the cursor; a full one moves it to its last id. */
  function NextCursor(batch: seq<Id>, limit: nat, cursor: Option<Id>): Option<Id> {
    if |batch| < limit then None else if batch != [] then Some(batch[|batch| - 1]) else cursor
  }

  function Advance(watched: seq<Id>, limit: nat, cursor: Option<Id>): Option<Id> {
    NextCursor(BatchIds(watched, limit, cursor), limit, cursor)
  }

  /** The cursor after n ticks over an unchanged watch set. */
  function CursorAt(watched: seq<Id>, limit: nat, cursor: Option<Id>, n: nat): Option<Id> {
    if n == 0 then cursor else Advance(watched, limit, CursorAt(watched, limit, cursor, n - 1))
  }

  function BatchAt(watched: seq<Id>, limit: nat, cursor: Option<Id>, n: nat): seq<Id> {
    BatchIds(watched, limit, CursorAt(watched, limit, cursor, n))
  }

  /** Everything loaded by the first n ticks, in order. */
  function LoadedBy(watched: seq<Id>, limit: nat, cursor: Option<Id>, n: nat): seq<Id> {
    if n == 0 then [] else LoadedBy(watched, limit, cursor, n - 1) + BatchAt(watched, limit, cursor, n - 1)
  }

  // ---------- cursors as positions ----------

  lemma {:induction false} FilterIsSuffix(watched: seq<Id>, cursor: Option<Id>)
    requires Ascending(watched)
    ensures Filter(watched, Beyond(cursor)) == watched[Position(watched, cursor)..]
  {
    if watched != [] {
      if Beyond(cursor)(watched[0]) {
        FilterAll(watched, Beyond(cursor));
      } else {
        FilterIsSuffix(watched[1..], cursor);
      }
    }
  }

  lemma SliceAscends(ids: seq<Id>, from: nat, to: nat)
    requires Ascending(ids) && from <= to <= |ids|
    ensures Ascending(ids[from..to])
  {
  }

  /** The query returns that slice. */
  lemma QueriedIsSlice(watched: seq<Id>, limit: nat, cursor: Option<Id>)
    requires Ascending(watched) && limit > 0
    ensures Queried(watched, limit, cursor) == BatchIds(watched, limit, cursor)
  {
    FilterIsSuffix(watched, cursor);
  }

  lemma StartPosition(watched: seq<Id>)
    ensures Position(watched, None) == 0
  {
  }

  lemma PositionOfLast(watched: seq<Id>, k: nat)
    requires Ascending(watched) && k < |watched|
    ensures Position(watched, Some(watched[k])) == k + 1
  {
    var cursor: Option<Id> := Some(watched[k]);
    assert !Beyond(cursor)(watched[k]);
    assert k + 1 < |watched| ==> Beyond(cursor)(watched[k + 1]);
    assert forall i :: 0 <= i <= k ==> !Beyond(cursor)(watched[i]);
  }

  lemma CursorMoves(watched: seq<Id>, limit: nat, cursor: Option<Id>)
    requires Ascending(watched) && limit > 0
    ensures var next := Advance(watched, limit, cursor);
      && Position(watched, next) == NextPosition(|watched|, limit, Position(watched, cursor))
      && (next.None? <==> |watched| - Position(watched, cursor) < limit)
  {
    StartPosition(watched);
    var p := Position(watched, cursor);
    if p + limit <= |watched| {
      PositionOfLast(watched, p + limit - 1);
    }
  }

  function NextPosition(size: nat, limit: nat, p: nat): nat { if size - p < limit then 0 else p + limit }

  function PositionAt(size: nat, limit: nat, p: nat, n: nat): nat {
    if n == 0 then p else NextPosition(size, limit, PositionAt(size, limit, p, n - 1))
  }

  lemma {:induction false} CursorIsAtPosition(watched: seq<Id>, limit: nat, cursor: Option<Id>, n: nat)
    requires Ascending(watched) && limit > 0
    ensures Position(watched, CursorAt(watched, limit, cursor, n))
         == PositionAt(|watched|, limit, Position(watched, cursor), n)
  {
    if n > 0 {
      CursorIsAtPosition(watched, limit, cursor, n - 1);
      CursorMoves(watched, limit, CursorAt(watched, limit, cursor, n - 1));
    }
  }

  // ---------- arithmetic of positions ----------

  lemma {:induction false} FullSteps(size: nat, limit: nat, p: nat, n: nat)
    requires p + n * limit <= size
    ensures PositionAt(size, limit, p, n) == p + n * limit
  {
    if n > 0 {
      assert n * limit == (n - 1) * limit + limit;
      FullSteps(size, limit, p, n - 1);
    }
  }

  /** From any position the last full steps and one short one lead back to the start. */
  lemma StepsToReset(size: nat, limit: nat, p: nat)
    requires limit > 0 && p <= size
    ensures PositionAt(size, limit, p, (size - p) / limit + 1) == 0
  {
    var m := (size - p) / limit;
    DivisionFacts(size - p, limit);
    FullSteps(size, limit, p, m);
  }

  lemma {:induction false} PositionLater(size: nat, limit: nat, p: nat, m: nat, n: nat)
    ensures PositionAt(size, limit, p, m + n) == PositionAt(size, limit, PositionAt(size, limit, p, m), n)
  {
    if n > 0 {
      PositionLater(size, limit, p, m, n - 1);
    }
  }

  /** The tick that covers an index ahead of the position. */
  lemma ReachAhead(size: nat, limit: nat, p: nat, i: nat) returns (n: nat)
    requires limit > 0 && p <= i < size
    ensures n == (i - p) / limit
    ensures PositionAt(size, limit, p, n) <= i < PositionAt(size, limit, p, n) + limit
  {
    n := (i - p) / limit;
    DivisionFacts(i - p, limit);
    FullSteps(size, limit, p, n);
  }

  /** The tick that covers an index behind the position: first to the reset, then ahead from the start. */
  lemma ReachBehind(size: nat, limit: nat, p: nat, i: nat) returns (n: nat)
    requires limit > 0 && i < p <= size
    ensures n == (size - p) / limit + 1 + i / limit
    ensures PositionAt(size, limit, p, n) <= i < PositionAt(size, limit, p, n) + limit
  {
    var m := (size - p) / limit + 1;
    StepsToReset(size, limit, p);
    var k := ReachAhead(size, limit, 0, i);
    PositionLater(size, limit, p, m, k);
    n := m + k;
  }

  /** Some tick within size/limit + 2 starts at most `limit` before any given index. */
  lemma PositionReaches(size: nat, limit: nat, p: nat, i: nat) returns (n: nat)
    requires limit > 0 && p <= size && i < size
    ensures n <= size / limit + 1
    ensures PositionAt(size, limit, p, n) <= i < PositionAt(size, limit, p, n) + limit
  {
    if p <= i {
      n := ReachAhead(size, limit, p, i);
      QuotientsAdd(i - p, 0, size, limit);
    } else {
      n := ReachBehind(size, limit, p, i);
      QuotientsAdd(size - p, i, size, limit);
    }
  }

  lemma QuotientsAdd(a: nat, b: nat, size: nat, limit: nat)
    requires limit > 0 && a + b <= size
    ensures a / limit + b / limit <= size / limit
  {
    DivisionFacts(a, limit);
    DivisionFacts(b, limit);
    DivisionFacts(size, limit);
    assert (a / limit + b / limit) * limit == a / limit * limit + b / limit * limit;
    assert (size / limit + 1) * limit == size / limit * limit + limit;
    MulCancel(a / limit + b / limit, size / limit + 1, limit);
  }

  // ---------- fairness ----------

  lemma BatchIsSlice(watched: seq<Id>, limit: nat, cursor: Option<Id>, n: nat, p: nat)
    requires Ascending(watched) && limit > 0 && p == PositionAt(|watched|, limit, Position(watched, cursor), n)
    ensures p <= |watched| && BatchAt(watched, limit, cursor, n) == SliceFrom(watched, limit, p)
  {
    CursorIsAtPosition(watched, limit, cursor, n);
  }

  lemma CoveredByBatch(watched: seq<Id>, limit: nat, cursor: Option<Id>, n: nat, i: nat)
    requires Ascending(watched) && limit > 0 && i < |watched|
    requires var p := PositionAt(|watched|, limit, Position(watched, cursor), n); p <= i < p + limit
    ensures watched[i] in BatchAt(watched, limit, cursor, n)
  {
    var p := PositionAt(|watched|, limit, Position(watched, cursor), n);
    BatchIsSlice(watched, limit, cursor, n, p);
    SliceCovers(watched, limit, p, i);
  }

  lemma SliceCovers(watched: seq<Id>, limit: nat, p: nat, i: nat)
    requires p <= i < |watched| && i < p + limit
    ensures watched[i] in SliceFrom(watched, limit, p)
  {
    assert SliceFrom(watched, limit, p)[i - p] == watched[i];
  }

  /** From any cursor, every watched invoice is loaded within size/limit + 2 ticks. */
  lemma EveryInvoiceIsLoaded(watched: seq<Id>, limit: nat, cursor: Option<Id>, id: Id) returns (n: nat)
    requires Ascending(watched) && limit > 0 && id in watched
    ensures n < |watched| / limit + 2
    ensures id in BatchAt(watched, limit, cursor, n)
  {
    var i :| 0 <= i < |watched| && watched[i] == id;
    n := PositionReaches(|watched|, limit, Position(watched, cursor), i);
    CoveredByBatch(watched, limit, cursor, n, i);
  }

  /** The batches of a cycle are consecutive slices of the watch set. */
  lemma BatchInCycle(watched: seq<Id>, limit: nat, n: nat, p: nat)
    requires Ascending(watched) && limit > 0 && p == n * limit <= |watched|
    ensures Position(watched, CursorAt(watched, limit, None, n)) == p
    ensures BatchAt(watched, limit, None, n) == SliceFrom(watched, limit, p)
  {
    StartPosition(watched);
    FullSteps(|watched|, limit, 0, n);
    CursorIsAtPosition(watched, limit, None, n);
  }

  lemma LoadMore(watched: seq<Id>, limit: nat, n: nat, p: nat)
    requires p <= |watched|
    requires LoadedBy(watched, limit, None, n) == watched[..p]
    requires BatchAt(watched, limit, None, n) == SliceFrom(watched, limit, p)
    ensures LoadedBy(watched, limit, None, n + 1) == watched[..Min(p + limit, |watched|)]
  {
    var batch := BatchAt(watched, limit, None, n);
    assert LoadedBy(watched, limit, None, n + 1) == watched[..p] + batch;
    assert batch == watched[p..Min(p + limit, |watched|)];
  }

  lemma LoadNext(watched: seq<Id>, limit: nat, n: nat, p: nat)
    requires Ascending(watched) && limit > 0 && p == n * limit && p + limit <= |watched|
    requires LoadedBy(watched, limit, None, n) == watched[..p]
    ensures LoadedBy(watched, limit, None, n + 1) == watched[..p + limit]
  {
    BatchInCycle(watched, limit, n, p);
    LoadMore(watched, limit, n, p);
  }

  lemma {:induction false} LoadedIsPrefix(watched: seq<Id>, limit: nat, n: nat, p: nat)
    requires Ascending(watched) && limit > 0 && p == n * limit && p <= |watched|
    ensures LoadedBy(watched, limit, None, n) == watched[..p]
    decreases n
  {
    if n > 0 {
      var m := n - 1;
      var q := p - limit;
      assert q == m * limit;
      LoadedIsPrefix(watched, limit, m, q);
      LoadNext(watched, limit, m, q);
    }
  }

  lemma CursorResets(watched: seq<Id>, limit: nat, n: nat, p: nat)
    requires Ascending(watched) && limit > 0 && p == n * limit <= |watched|
    ensures CursorAt(watched, limit, None, n + 1).None? <==> |watched| - p < limit
  {
    BatchInCycle(watched, limit, n, p);
    CursorMoves(watched, limit, CursorAt(watched, limit, None, n));
  }

  lemma CursorStays(watched: seq<Id>, limit: nat, n: nat, last: nat)
    requires Ascending(watched) && limit > 0 && 0 < n <= last && last * limit <= |watched|
    ensures CursorAt(watched, limit, None, n).Some?
  {
    MulMonotone(n, last, limit);
    assert n * limit == (n - 1) * limit + limit;
    CursorResets(watched, limit, n - 1, (n - 1) * limit);
  }

  /**
   * A cycle from a reset cursor lasts size/limit + 1 ticks, loads every watched invoice exactly once
   * in id order, and does not reset the cursor before its end; its last batch is empty exactly when
   * the size is a multiple of the limit.
   */
  lemma CycleLoadsEachOnce(watched: seq<Id>, limit: nat, last: nat)
    requires Ascending(watched) && limit > 0 && last == |watched| / limit
    ensures LoadedBy(watched, limit, None, last + 1) == watched
    ensures CursorAt(watched, limit, None, last + 1) == None
    ensures forall n :: 0 < n <= last ==> CursorAt(watched, limit, None, n).Some?
    ensures BatchAt(watched, limit, None, last) == [] <==> |watched| % limit == 0
  {
    DivisionFacts(|watched|, limit);
    CycleOf(watched, limit, last, last * limit);
  }

  lemma CycleOf(watched: seq<Id>, limit: nat, last: nat, done: nat)
    requires Ascending(watched) && limit > 0 && done == last * limit <= |watched| < done + limit
    ensures LoadedBy(watched, limit, None, last + 1) == watched
    ensures CursorAt(watched, limit, None, last + 1) == None
    ensures forall n :: 0 < n <= last ==> CursorAt(watched, limit, None, n).Some?
    ensures BatchAt(watched, limit, None, last) == [] <==> |watched| == done
  {
    LoadedIsPrefix(watched, limit, last, done);
    BatchInCycle(watched, limit, last, done);
    LoadMore(watched, limit, last, done);
    CursorResets(watched, limit, last, done);
    forall n | 0 < n <= last ensures CursorAt(watched, limit, None, n).Some? {
      CursorStays(watched, limit, n, last);
    }
  }

  lemma PositionsRepeat(size: nat, limit: nat, n: nat, cycle: nat)
    requires limit > 0 && cycle == size / limit + 1
    ensures PositionAt(size, limit, 0, cycle + n) == PositionAt(size, limit, 0, n)
  {
    StepsToReset(size, limit, 0);
    PositionLater(size, limit, 0, cycle, n);
  }

  /** A batch that is lost, as when listunspent fails, comes back whole one cycle later. */
  lemma LostBatchReturns(watched: seq<Id>, limit: nat, cursor: Option<Id>, n: nat, cycle: nat)
    requires Ascending(watched) && limit > 0 && cycle == |watched| / limit + 1
    requires Position(watched, cursor) == 0
    ensures BatchAt(watched, limit, cursor, cycle + n) == BatchAt(watched, limit, cursor, n)
  {
    var p := PositionAt(|watched|, limit, 0, n);
    PositionsRepeat(|watched|, limit, n, cycle);
    BatchIsSlice(watched, limit, cursor, n, p);
    BatchIsSlice(watched, limit, cursor, cycle + n, p);
  }

  /** A batch setting of 0 stops the rotation: one tick loads all, and no later one loads any of them again. */
  lemma ZeroLimitStarves(watched: seq<Id>, cursor: Option<Id>)
    requires Ascending(watched) && watched != []
    ensures var batch := Queried(watched, 0, cursor);
      var next := NextCursor(batch, 0, cursor);
      next.Some? && Queried(watched, 0, next) == [] && NextCursor([], 0, next) == next
  {
    FilterIsSuffix(watched, cursor);
    var next := NextCursor(Queried(watched, 0, cursor), 0, cursor);
    forall i | 0 <= i < |watched| ensures !Beyond(next)(watched[i]) {
      if Queried(watched, 0, cursor) == [] {
        assert watched[i] in watched;
      }
    }
    FilterNone(watched, Beyond(next));
  }
}
