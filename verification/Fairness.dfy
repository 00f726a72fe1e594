/**
 * The rotation while the watch set changes: when an invoice that stays watched is loaded although others leave and
 * join, when it is starved, and when an overdue invoice becomes final.
 */
module Fairness {
  import opened Base
  import opened Settlement
  import opened SettlementLaws
  import opened Invoices
  import opened Collection
  import opened Protocol
  import opened Rotation
  import opened Watcher
  import opened WatcherLaws

  // ---------- what a cursor leaves to load ----------

  /** The watched ids a cursor still has to pass before it gets to id. */
  function Ahead(watched: seq<Id>, cursor: Option<Id>, id: Id): set<Id> {
    set x | x in watched && Beyond(cursor)(x) && x < id
  }

  /** Ids before a given one, among those watched. */
  function Smaller(watched: seq<Id>, id: Id): set<Id> { Ahead(watched, None, id) }

  function Left(watched: seq<Id>, cursor: Option<Id>): set<Id> { set x | x in watched && Beyond(cursor)(x) }

  function Joined(watched: seq<Id>, later: seq<Id>): set<Id> { set x | x in later && x !in watched }

  /** What joins comes after id, as an invoice created later does. */
  ghost predicate NoneJoinsBefore(watched: seq<Id>, later: seq<Id>, id: Id) {
    forall x :: x in later && x < id ==> x in watched
  }

  lemma {:induction false} SizeOfSet(ids: seq<Id>)
    ensures |(set x | x in ids)| <= |ids|
    ensures Ascending(ids) ==> |(set x | x in ids)| == |ids|
  {
    if ids != [] {
      var rest := ids[1..];
      SizeOfSet(rest);
      assert (set x | x in ids) == {ids[0]} + (set x | x in rest);
      if Ascending(ids) {
        assert ids[0] !in rest;
      }
    }
  }

  lemma PositionSplits(watched: seq<Id>, cursor: Option<Id>, i: nat)
    requires Ascending(watched) && i < |watched|
    ensures Beyond(cursor)(watched[i]) <==> i >= Position(watched, cursor)
  {
    var p := Position(watched, cursor);
    assert p < |watched| ==> Beyond(cursor)(watched[p]);
  }

  lemma BatchEntry(watched: seq<Id>, limit: nat, cursor: Option<Id>, k: nat)
    requires Ascending(watched) && k < |BatchIds(watched, limit, cursor)|
    ensures var batch := BatchIds(watched, limit, cursor);
      batch[k] in Left(watched, cursor) && batch[k] <= batch[|batch| - 1]
  {
    var p := Position(watched, cursor);
    PositionSplits(watched, cursor, p + k);
    assert watched[p + k] in watched;
  }

  /** A full batch is that many ids the cursor had left, up to the new cursor. */
  lemma FullBatch(watched: seq<Id>, limit: nat, cursor: Option<Id>, batch: seq<Id>, last: Id)
    requires Ascending(watched) && limit > 0 && batch == BatchIds(watched, limit, cursor) && |batch| == limit
    requires last == batch[limit - 1]
    ensures |(set x | x in batch)| == limit
    ensures forall x :: x in batch ==> x in Left(watched, cursor) && x <= last
    ensures Advance(watched, limit, cursor) == Some(last) && Beyond(cursor)(last)
  {
    SliceAscends(watched, Position(watched, cursor), Position(watched, cursor) + limit);
    SizeOfSet(batch);
    forall x | x in batch ensures x in Left(watched, cursor) && x <= last {
      var k :| 0 <= k < |batch| && batch[k] == x;
      BatchEntry(watched, limit, cursor, k);
    }
    BatchEntry(watched, limit, cursor, limit - 1);
  }

  lemma DisjointSizes(some: set<Id>, others: set<Id>, all: set<Id>)
    requires some <= all && others <= all && some !! others
    ensures |some| + |others| <= |all|
  {
    assert |some + others| == |some| + |others|;
    SubsetSize(some + others, all);
  }

  lemma SubsetSize(some: set<Id>, all: set<Id>)
    requires some <= all
    ensures |some| <= |all|
  {
    assert all == some + (all - some);
  }

  /** A tick that does not load id passes `limit` of the ids before it. */
  lemma AheadShrinks(watched: seq<Id>, later: seq<Id>, limit: nat, cursor: Option<Id>, id: Id)
    requires Ascending(watched) && NoneJoinsBefore(watched, later, id) && limit > 0
    requires id in watched && Beyond(cursor)(id) && id !in BatchIds(watched, limit, cursor)
    ensures var next := Advance(watched, limit, cursor);
      Beyond(next)(id) && |Ahead(later, next, id)| + limit <= |Ahead(watched, cursor, id)|
  {
    var batch := BatchIds(watched, limit, cursor);
    var last := NotLoaded(watched, limit, cursor, id);
    FullBatch(watched, limit, cursor, batch, last);
    DisjointSizes((set x | x in batch), Ahead(later, Some(last), id), Ahead(watched, cursor, id));
  }

  lemma NotLoaded(watched: seq<Id>, limit: nat, cursor: Option<Id>, id: Id) returns (last: Id)
    requires Ascending(watched) && limit > 0
    requires id in watched && Beyond(cursor)(id) && id !in BatchIds(watched, limit, cursor)
    ensures |BatchIds(watched, limit, cursor)| == limit
    ensures last == BatchIds(watched, limit, cursor)[limit - 1] && last < id
  {
    var p := Position(watched, cursor);
    var i :| 0 <= i < |watched| && watched[i] == id;
    PositionSplits(watched, cursor, i);
    if i < p + limit {
      SliceCovers(watched, limit, p, i);
    }
    last := watched[p + limit - 1];
  }

  lemma LeftWithin(watched: seq<Id>, later: seq<Id>, cursor: Option<Id>, last: Id)
    requires Beyond(cursor)(last)
    ensures Left(later, Some(last)) - Joined(watched, later) <= Left(watched, cursor)
  {
    forall x | x in Left(later, Some(last)) && x !in Joined(watched, later) ensures x in Left(watched, cursor) {
      assert Beyond(Some(last))(x) && Beyond(cursor)(x);
    }
  }

  lemma WithoutSize(some: set<Id>, others: set<Id>)
    ensures |some| <= |some - others| + |others|
  {
    SubsetSize(some, (some - others) + others);
  }

  /** A full batch leaves the cursor `limit` ids less, but for those that join. */
  lemma LeftShrinks(watched: seq<Id>, later: seq<Id>, limit: nat, cursor: Option<Id>)
    requires Ascending(watched) && limit > 0 && |BatchIds(watched, limit, cursor)| == limit
    ensures |Left(watched, cursor)| >= limit
    ensures |Left(later, Advance(watched, limit, cursor))| + limit <= |Left(watched, cursor)| + |Joined(watched, later)|
  {
    var batch := BatchIds(watched, limit, cursor);
    var last := batch[limit - 1];
    var left, joined := Left(later, Some(last)), Joined(watched, later);
    FullBatch(watched, limit, cursor, batch, last);
    LeftWithin(watched, later, cursor, last);
    DisjointSizes((set x | x in batch), left - joined, Left(watched, cursor));
    WithoutSize(left, joined);
  }

  // ---------- ticks ----------

  /** The watch set, in id order, and the cursor as a tick finds them. */
  datatype Tick = Tick(watched: seq<Id>, cursor: Option<Id>)

  function Batch(t: Tick, limit: nat): seq<Id> { BatchIds(t.watched, limit, t.cursor) }

  /** Each tick moves the cursor by its batch; any invoices may leave before the next one, or join after id. */
  ghost predicate TickAt(ticks: nat -> Tick, limit: nat, id: Id, n: nat) {
    && Ascending(ticks(n).watched)
    && ticks(n + 1).cursor == Advance(ticks(n).watched, limit, ticks(n).cursor)
    && NoneJoinsBefore(ticks(n).watched, ticks(n + 1).watched, id)
  }

  ghost predicate Ticks(ticks: nat -> Tick, limit: nat, id: Id) {
    limit > 0 && forall n: nat :: TickAt(ticks, limit, id, n)
  }

  predicate LoadedAt(ticks: nat -> Tick, limit: nat, id: Id, n: nat) { id in Batch(ticks(n), limit) }

  /** The tick finds fewer than `limit` ids beyond the cursor, and so resets it. */
  predicate ShortAt(ticks: nat -> Tick, limit: nat, n: nat) { |Batch(ticks(n), limit)| < limit }

  ghost predicate AlwaysWatched(ticks: nat -> Tick, id: Id) { forall n: nat :: id in ticks(n).watched }

  /** What m + 1 full batches hold. */
  function Room(limit: nat, m: nat): nat { if m == 0 then limit else Room(limit, m - 1) + limit }

  lemma {:induction false} RoomIsMultiple(limit: nat, m: nat)
    ensures Room(limit, m) == m * limit + limit
  {
    if m > 0 {
      RoomIsMultiple(limit, m - 1);
      assert m * limit == (m - 1) * limit + limit;
    }
  }

  lemma BelowNextMultiple(a: nat, limit: nat)
    requires limit > 0
    ensures a < Room(limit, a / limit)
  {
    DivisionFacts(a, limit);
    RoomIsMultiple(limit, a / limit);
  }

  /** With fewer ids ahead than m + 1 batches hold, within m further ticks id is loaded or no longer watched. */
  lemma {:induction false} LoadedAhead(ticks: nat -> Tick, limit: nat, id: Id, a: nat, m: nat, room: nat)
      returns (n: nat)
    requires Ticks(ticks, limit, id) && Beyond(ticks(a).cursor)(id)
    requires |Ahead(ticks(a).watched, ticks(a).cursor, id)| < room && room == Room(limit, m)
    ensures a <= n <= a + m && (LoadedAt(ticks, limit, id, n) || id !in ticks(n).watched)
    decreases m
  {
    n := a;
    if !LoadedAt(ticks, limit, id, a) && id in ticks(a).watched {
      assert TickAt(ticks, limit, id, a);
      AheadShrinks(ticks(a).watched, ticks(a + 1).watched, limit, ticks(a).cursor, id);
      if m > 0 {
        n := LoadedAhead(ticks, limit, id, a + 1, m - 1, room - limit);
      }
    }
  }

  /** An id beyond the cursor: the wait depends only on the ids before it, however many join after it. */
  lemma LoadedFrom(ticks: nat -> Tick, limit: nat, id: Id, a: nat) returns (n: nat)
    requires Ticks(ticks, limit, id) && Beyond(ticks(a).cursor)(id)
    ensures a <= n <= a + |Smaller(ticks(a).watched, id)| / limit
    ensures LoadedAt(ticks, limit, id, n) || id !in ticks(n).watched
  {
    var smaller := |Smaller(ticks(a).watched, id)|;
    SubsetSize(Ahead(ticks(a).watched, ticks(a).cursor, id), Smaller(ticks(a).watched, id));
    BelowNextMultiple(smaller, limit);
    n := LoadedAhead(ticks, limit, id, a, smaller / limit, Room(limit, smaller / limit));
  }

  /** An id behind the cursor: the same wait, counted from the tick that resets the cursor. */
  lemma LoadedAfterReset(ticks: nat -> Tick, limit: nat, id: Id, k: nat) returns (n: nat)
    requires Ticks(ticks, limit, id) && ShortAt(ticks, limit, k)
    ensures k < n <= k + 1 + |Smaller(ticks(k + 1).watched, id)| / limit
    ensures LoadedAt(ticks, limit, id, n) || id !in ticks(n).watched
  {
    assert TickAt(ticks, limit, id, k);
    n := LoadedFrom(ticks, limit, id, k + 1);
  }

  /** A full batch neither holds an id behind the cursor nor leaves one beyond the next. */
  lemma BehindStaysBehind(watched: seq<Id>, limit: nat, cursor: Option<Id>, id: Id)
    requires Ascending(watched) && limit > 0 && |BatchIds(watched, limit, cursor)| == limit && !Beyond(cursor)(id)
    ensures id !in BatchIds(watched, limit, cursor) && !Beyond(Advance(watched, limit, cursor))(id)
  {
    var batch := BatchIds(watched, limit, cursor);
    FullBatch(watched, limit, cursor, batch, batch[limit - 1]);
  }

  /** A full batch that holds an id leaves it behind the next cursor. */
  lemma LoadedFallsBehind(watched: seq<Id>, limit: nat, cursor: Option<Id>, id: Id)
    requires Ascending(watched) && limit > 0 && |BatchIds(watched, limit, cursor)| == limit
    requires id in BatchIds(watched, limit, cursor)
    ensures !Beyond(Advance(watched, limit, cursor))(id)
  {
    var batch := BatchIds(watched, limit, cursor);
    FullBatch(watched, limit, cursor, batch, batch[limit - 1]);
  }

  /** Until a tick resets the cursor, an id behind it is not loaded. */
  lemma {:induction false} StarvedUntilReset(ticks: nat -> Tick, limit: nat, id: Id, a: nat, n: nat)
    requires Ticks(ticks, limit, id) && a <= n && !Beyond(ticks(a).cursor)(id)
    requires forall k :: a <= k < n ==> !ShortAt(ticks, limit, k)
    ensures !Beyond(ticks(n).cursor)(id)
    ensures forall k :: a <= k < n ==> !LoadedAt(ticks, limit, id, k)
    decreases n
  {
    if a < n {
      StarvedUntilReset(ticks, limit, id, a, n - 1);
      assert TickAt(ticks, limit, id, n - 1) && !ShortAt(ticks, limit, n - 1);
      BehindStaysBehind(ticks(n - 1).watched, limit, ticks(n - 1).cursor, id);
    }
  }

  ghost predicate LoadedSince(ticks: nat -> Tick, limit: nat, id: Id, a: nat) {
    exists n :: n >= a && LoadedAt(ticks, limit, id, n)
  }

  ghost predicate ShortSince(ticks: nat -> Tick, limit: nat, a: nat) { exists k :: k >= a && ShortAt(ticks, limit, k) }

  lemma LoadedOnlyWhen(ticks: nat -> Tick, limit: nat, id: Id, a: nat)
    requires Ticks(ticks, limit, id) && !Beyond(ticks(a).cursor)(id) && LoadedSince(ticks, limit, id, a)
    ensures ShortSince(ticks, limit, a)
  {
    var n :| n >= a && LoadedAt(ticks, limit, id, n);
    if !ShortSince(ticks, limit, a) {
      assert forall k :: a <= k < n + 1 ==> !ShortAt(ticks, limit, k);
      StarvedUntilReset(ticks, limit, id, a, n + 1);
    }
  }

  /**
   * An invoice that stays watched is loaded, from some tick on, exactly if it is beyond the cursor then, or some tick
   * from then on finds fewer than `limit` ids beyond the cursor.
   */
  lemma LoadedExactlyWhen(ticks: nat -> Tick, limit: nat, id: Id, a: nat)
    requires Ticks(ticks, limit, id) && AlwaysWatched(ticks, id)
    ensures LoadedSince(ticks, limit, id, a) <==> Beyond(ticks(a).cursor)(id) || ShortSince(ticks, limit, a)
  {
    if Beyond(ticks(a).cursor)(id) {
      var n := LoadedFrom(ticks, limit, id, a);
      assert LoadedAt(ticks, limit, id, n);
    } else if ShortSince(ticks, limit, a) {
      var k :| k >= a && ShortAt(ticks, limit, k);
      var n := LoadedAfterReset(ticks, limit, id, k);
      assert LoadedAt(ticks, limit, id, n);
    } else if LoadedSince(ticks, limit, id, a) {
      LoadedOnlyWhen(ticks, limit, id, a);
    }
  }

  /** It is loaded again and again exactly if the cursor is reset again and again. */
  lemma LoadedForeverExactlyWhen(ticks: nat -> Tick, limit: nat, id: Id)
    requires Ticks(ticks, limit, id) && AlwaysWatched(ticks, id)
    ensures (forall a: nat :: LoadedSince(ticks, limit, id, a)) <==> (forall a: nat :: ShortSince(ticks, limit, a))
  {
    if forall a: nat :: LoadedSince(ticks, limit, id, a) {
      forall a: nat ensures ShortSince(ticks, limit, a) {
        ResetAfterLoad(ticks, limit, id, a);
      }
    }
    if forall a: nat :: ShortSince(ticks, limit, a) {
      forall a: nat ensures LoadedSince(ticks, limit, id, a) {
        assert ShortSince(ticks, limit, a);
        LoadedExactlyWhen(ticks, limit, id, a);
      }
    }
  }

  lemma ResetAfterLoad(ticks: nat -> Tick, limit: nat, id: Id, a: nat)
    requires Ticks(ticks, limit, id) && forall b: nat :: LoadedSince(ticks, limit, id, b)
    ensures ShortSince(ticks, limit, a)
  {
    assert LoadedSince(ticks, limit, id, a);
    var n :| n >= a && LoadedAt(ticks, limit, id, n);
    if !ShortAt(ticks, limit, n) {
      assert TickAt(ticks, limit, id, n);
      LoadedFallsBehind(ticks(n).watched, limit, ticks(n).cursor, id);
      assert LoadedSince(ticks, limit, id, n + 1);
      LoadedOnlyWhen(ticks, limit, id, n + 1);
    }
  }

  // ---------- when few join ----------

  ghost predicate FewJoin(ticks: nat -> Tick, joins: nat) {
    forall n: nat :: JoinAt(ticks, joins, n)
  }

  predicate JoinAt(ticks: nat -> Tick, joins: nat, n: nat) { |Joined(ticks(n).watched, ticks(n + 1).watched)| <= joins }

  /** With fewer than `limit` invoices joining per tick the cursor is reset, after what it has left is used up. */
  lemma {:induction false} ResetWithin(ticks: nat -> Tick, limit: nat, id: Id, a: nat, joins: nat, m: nat, room: nat)
      returns (k: nat)
    requires Ticks(ticks, limit, id) && FewJoin(ticks, joins) && joins < limit
    requires |Left(ticks(a).watched, ticks(a).cursor)| < room && room == Room(limit - joins, m) + joins
    ensures a <= k <= a + m && ShortAt(ticks, limit, k)
    decreases m
  {
    k := a;
    if !ShortAt(ticks, limit, a) {
      assert TickAt(ticks, limit, id, a) && JoinAt(ticks, joins, a);
      LeftShrinks(ticks(a).watched, ticks(a + 1).watched, limit, ticks(a).cursor);
      if m > 0 {
        k := ResetWithin(ticks, limit, id, a + 1, joins, m - 1, room - (limit - joins));
      }
    }
  }

  lemma {:induction false} SmallerShrinks(ticks: nat -> Tick, limit: nat, id: Id, a: nat, n: nat)
    requires Ticks(ticks, limit, id) && a <= n
    ensures Smaller(ticks(n).watched, id) <= Smaller(ticks(a).watched, id)
    decreases n
  {
    if a < n {
      SmallerShrinks(ticks, limit, id, a, n - 1);
      assert TickAt(ticks, limit, id, n - 1);
    }
  }

  /**
   * With fewer than `limit` invoices joining per tick, all after id, an invoice that stays watched is loaded from any
   * cursor: once the cursor has used up what it has left and then come to id.
   */
  lemma LoadedWhileFewJoin(ticks: nat -> Tick, limit: nat, id: Id, a: nat, joins: nat, left: nat, smaller: nat)
      returns (n: nat)
    requires Ticks(ticks, limit, id) && AlwaysWatched(ticks, id) && FewJoin(ticks, joins) && joins < limit
    requires left == |Left(ticks(a).watched, ticks(a).cursor)| && smaller == |Smaller(ticks(a).watched, id)|
    ensures a <= n && LoadedAt(ticks, limit, id, n)
    ensures n <= a + (if Beyond(ticks(a).cursor)(id) then 0 else left / (limit - joins) + 1) + smaller / limit
  {
    if Beyond(ticks(a).cursor)(id) {
      n := LoadedFrom(ticks, limit, id, a);
    } else {
      BelowNextMultiple(left, limit - joins);
      var k := ResetWithin(ticks, limit, id, a, joins, left / (limit - joins),
        Room(limit - joins, left / (limit - joins)) + joins);
      n := LoadedAfterReset(ticks, limit, id, k);
      SmallerShrinks(ticks, limit, id, a, k + 1);
      SubsetSize(Smaller(ticks(k + 1).watched, id), Smaller(ticks(a).watched, id));
      QuotientOrder(|Smaller(ticks(k + 1).watched, id)|, smaller, limit);
    }
  }

  lemma QuotientOrder(a: nat, b: nat, limit: nat)
    requires limit > 0 && a <= b
    ensures a / limit <= b / limit
  {
    QuotientsAdd(a, 0, b, limit);
  }

  /** How the ids before a given one and those left to the cursor share the watch set. */
  lemma SharesOfWatched(watched: seq<Id>, cursor: Option<Id>, id: Id)
    requires Ascending(watched)
    ensures |Smaller(watched, id)| <= |watched|
    ensures Beyond(cursor)(id) ==> |Ahead(watched, cursor, id)| <= |Smaller(watched, id)|
    ensures !Beyond(cursor)(id) ==> |Smaller(watched, id)| + |Left(watched, cursor)| <= |watched|
  {
    SizeOfSet(watched);
    SubsetSize(Smaller(watched, id), (set x | x in watched));
    if Beyond(cursor)(id) {
      SubsetSize(Ahead(watched, cursor, id), Smaller(watched, id));
    } else {
      DisjointSizes(Smaller(watched, id), Left(watched, cursor), (set x | x in watched));
    }
  }

  /** While invoices only leave, the wait is less than size/limit + 2 ticks, where size is that of the watch set. */
  lemma LoadedWhileOthersLeave(ticks: nat -> Tick, limit: nat, id: Id, a: nat) returns (n: nat)
    requires Ticks(ticks, limit, id) && AlwaysWatched(ticks, id) && FewJoin(ticks, 0)
    ensures a <= n < a + |ticks(a).watched| / limit + 2 && LoadedAt(ticks, limit, id, n)
  {
    var watched, cursor := ticks(a).watched, ticks(a).cursor;
    assert TickAt(ticks, limit, id, a);
    var left, smaller := |Left(watched, cursor)|, |Smaller(watched, id)|;
    SharesOfWatched(watched, cursor, id);
    if Beyond(cursor)(id) {
      QuotientOrder(smaller, |watched|, limit);
    } else {
      QuotientsAdd(smaller, left, |watched|, limit);
    }
    n := LoadedWhileFewJoin(ticks, limit, id, a, 0, left, smaller);
  }

  // ---------- creates can starve ----------

  /** The ids below n, in order. */
  function IdsBelow(n: nat): (ids: seq<Id>)
    ensures |ids| == n && forall i :: 0 <= i < n ==> ids[i] == i
    ensures forall x :: x in ids <==> 0 <= x < n
  {
    if n == 0 then [] else IdsBelow(n - 1) + [n - 1]
  }

  /** Ticks that each find `limit` invoices created since the last one. */
  function BusyTick(limit: nat, n: nat): Tick { Tick(IdsBelow(n * limit + limit + 1), Some(n * limit)) }

  function BusyTicks(limit: nat): nat -> Tick { (n: nat) => BusyTick(limit, n) }

  lemma BusyBatch(limit: nat, n: nat)
    requires limit > 0
    ensures Position(BusyTick(limit, n).watched, BusyTick(limit, n).cursor) == n * limit + 1
    ensures |Batch(BusyTick(limit, n), limit)| == limit
    ensures Advance(BusyTick(limit, n).watched, limit, BusyTick(limit, n).cursor) == BusyTick(limit, n + 1).cursor
  {
    var watched := IdsBelow(n * limit + limit + 1);
    assert watched[n * limit] == n * limit;
    PositionOfLast(watched, n * limit);
    assert (n + 1) * limit == n * limit + limit;
  }

  /**
   * With as many creates per tick as a tick loads, the cursor need never be reset: whatever the limit, there are such
   * ticks in which an invoice is watched throughout and never loaded.
   */
  lemma CreatesCanStarve(limit: nat) returns (ticks: nat -> Tick)
    requires limit > 0
    ensures Ticks(ticks, limit, 0) && AlwaysWatched(ticks, 0) && FewJoin(ticks, limit)
    ensures !LoadedSince(ticks, limit, 0, 0)
  {
    ticks := BusyTicks(limit);
    forall n: nat ensures TickAt(ticks, limit, 0, n) && JoinAt(ticks, limit, n) {
      BusyTickFacts(limit, n);
    }
    forall n: nat ensures 0 in ticks(n).watched {
      BusyTickFacts(limit, n);
    }
    BusyNeverShort(limit);
  }

  lemma BusyNeverShort(limit: nat)
    requires Ticks(BusyTicks(limit), limit, 0)
    ensures !LoadedSince(BusyTicks(limit), limit, 0, 0)
  {
    forall k: nat ensures !ShortAt(BusyTicks(limit), limit, k) {
      BusyTickFacts(limit, k);
    }
    assert BusyTicks(limit)(0).cursor == Some(0);
    if LoadedSince(BusyTicks(limit), limit, 0, 0) {
      LoadedOnlyWhen(BusyTicks(limit), limit, 0, 0);
    }
  }

  lemma BusyTickFacts(limit: nat, n: nat)
    requires limit > 0
    ensures TickAt(BusyTicks(limit), limit, 0, n) && JoinAt(BusyTicks(limit), limit, n)
    ensures 0 in BusyTicks(limit)(n).watched && !ShortAt(BusyTicks(limit), limit, n)
  {
    BusyBatch(limit, n);
    BusyJoins(limit, n);
    assert BusyTick(limit, n).watched[0] == 0;
  }

  lemma BusyJoins(limit: nat, n: nat)
    requires limit > 0
    ensures NoneJoinsBefore(BusyTick(limit, n).watched, BusyTick(limit, n + 1).watched, 0)
    ensures |Joined(BusyTick(limit, n).watched, BusyTick(limit, n + 1).watched)| <= limit
  {
    var a, b := BusyTick(limit, n).watched, BusyTick(limit, n + 1).watched;
    assert (n + 1) * limit == n * limit + limit;
    var tail := b[|a|..];
    SizeOfSet(tail);
    forall x | x in Joined(a, b) ensures x in tail {
      var i :| 0 <= i < |b| && b[i] == x;
      assert x == i && i >= |a|;
      assert tail[i - |a|] == x;
    }
    SubsetSize(Joined(a, b), (set x | x in tail));
  }

  // ---------- overdue invoices become final ----------

  /**
   * One tick: the documents and the cursor when it starts, the node's answer if it gives one, the tick's time, and the
   * documents it leaves.
   */
  datatype Round = Round(docs: Docs, cursor: Option<Id>, answer: Option<seq<Utxo>>, now: Time, after: Docs)

  /** The round's tick comes after the invoice's expiry and does what a tick does: nothing, if the node fails. */
  ghost predicate Does(r: Round, limit: nat, dust: int, id: Id) {
    && AllConsistent(r.docs) && id in r.docs && r.docs[id].sweptAt.None? && r.now >= r.docs[id].terms.expiresAt
    && match r.answer
       case None => r.after == r.docs
       case Some(raw) =>
         && DistinctOutpoints(raw)
         && var batch := LoadBatch(r.docs, limit, r.cursor);
            r.after == Applied(r.docs, batch, |batch|, raw, Watcher.Judge(dust, r.now), r.now)
  }

  /** Between ticks other invoices may change, leave the watch set, or be created after this one. */
  ghost predicate Precedes(r: Round, next: Round, limit: nat, id: Id) {
    && NoneJoinsBefore(WatchIds(r.after), WatchIds(next.docs), id)
    && id in r.after && id in next.docs && next.docs[id] == r.after[id]
    && next.cursor == Advance(WatchIds(r.docs), limit, r.cursor)
  }

  ghost predicate RoundAt(rounds: nat -> Round, limit: nat, dust: int, id: Id, n: nat) {
    Does(rounds(n), limit, dust, id) && Precedes(rounds(n), rounds(n + 1), limit, id)
  }

  ghost predicate Rounds(rounds: nat -> Round, limit: nat, dust: int, id: Id) {
    limit > 0 && forall n: nat :: RoundAt(rounds, limit, dust, id, n)
  }

  ghost predicate IsPending(docs: Docs, id: Id) { id in docs && docs[id].state == Detected }

  ghost predicate IsFinal(docs: Docs, id: Id) { id in docs && docs[id].state in {Settled, Overpaid, Underpaid} }

  /** The invoice is DETECTED, and some timely output stored for it does not qualify. */
  ghost predicate IsWaiting(docs: Docs, id: Id) { IsPending(docs, id) && Unqualified(docs[id].txids, docs[id].terms) }

  predicate Holds(r: Round, limit: nat, id: Id) { id in BatchIds(WatchIds(r.docs), limit, r.cursor) }

  /** The tick loads the invoice, hears from the node, and leaves it final or waiting. */
  ghost predicate Judged(r: Round, limit: nat, id: Id) {
    Holds(r, limit, id) && r.answer.Some? && (IsFinal(r.after, id) || IsWaiting(r.after, id))
  }

  /** The tick loads the invoice, but the node fails. */
  predicate Missed(r: Round, limit: nat, id: Id) { Holds(r, limit, id) && r.answer.None? }

  /** Writing back a batch adds nothing to the watch set. */
  lemma WriteBackShrinks(docs: Docs, after: Docs, batch: seq<Invoice>, raw: seq<Utxo>, judge: Judgement, now: Time)
    requires Snapshot(docs, batch) && WrittenBack(docs, after, batch, |batch|, raw, judge, now)
    ensures forall x :: x in WatchIds(after) ==> x in WatchIds(docs)
  {
    forall x | x in WatchIds(after) ensures x in WatchIds(docs) {
      if Among(batch, |batch|, x) {
        var i :| 0 <= i < |batch| && batch[i].id == x;
        assert docs[x] == batch[i];
      }
    }
  }

  lemma RoundWrites(r: Round, limit: nat, dust: int, id: Id, raw: seq<Utxo>, batch: seq<Invoice>)
    requires Does(r, limit, dust, id) && r.answer == Some(raw) && batch == LoadBatch(r.docs, limit, r.cursor)
    ensures Snapshot(r.docs, batch) && Judges(Watcher.Judge(dust, r.now), dust, r.now)
    ensures WrittenBack(r.docs, r.after, batch, |batch|, raw, Watcher.Judge(dust, r.now), r.now)
  {
    JudgeJudges(dust, r.now);
    LoadedIsSnapshot(r.docs, limit, r.cursor);
    UnpreemptedTickWritesAll(r.docs, batch, raw, dust, r.now, Watcher.Judge(dust, r.now));
  }

  /** A tick adds nothing to the watch set. */
  lemma RoundShrinks(r: Round, limit: nat, dust: int, id: Id)
    requires Does(r, limit, dust, id)
    ensures forall x :: x in WatchIds(r.after) ==> x in WatchIds(r.docs)
  {
    if r.answer.Some? {
      var batch := LoadBatch(r.docs, limit, r.cursor);
      RoundWrites(r, limit, dust, id, r.answer.value, batch);
      WriteBackShrinks(r.docs, r.after, batch, r.answer.value, Watcher.Judge(dust, r.now), r.now);
    }
  }

  lemma IdsOfBatch(docs: Docs, limit: nat, cursor: Option<Id>, batch: seq<Invoice>, id: Id)
    requires KeyedById(docs) && limit > 0 && batch == LoadBatch(docs, limit, cursor)
    ensures Among(batch, |batch|, id) <==> id in BatchIds(WatchIds(docs), limit, cursor)
  {
    BatchRotates(docs, limit, cursor);
    var ids := IdsOf(batch);
    assert forall i :: 0 <= i < |batch| ==> ids[i] == batch[i].id;
    if id in ids {
      var i :| 0 <= i < |ids| && ids[i] == id;
      assert batch[i].id == id;
    }
    if Among(batch, |batch|, id) {
      var i :| 0 <= i < |batch| && batch[i].id == id;
      assert ids[i] == id;
    }
  }

  /** A tick does nothing to an invoice it does not load, or if the node fails. */
  lemma RoundPasses(r: Round, limit: nat, dust: int, id: Id)
    requires Does(r, limit, dust, id) && limit > 0 && (!Holds(r, limit, id) || r.answer.None?)
    ensures id in r.after && r.after[id] == r.docs[id]
  {
    if r.answer.Some? {
      var batch := LoadBatch(r.docs, limit, r.cursor);
      RoundWrites(r, limit, dust, id, r.answer.value, batch);
      IdsOfBatch(r.docs, limit, r.cursor, batch, id);
    }
  }

  /** An overdue DETECTED invoice that an answered tick loads becomes final or is left waiting. */
  lemma RoundLoads(r: Round, limit: nat, dust: int, id: Id)
    requires Does(r, limit, dust, id) && limit > 0 && Holds(r, limit, id) && r.answer.Some? && IsPending(r.docs, id)
    ensures Judged(r, limit, id)
  {
    var batch := LoadBatch(r.docs, limit, r.cursor);
    RoundWrites(r, limit, dust, id, r.answer.value, batch);
    IdsOfBatch(r.docs, limit, r.cursor, batch, id);
    var i :| 0 <= i < |batch| && batch[i].id == id;
    OverdueProgresses(r.docs, batch, i, r.answer.value, dust, r.now, Watcher.Judge(dust, r.now));
  }

  /** What the rotation sees of a round. */
  function Found(r: Round): Tick { Tick(WatchIds(r.docs), r.cursor) }

  function AllFound(rounds: nat -> Round): nat -> Tick { (n: nat) => Found(rounds(n)) }

  lemma RoundIsTick(r: Round, next: Round, limit: nat, dust: int, id: Id)
    requires Does(r, limit, dust, id) && Precedes(r, next, limit, id)
    ensures Ascending(Found(r).watched) && Found(next).cursor == Advance(Found(r).watched, limit, Found(r).cursor)
    ensures NoneJoinsBefore(Found(r).watched, Found(next).watched, id)
  {
    RoundShrinks(r, limit, dust, id);
  }

  lemma RoundsAreTicks(rounds: nat -> Round, limit: nat, dust: int, id: Id)
    requires Rounds(rounds, limit, dust, id)
    ensures Ticks(AllFound(rounds), limit, id)
  {
    forall n: nat ensures TickAt(AllFound(rounds), limit, id, n) {
      assert RoundAt(rounds, limit, dust, id, n);
      RoundIsTick(rounds(n), rounds(n + 1), limit, dust, id);
    }
  }

  predicate PassedAt(rounds: nat -> Round, limit: nat, id: Id, n: nat) {
    !Holds(rounds(n), limit, id) || rounds(n).answer.None?
  }

  /** The document after a tick that passes it, as the next tick finds it. */
  lemma PassedRound(rounds: nat -> Round, limit: nat, dust: int, id: Id, n: nat)
    requires Rounds(rounds, limit, dust, id) && PassedAt(rounds, limit, id, n)
    ensures id in rounds(n).docs && id in rounds(n + 1).docs && rounds(n + 1).docs[id] == rounds(n).docs[id]
  {
    assert RoundAt(rounds, limit, dust, id, n);
    RoundPasses(rounds(n), limit, dust, id);
  }

  lemma {:induction false} SameThroughout<T>(at: nat -> T, kept: nat -> bool, a: nat, n: nat)
    requires a <= n && forall k: nat :: kept(k) ==> at(k + 1) == at(k)
    requires forall k: nat :: a <= k < n ==> kept(k)
    ensures at(n) == at(a)
    decreases n
  {
    if a < n {
      SameThroughout(at, kept, a, n - 1);
    }
  }

  /** While no tick both loads the invoice and hears from the node, its document stays as it is. */
  lemma OverdueUntouched(rounds: nat -> Round, limit: nat, dust: int, id: Id, a: nat, n: nat)
    requires Rounds(rounds, limit, dust, id) && a <= n && forall k :: a <= k < n ==> PassedAt(rounds, limit, id, k)
    ensures StoredAt(rounds, id)(n) == StoredAt(rounds, id)(a)
  {
    var kept := (k: nat) => PassedAt(rounds, limit, id, k);
    forall k: nat | kept(k) ensures StoredAt(rounds, id)(k + 1) == StoredAt(rounds, id)(k) {
      PassedRound(rounds, limit, dust, id, k);
    }
    SameThroughout(StoredAt(rounds, id), kept, a, n);
  }

  /** What each tick finds stored under id. */
  function StoredAt(rounds: nat -> Round, id: Id): nat -> Option<Invoice> {
    (n: nat) => if id in rounds(n).docs then Some(rounds(n).docs[id]) else None
  }

  lemma PendingIsFound(rounds: nat -> Round, limit: nat, dust: int, id: Id, n: nat)
    requires Rounds(rounds, limit, dust, id) && IsPending(rounds(n).docs, id)
    ensures id in AllFound(rounds)(n).watched
  {
    assert RoundAt(rounds, limit, dust, id, n);
  }

  lemma HeldIsJudged(rounds: nat -> Round, limit: nat, dust: int, id: Id, n: nat)
    requires Rounds(rounds, limit, dust, id) && IsPending(rounds(n).docs, id) && Holds(rounds(n), limit, id)
    ensures Judged(rounds(n), limit, id) || Missed(rounds(n), limit, id)
  {
    assert RoundAt(rounds, limit, dust, id, n);
    if rounds(n).answer.Some? {
      RoundLoads(rounds(n), limit, dust, id);
    }
  }

  lemma {:induction false} FirstServed(pending: nat -> bool, held: nat -> bool, a: nat, n: nat) returns (first: nat)
    requires a <= n && pending(a) && (held(n) || !pending(n))
    requires forall k: nat :: pending(k) && !held(k) ==> pending(k + 1)
    ensures a <= first <= n && pending(first) && held(first)
    decreases n - a
  {
    first := a;
    if !held(a) {
      first := FirstServed(pending, held, a + 1, n);
    }
  }

  /** If a tick up to n loads the invoice or finds it gone, the first to load it judges it, or is not answered. */
  lemma ServedIsJudged(rounds: nat -> Round, limit: nat, dust: int, id: Id, a: nat, n: nat) returns (first: nat)
    requires Rounds(rounds, limit, dust, id) && IsPending(rounds(a).docs, id) && a <= n
    requires LoadedAt(AllFound(rounds), limit, id, n) || id !in AllFound(rounds)(n).watched
    ensures a <= first <= n && (Judged(rounds(first), limit, id) || Missed(rounds(first), limit, id))
  {
    var pending, held := (k: nat) => IsPending(rounds(k).docs, id), (k: nat) => Holds(rounds(k), limit, id);
    forall k: nat | pending(k) && !held(k) ensures pending(k + 1) {
      PassedRound(rounds, limit, dust, id, k);
    }
    if pending(n) {
      PendingIsFound(rounds, limit, dust, id, n);
    }
    first := FirstServed(pending, held, a, n);
    HeldIsJudged(rounds, limit, dust, id, first);
  }

  /**
   * An overdue DETECTED invoice beyond the cursor: however many are created after it, and whatever else changes, one of
   * the next size/limit + 1 ticks loads it, where size counts the watched ids before it. That tick leaves it final or
   * waiting, unless the node fails.
   */
  lemma OverdueBecomesFinal(rounds: nat -> Round, limit: nat, dust: int, id: Id, a: nat) returns (n: nat)
    requires Rounds(rounds, limit, dust, id) && IsPending(rounds(a).docs, id) && Beyond(rounds(a).cursor)(id)
    ensures a <= n <= a + |Smaller(WatchIds(rounds(a).docs), id)| / limit
    ensures Judged(rounds(n), limit, id) || Missed(rounds(n), limit, id)
  {
    RoundsAreTicks(rounds, limit, dust, id);
    var last := LoadedFrom(AllFound(rounds), limit, id, a);
    n := ServedIsJudged(rounds, limit, dust, id, a, last);
  }

  /** Behind the cursor the same holds, counted from any tick that resets the cursor. */
  lemma OverdueAfterReset(rounds: nat -> Round, limit: nat, dust: int, id: Id, a: nat, k: nat) returns (n: nat)
    requires Rounds(rounds, limit, dust, id) && IsPending(rounds(a).docs, id)
    requires a <= k && ShortAt(AllFound(rounds), limit, k)
    ensures a <= n <= k + 1 + |Smaller(WatchIds(rounds(k + 1).docs), id)| / limit
    ensures Judged(rounds(n), limit, id) || Missed(rounds(n), limit, id)
  {
    RoundsAreTicks(rounds, limit, dust, id);
    var last := LoadedAfterReset(AllFound(rounds), limit, id, k);
    n := ServedIsJudged(rounds, limit, dust, id, a, last);
  }

  ghost predicate JudgedSince(rounds: nat -> Round, limit: nat, id: Id, a: nat) {
    exists n :: n >= a && Judged(rounds(n), limit, id)
  }

  ghost predicate AlwaysAnswered(rounds: nat -> Round) { forall n: nat :: rounds(n).answer.Some? }

  /**
   * With a node that answers, an overdue DETECTED invoice becomes final, or is left waiting by a tick that judged it,
   * exactly if it is beyond the cursor or some tick finds fewer than `limit` ids beyond the cursor.
   */
  lemma OverdueJudgedExactlyWhen(rounds: nat -> Round, limit: nat, dust: int, id: Id, a: nat)
    requires Rounds(rounds, limit, dust, id) && IsPending(rounds(a).docs, id) && AlwaysAnswered(rounds)
    ensures JudgedSince(rounds, limit, id, a)
        <==> Beyond(rounds(a).cursor)(id) || ShortSince(AllFound(rounds), limit, a)
  {
    if Beyond(rounds(a).cursor)(id) {
      var n := OverdueBecomesFinal(rounds, limit, dust, id, a);
      assert Judged(rounds(n), limit, id);
    } else if ShortSince(AllFound(rounds), limit, a) {
      var k :| k >= a && ShortAt(AllFound(rounds), limit, k);
      var n := OverdueAfterReset(rounds, limit, dust, id, a, k);
      assert Judged(rounds(n), limit, id);
    } else if JudgedSince(rounds, limit, id, a) {
      var n :| n >= a && Judged(rounds(n), limit, id);
      assert LoadedAt(AllFound(rounds), limit, id, n);
      RoundsAreTicks(rounds, limit, dust, id);
      LoadedOnlyWhen(AllFound(rounds), limit, id, a);
    }
  }
}
