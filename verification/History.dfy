/**
 * One watcher, a clock that does not run backwards, a chain on which outpoints keep their amount and
 * address, and cancels at any moment: under these the recorded history of an invoice only grows.
 */
module History {
  import opened Base
  import opened Amounts
  import opened Settlement
  import opened SettlementLaws
  import opened Invoices
  import opened Protocol

  /** What the chain fixes about every outpoint. */
  datatype Chain = Chain(amountOf: Outpoint -> nat, addressOf: Outpoint -> Address)

  function Amount(chain: Chain): Outpoint -> int { (k: Outpoint) => chain.amountOf(k) as int }

  /** The node's answer for one address, in agreement with the chain. */
  ghost predicate Truthful(chain: Chain, address: Address, utxos: seq<Utxo>) {
    forall u :: u in utxos ==>
      ToDuffs(u.amount) == chain.amountOf(u.key) && u.address == Some(address) && chain.addressOf(u.key) == address
  }

  /** The side conditions: one task per invoice at a time, time moves on, addresses are unique. */
  ghost predicate Orderly(chain: Chain, s: System, a: Action)
    requires Enabled(s, a)
  {
    match a
    case Create(inv) => forall id :: id in s.docs ==> s.docs[id].address != inv.address
    case Load(_, id) => forall task :: task in s.pending ==> s.pending[task].snap.id != id
    case Judge(task, utxos, _, now) => now >= s.clock && Truthful(chain, s.pending[task].snap.address, utxos)
    case Persist(_) => true
    case Cancel(_, _) => true
    case Drop(_) => true
  }

  ghost predicate OrderlyAt(chain: Chain, trace: seq<System>, acts: seq<Action>, i: nat)
    requires i < |acts| && |trace| == |acts| + 1
  {
    Taken(trace, acts, i) && Orderly(chain, trace[i], acts[i])
  }

  ghost predicate OrderlyRun(chain: Chain, trace: seq<System>, acts: seq<Action>) {
    && Run(trace, acts)
    && forall i :: 0 <= i < |acts| ==> OrderlyAt(chain, trace, acts, i)
  }

  // ---------- sums over sets of outpoints ----------

  ghost function SumOver(keys: set<Outpoint>, f: Outpoint -> int): int {
    if keys == {} then 0
    else
      var k :| k in keys;
      f(k) + SumOver(keys - {k}, f)
  }

  lemma {:induction false} SumOverTakesOut(keys: set<Outpoint>, f: Outpoint -> int, k: Outpoint)
    requires k in keys
    ensures SumOver(keys, f) == f(k) + SumOver(keys - {k}, f)
    decreases |keys|
  {
    var x :| x in keys && SumOver(keys, f) == f(x) + SumOver(keys - {x}, f);
    if x != k {
      SumOverTakesOut(keys - {x}, f, k);
      SumOverTakesOut(keys - {k}, f, x);
      assert keys - {x} - {k} == keys - {k} - {x};
    }
  }

  lemma {:induction false} SumOverUnion(a: set<Outpoint>, b: set<Outpoint>, f: Outpoint -> int)
    requires a !! b
    ensures SumOver(a + b, f) == SumOver(a, f) + SumOver(b, f)
    decreases |a|
  {
    if a == {} {
      assert a + b == b;
    } else {
      var k :| k in a;
      SumOverTakesOut(a, f, k);
      SumOverTakesOut(a + b, f, k);
      assert a + b - {k} == (a - {k}) + b;
      SumOverUnion(a - {k}, b, f);
    }
  }

  lemma {:induction false} SumOverNonNegative(keys: set<Outpoint>, f: Outpoint -> int)
    requires forall k :: k in keys ==> f(k) >= 0
    ensures SumOver(keys, f) >= 0
    decreases |keys|
  {
    if keys != {} {
      var k :| k in keys;
      SumOverTakesOut(keys, f, k);
      SumOverNonNegative(keys - {k}, f);
    }
  }

  lemma SumOverSubset(a: set<Outpoint>, b: set<Outpoint>, chain: Chain)
    requires a <= b
    ensures SumOver(a, Amount(chain)) <= SumOver(b, Amount(chain))
  {
    assert b == a + (b - a);
    SumOverUnion(a, b - a, Amount(chain));
    SumOverNonNegative(b - a, Amount(chain));
  }

  ghost predicate AmountsMatch(chain: Chain, rows: seq<Output>) {
    forall o :: o in rows ==> o.duffs == chain.amountOf(o.key)
  }

  /** The total over rows with distinct keys is the sum over their set of outpoints. */
  lemma {:induction false} TotalIsSumOverKeys(chain: Chain, rows: seq<Output>)
    requires DistinctKeys(rows) && AmountsMatch(chain, rows)
    ensures Total(rows) == SumOver(Keys(rows), Amount(chain))
  {
    if rows != [] {
      var rest := rows[1..];
      assert rows == [rows[0]] + rest;
      KeysOfConcat([rows[0]], rest);
      assert Keys([rows[0]]) == {rows[0].key};
      assert DistinctKeys(rest) && AmountsMatch(chain, rest);
      TotalIsSumOverKeys(chain, rest);
      assert rows[0].key !in Keys(rest) by {
        assert forall o :: o in rest ==> exists j :: 0 <= j < |rest| && rest[j] == o;
      }
      SumOverTakesOut(Keys(rows), Amount(chain), rows[0].key);
      assert Keys(rows) - {rows[0].key} == Keys(rest);
    }
  }

  // ---------- one document ----------

  /** Every recorded output agrees with the chain, belongs to this invoice, and was seen by `clock`. */
  ghost predicate RowsRecorded(chain: Chain, address: Address, rows: seq<Output>, clock: Time) {
    forall o :: o in rows ==>
      o.duffs == chain.amountOf(o.key) && chain.addressOf(o.key) == address && o.detectedAt <= clock
  }

  ghost predicate AllLate(rows: seq<Output>, at: Time) { forall o :: o in rows ==> o.detectedAt >= at }

  /** Some output came too late, or to a canceled invoice at all. */
  ghost predicate HasLate(state: InvoiceState, rows: seq<Output>, at: Time) {
    exists o :: o in rows && (state == Canceled || o.detectedAt >= at)
  }

  ghost predicate Recorded(chain: Chain, d: Invoice, clock: Time) {
    && RowsRecorded(chain, d.address, d.txids, clock)
    && (d.state == Expired ==> d.terms.expiresAt <= clock && AllLate(d.txids, d.terms.expiresAt))
    && (d.latePayment <==> HasLate(d.state, d.txids, d.terms.expiresAt))
  }

  /** The row for o's outpoint has o's first-seen time and amount. */
  predicate HasRow(rows: seq<Output>, o: Output) {
    var i := IndexOf(rows, o.key);
    i < |rows| && rows[i].detectedAt == o.detectedAt && rows[i].duffs == o.duffs
  }

  /** Every recorded output is still there, with its first-seen time and its amount. */
  ghost predicate RowsKept(a: seq<Output>, b: seq<Output>) { forall o :: o in a ==> HasRow(b, o) }

  lemma RowOf(rows: seq<Output>, o: Output) returns (p: Output)
    requires HasRow(rows, o)
    ensures p in rows && p.key == o.key && p.detectedAt == o.detectedAt && p.duffs == o.duffs
  {
    p := rows[IndexOf(rows, o.key)];
  }

  /** Every row carries the present time or that of an old row. */
  ghost predicate AddedNow(a: seq<Output>, b: seq<Output>, now: Time) {
    forall m :: m in b ==> m.detectedAt == now || exists o :: o in a && o.detectedAt == m.detectedAt
  }

  /** b is what a becomes by a merge at time `now`. */
  ghost predicate Extends(chain: Chain, address: Address, a: seq<Output>, b: seq<Output>, now: Time) {
    && DistinctKeys(b) && Keys(a) <= Keys(b)
    && RowsRecorded(chain, address, b, now)
    && RowsKept(a, b) && AddedNow(a, b, now)
  }

  /** What only grows from one version of a document to a later one. */
  ghost predicate Grows(a: Invoice, b: Invoice) {
    && RowsKept(a.txids, b.txids)
    && (a.firstSeenAt.Some? ==> b.firstSeenAt == a.firstSeenAt)
    && (a.latePayment ==> b.latePayment)
    && a.duffsReceived <= b.duffsReceived
  }

  /** A task's reading is up to date when it judges: nothing recorded is later than its clock. */
  ghost predicate Judged(chain: Chain, p: Pending) {
    && p.Decided?
    && DistinctOutpoints(p.utxos)
    && Truthful(chain, p.snap.address, p.utxos)
    && Recorded(chain, p.snap, p.now)
  }

  lemma ReportedRecorded(chain: Chain, address: Address, utxos: seq<Utxo>, dust: int, now: Time)
    requires Truthful(chain, address, utxos)
    ensures RowsRecorded(chain, address, Reported(utxos, dust, now), now)
  {
    var worth := Filter(utxos, Worth(dust));
    var r := Reported(utxos, dust, now);
    forall o | o in r
      ensures o.duffs == chain.amountOf(o.key) && chain.addressOf(o.key) == address && o.detectedAt <= now
    {
      var i :| 0 <= i < |r| && r[i] == o;
      assert worth[i] in worth && worth[i] in utxos;
    }
  }

  /** After a merge, rows agree with the chain and are either the old times or the present. */
  lemma MergedRows(chain: Chain, address: Address, existing: seq<Output>, reported: seq<Output>, now: Time)
    requires DistinctKeys(existing)
    requires RowsRecorded(chain, address, existing, now) && RowsRecorded(chain, address, reported, now)
    requires forall o :: o in reported ==> o.detectedAt == now
    ensures RowsRecorded(chain, address, Merge(existing, reported), now)
    ensures AddedNow(existing, Merge(existing, reported), now)
  {
    forall m | m in Merge(existing, reported)
      ensures m.duffs == chain.amountOf(m.key) && chain.addressOf(m.key) == address && m.detectedAt <= now
      ensures m.detectedAt == now || exists o :: o in existing && o.detectedAt == m.detectedAt
    {
      MergeOrigin(existing, reported, m);
      if m !in existing {
        var r :| r in reported && m == Refreshed(existing, r);
        var i := IndexOf(existing, r.key);
        if i < |existing| {
          assert existing[i] in existing;
        }
      }
    }
  }

  /** Recorded rows survive a merge with time and amount. */
  lemma MergedKeepsRows(chain: Chain, address: Address, existing: seq<Output>, reported: seq<Output>, now: Time)
    requires DistinctKeys(existing) && RowsRecorded(chain, address, existing, now)
    requires DistinctKeys(Merge(existing, reported)) && RowsRecorded(chain, address, Merge(existing, reported), now)
    ensures RowsKept(existing, Merge(existing, reported))
  {
    forall o | o in existing ensures HasRow(Merge(existing, reported), o) {
      var p := MergeRetains(existing, reported, o);
      RowAt(Merge(existing, reported), p);
    }
  }

  lemma RowAt(rows: seq<Output>, p: Output)
    requires DistinctKeys(rows) && p in rows
    ensures IndexOf(rows, p.key) < |rows| && rows[IndexOf(rows, p.key)] == p
  {
  }

  lemma FirstSeenPreIs(outputs: seq<Output>, at: Time, first: Output)
    requires first in outputs && first.detectedAt < at
    requires forall o :: o in outputs ==> first.detectedAt <= o.detectedAt
    ensures FirstSeen(Pre(outputs, at)) == Some(first.detectedAt)
  {
    assert SeenBefore(at)(first);
    var y := FirstSeenIsLeast(Pre(outputs, at));
  }

  lemma EarliestOf(outputs: seq<Output>, at: Time) returns (first: Output)
    requires Pre(outputs, at) != []
    ensures first in outputs && first.detectedAt < at
    ensures FirstSeen(Pre(outputs, at)) == Some(first.detectedAt)
    ensures forall o :: o in outputs ==> first.detectedAt <= o.detectedAt
  {
    first := FirstSeenIsLeast(Pre(outputs, at));
    assert SeenBefore(at)(first);
    forall o | o in outputs ensures first.detectedAt <= o.detectedAt {
      if o.detectedAt < at {
        assert SeenBefore(at)(o);
      }
    }
  }

  /** New outputs come no earlier than recorded ones, so the first timely output stays first. */
  lemma FirstSeenStays(a: seq<Output>, b: seq<Output>, at: Time, now: Time)
    requires Pre(a, at) != []
    requires forall o :: o in a ==> o.detectedAt <= now
    requires RowsKept(a, b) && AddedNow(a, b, now)
    ensures FirstSeen(Pre(b, at)) == FirstSeen(Pre(a, at))
  {
    var x := EarliestOf(a, at);
    var p := RowOf(b, x);
    FirstSeenPreIs(b, at, p);
  }

  // ---------- one tick on an up-to-date document ----------

  lemma LateExactly(outputs: seq<Output>, at: Time)
    ensures Late(outputs, at) != [] <==> exists o :: o in outputs && o.detectedAt >= at
  {
    var late := Late(outputs, at);
    if late != [] {
      assert late[0] in late && SeenFrom(at)(late[0]);
    } else {
      assert forall o :: o in outputs && SeenFrom(at)(o) ==> o in late;
    }
  }

  lemma LateFlagActive(now: Time, t: Terms, outputs: seq<Output>)
    requires var d := DecideActive(now, t, EvidenceOf(t, outputs), outputs); d.state == Open ==> outputs == []
    ensures var d := DecideActive(now, t, EvidenceOf(t, outputs), outputs);
      d.state != Canceled && (d.latePayment <==> Late(outputs, t.expiresAt) != [])
  {
  }

  /** The flag a decision writes says whether some output is late. */
  lemma LateFlag(prev: InvoiceState, now: Time, t: Terms, outputs: seq<Output>)
    requires prev in WATCH_STATES
    requires var d := Decide(prev, now, t, outputs, prev == Canceled); d.state == Open ==> outputs == []
    ensures var d := Decide(prev, now, t, outputs, prev == Canceled);
      && d.txids == outputs && d.duffsReceived == Total(outputs)
      && (d.latePayment <==> HasLate(d.state, outputs, t.expiresAt))
  {
    if prev == Canceled {
      assert outputs != [] ==> outputs[0] in outputs;
    } else {
      LateExactly(outputs, t.expiresAt);
      if Active(prev) {
        LateFlagActive(now, t, outputs);
        ActiveDecision(now, t, EvidenceOf(t, outputs), outputs);
      }
    }
  }

  /** What a tick evaluates extends what its snapshot recorded. */
  lemma EvaluatedExtends(chain: Chain, p: Pending)
    requires Judged(chain, p) && Consistent(p.snap)
    ensures Extends(chain, p.snap.address, p.snap.txids, Evaluated(p.snap, p.utxos, p.dust, p.now), p.now)
  {
    EvaluatedDistinct(p.snap, p.utxos, p.dust, p.now);
    ReportedFacts(p.utxos, p.dust, p.now);
    var reported := Reported(p.utxos, p.dust, p.now);
    ReportedRecorded(chain, p.snap.address, p.utxos, p.dust, p.now);
    MergedRows(chain, p.snap.address, p.snap.txids, reported, p.now);
    MergedKeepsRows(chain, p.snap.address, p.snap.txids, reported, p.now);
  }

  lemma ExtendsTotal(chain: Chain, address: Address, a: seq<Output>, b: seq<Output>, now: Time)
    requires DistinctKeys(a) && RowsRecorded(chain, address, a, now) && Extends(chain, address, a, b, now)
    ensures Total(a) <= Total(b)
  {
    TotalIsSumOverKeys(chain, a);
    TotalIsSumOverKeys(chain, b);
    SumOverSubset(Keys(a), Keys(b), chain);
  }

  lemma ExtendsLate(prev: InvoiceState, decided: InvoiceState, a: seq<Output>, b: seq<Output>, at: Time)
    requires RowsKept(a, b) && HasLate(prev, a, at) && (prev == Canceled ==> decided == Canceled)
    ensures HasLate(decided, b, at)
  {
    var o :| o in a && (prev == Canceled || o.detectedAt >= at);
    var p := RowOf(b, o);
  }

  lemma ExtendsAllLate(a: seq<Output>, b: seq<Output>, at: Time, now: Time)
    requires AddedNow(a, b, now) && AllLate(a, at) && now >= at
    ensures AllLate(b, at)
  {
  }

  /** Which first-seen time a decision writes, by the state it starts from. */
  lemma FirstSeenWritten(prev: InvoiceState, now: Time, t: Terms, outputs: seq<Output>)
    requires prev == Detected && Pre(outputs, t.expiresAt) != []
    ensures Decide(prev, now, t, outputs, false).firstSeenAt == FirstSeen(Pre(outputs, t.expiresAt))
  {
    ActiveDecision(now, t, EvidenceOf(t, outputs), outputs);
  }

  /** A snapshot and the decision its tick makes from the merged outputs. */
  ghost predicate TickOf(chain: Chain, snap: Invoice, outputs: seq<Output>, now: Time, d: Decision) {
    && snap.state in WATCH_STATES && Consistent(snap) && Recorded(chain, snap, now)
    && Extends(chain, snap.address, snap.txids, outputs, now)
    && d == Decide(snap.state, now, snap.terms, outputs, snap.state == Canceled)
    && Decidable(snap.state, snap.terms.expiresAt, now, d)
  }

  lemma TickRecorded(chain: Chain, snap: Invoice, outputs: seq<Output>, now: Time, d: Decision)
    requires TickOf(chain, snap, outputs, now, d)
    ensures Recorded(chain, Written(snap, d, now), now)
  {
    LateFlag(snap.state, now, snap.terms, outputs);
    if d.state == Expired {
      TickLate(chain, snap, outputs, now, d);
    }
  }

  /** What an EXPIRED decision is made from is all late. */
  lemma TickLate(chain: Chain, snap: Invoice, outputs: seq<Output>, now: Time, d: Decision)
    requires TickOf(chain, snap, outputs, now, d) && d.state == Expired
    ensures snap.terms.expiresAt <= now && AllLate(outputs, snap.terms.expiresAt)
  {
    ExtendsAllLate(snap.txids, outputs, snap.terms.expiresAt, now);
  }

  lemma DetectedKeepsFirstSeen(t: Terms, a: seq<Output>, outputs: seq<Output>, now: Time, first: Option<Time>)
    requires first == FirstSeen(Pre(a, t.expiresAt)) && first.Some?
    requires forall o :: o in a ==> o.detectedAt <= now
    requires RowsKept(a, outputs) && AddedNow(a, outputs, now)
    ensures Decide(Detected, now, t, outputs, false).firstSeenAt == first
  {
    FirstSeenStays(a, outputs, t.expiresAt, now);
    FirstSeenWritten(Detected, now, t, outputs);
  }

  lemma TickKeepsFirstSeen(snap: Invoice, outputs: seq<Output>, now: Time)
    requires snap.state in WATCH_STATES && Consistent(snap) && snap.firstSeenAt.Some?
    requires forall o :: o in snap.txids ==> o.detectedAt <= now
    requires RowsKept(snap.txids, outputs) && AddedNow(snap.txids, outputs, now)
    ensures Decide(snap.state, now, snap.terms, outputs, snap.state == Canceled).firstSeenAt == snap.firstSeenAt
  {
    DetectedKeepsFirstSeen(snap.terms, snap.txids, outputs, now, snap.firstSeenAt);
  }

  lemma TickKeepsLate(chain: Chain, snap: Invoice, outputs: seq<Output>, now: Time, d: Decision)
    requires TickOf(chain, snap, outputs, now, d)
    ensures snap.latePayment ==> d.latePayment
  {
    LateFlag(snap.state, now, snap.terms, outputs);
    if snap.latePayment {
      ExtendsLate(snap.state, d.state, snap.txids, outputs, snap.terms.expiresAt);
    }
  }

  lemma TickGrows(chain: Chain, snap: Invoice, outputs: seq<Output>, now: Time, d: Decision)
    requires TickOf(chain, snap, outputs, now, d)
    requires d.txids == outputs && d.duffsReceived == Total(outputs)
    ensures Grows(snap, Written(snap, d, now))
  {
    if snap.firstSeenAt.Some? {
      TickKeepsFirstSeen(snap, outputs, now);
    }
    TickKeepsLate(chain, snap, outputs, now, d);
    ExtendsTotal(chain, snap.address, snap.txids, outputs, now);
    GrowsBy(snap, Written(snap, d, now));
  }

  lemma GrowsBy(a: Invoice, b: Invoice)
    requires RowsKept(a.txids, b.txids)
    requires a.firstSeenAt.Some? ==> b.firstSeenAt == a.firstSeenAt
    requires a.latePayment ==> b.latePayment
    requires a.duffsReceived <= b.duffsReceived
    ensures Grows(a, b)
  {
  }

  /** One tick on an up-to-date snapshot. */
  lemma TickStep(chain: Chain, p: Pending)
    requires p.snap.state in WATCH_STATES && Consistent(p.snap) && Judged(chain, p)
    ensures var after := Written(p.snap, DecisionOf(p), p.now);
      Grows(p.snap, after) && Recorded(chain, after, p.now)
  {
    var outputs, d := Evaluated(p.snap, p.utxos, p.dust, p.now), DecisionOf(p);
    DecisionSound(p.snap, p.utxos, p.dust, p.now);
    EvaluatedExtends(chain, p);
    TickOfStep(chain, p.snap, outputs, p.now, d);
  }

  lemma TickOfStep(chain: Chain, snap: Invoice, outputs: seq<Output>, now: Time, d: Decision)
    requires TickOf(chain, snap, outputs, now, d)
    ensures var after := Written(snap, d, now);
      Grows(snap, after) && Recorded(chain, after, now)
  {
    TickRecorded(chain, snap, outputs, now, d);
    LateFlag(snap.state, now, snap.terms, outputs);
    TickGrows(chain, snap, outputs, now, d);
  }

  // ---------- one step ----------

  ghost predicate AllRecorded(chain: Chain, docs: Docs, clock: Time) {
    forall id :: id in docs ==> Recorded(chain, docs[id], clock)
  }

  ghost predicate OneTaskEach(pending: map<nat, Pending>) {
    forall t1, t2 :: t1 in pending && t2 in pending && pending[t1].snap.id == pending[t2].snap.id ==> t1 == t2
  }

  ghost predicate UniqueAddresses(docs: Docs) {
    forall a, b :: a in docs && b in docs && docs[a].address == docs[b].address ==> a == b
  }

  /** The invariant of orderly runs, on top of Inv. */
  ghost predicate Current(chain: Chain, s: System) {
    && AllRecorded(chain, s.docs, s.clock)
    && (forall task :: task in s.pending ==> UpToDate(chain, s.pending[task], s.docs, s.clock))
    && OneTaskEach(s.pending)
    && UniqueAddresses(s.docs)
  }

  /** A task's snapshot is its document, unless a cancel came in between. */
  ghost predicate UpToDate(chain: Chain, p: Pending, docs: Docs, clock: Time) {
    && p.snap.id in docs
    && (docs[p.snap.id] == p.snap || (p.snap.state == Open && docs[p.snap.id].state == Canceled))
    && docs[p.snap.id].address == p.snap.address
    && Recorded(chain, p.snap, clock)
    && (p.Decided? ==> Judged(chain, p) && p.now <= clock)
  }

  lemma RecordedLater(chain: Chain, d: Invoice, clock: Time, later: Time)
    requires Recorded(chain, d, clock) && clock <= later
    ensures Recorded(chain, d, later)
  {
  }

  lemma GrowsReflexive(d: Invoice)
    requires DistinctKeys(d.txids)
    ensures Grows(d, d)
  {
    forall o | o in d.txids ensures HasRow(d.txids, o) {
      RowAt(d.txids, o);
    }
  }

  /** A cancel that came between a task's read and its write makes the write miss. */
  lemma CancelWins(p: Pending, docs: Docs)
    requires p.Decided? && Follows(p, docs)
    requires p.snap.state == Open && docs[p.snap.id].state == Canceled
    ensures Persisted(docs, p.snap, DecisionOf(p), p.now) == docs
  {
    DecisionSound(p.snap, p.utxos, p.dust, p.now);
  }

  /** The persist step, seen from its document: the snapshot is current, or a cancel won and the write is refused. */
  lemma PersistGrows(chain: Chain, p: Pending, docs: Docs, clock: Time)
    requires p.Decided? && Follows(p, docs) && UpToDate(chain, p, docs, clock)
    requires Recorded(chain, docs[p.snap.id], clock) && Consistent(docs[p.snap.id])
    ensures var after := Persisted(docs, p.snap, DecisionOf(p), p.now);
      && (docs[p.snap.id] != p.snap ==> after == docs)
      && Grows(docs[p.snap.id], after[p.snap.id])
      && Recorded(chain, after[p.snap.id], clock)
  {
    GrowsReflexive(docs[p.snap.id]);
    if docs[p.snap.id] == p.snap {
      TickStep(chain, p);
      RecordedLater(chain, Written(p.snap, DecisionOf(p), p.now), p.now, clock);
    } else {
      CancelWins(p, docs);
    }
  }

  lemma GrowsTransitive(a: Invoice, b: Invoice, c: Invoice)
    requires Grows(a, b) && Grows(b, c)
    ensures Grows(a, c)
  {
    forall o | o in a.txids ensures HasRow(c.txids, o) {
      var p := RowOf(b.txids, o);
      assert HasRow(c.txids, p);
    }
  }

  ghost predicate AllGrow(before: Docs, after: Docs) {
    forall id :: id in before ==> id in after && Grows(before[id], after[id])
  }

  lemma SameDocsGrow(chain: Chain, docs: Docs, clock: Time, later: Time)
    requires AllConsistent(docs) && AllRecorded(chain, docs, clock) && clock <= later
    ensures AllGrow(docs, docs) && AllRecorded(chain, docs, later)
  {
    forall id | id in docs ensures Grows(docs[id], docs[id]) && Recorded(chain, docs[id], later) {
      GrowsReflexive(docs[id]);
      RecordedLater(chain, docs[id], clock, later);
    }
  }

  lemma CancelGrows(docs: Docs, id: Id, now: Time, chain: Chain, clock: Time)
    requires AllConsistent(docs) && AllRecorded(chain, docs, clock)
    ensures AllGrow(docs, CanceledIn(docs, id, now)) && AllRecorded(chain, CanceledIn(docs, id, now), clock)
  {
    SameDocsGrow(chain, docs, clock, clock);
  }

  lemma PersistAllGrow(chain: Chain, p: Pending, docs: Docs, clock: Time)
    requires AllConsistent(docs) && AllRecorded(chain, docs, clock)
    requires p.Decided? && Follows(p, docs) && UpToDate(chain, p, docs, clock)
    ensures var after := Persisted(docs, p.snap, DecisionOf(p), p.now);
      AllGrow(docs, after) && AllRecorded(chain, after, clock)
  {
    SameDocsGrow(chain, docs, clock, clock);
    PersistGrows(chain, p, docs, clock);
  }

  lemma DocsGrow(chain: Chain, s: System, a: Action)
    requires Inv(s) && Current(chain, s) && Enabled(s, a) && Orderly(chain, s, a)
    ensures AllGrow(s.docs, After(s, a).docs) && AllRecorded(chain, After(s, a).docs, After(s, a).clock)
  {
    match a
    case Create(inv) => SameDocsGrow(chain, s.docs, s.clock, s.clock);
    case Load(task, id) => SameDocsGrow(chain, s.docs, s.clock, s.clock);
    case Judge(task, utxos, dust, now) => SameDocsGrow(chain, s.docs, s.clock, Max(s.clock, now));
    case Persist(task) => PersistAllGrow(chain, s.pending[task], s.docs, s.clock);
    case Cancel(id, now) => CancelGrows(s.docs, id, now, chain, s.clock);
    case Drop(task) => SameDocsGrow(chain, s.docs, s.clock, s.clock);
  }

  lemma JudgedUpToDate(chain: Chain, s: System, task: nat, utxos: seq<Utxo>, dust: int, now: Time)
    requires task in s.pending && s.pending[task].Loaded? && UpToDate(chain, s.pending[task], s.docs, s.clock)
    requires DistinctOutpoints(utxos) && now >= s.clock && Truthful(chain, s.pending[task].snap.address, utxos)
    ensures UpToDate(chain, Decided(s.pending[task].snap, utxos, dust, now), s.docs, Max(s.clock, now))
  {
    RecordedLater(chain, s.pending[task].snap, s.clock, now);
  }

  lemma LaterUpToDate(chain: Chain, p: Pending, docs: Docs, clock: Time, later: Time)
    requires UpToDate(chain, p, docs, clock) && clock <= later
    ensures UpToDate(chain, p, docs, later)
  {
    RecordedLater(chain, p.snap, clock, later);
  }

  /** A change to the collection a task in flight can live with: none to its document, or a cancel of it. */
  lemma ChangedUpToDate(chain: Chain, p: Pending, before: Docs, after: Docs, clock: Time)
    requires UpToDate(chain, p, before, clock) && p.snap.id in after
    requires var x, y := before[p.snap.id], after[p.snap.id];
      y == x || (x.state == Open && y.state == Canceled && y.address == x.address)
    ensures UpToDate(chain, p, after, clock)
  {
  }

  lemma PendingStaysUpToDate(chain: Chain, s: System, a: Action, task: nat)
    requires Enabled(s, a) && Orderly(chain, s, a)
    requires task in s.pending && task in After(s, a).pending
    requires OneTaskEach(s.pending) && UpToDate(chain, s.pending[task], s.docs, s.clock)
    ensures UpToDate(chain, After(s, a).pending[task], After(s, a).docs, After(s, a).clock)
  {
    var p := s.pending[task];
    match a
    case Create(inv) => ChangedUpToDate(chain, p, s.docs, After(s, a).docs, s.clock);
    case Load(t, id) =>
    case Judge(t, utxos, dust, now) =>
      if t == task {
        JudgedUpToDate(chain, s, task, utxos, dust, now);
      } else {
        LaterUpToDate(chain, p, s.docs, s.clock, Max(s.clock, now));
      }
    case Persist(t) => ChangedUpToDate(chain, p, s.docs, After(s, a).docs, s.clock);
    case Cancel(id, now) => ChangedUpToDate(chain, p, s.docs, After(s, a).docs, s.clock);
    case Drop(t) =>
  }

  lemma SameAddresses(before: Docs, after: Docs)
    requires UniqueAddresses(before) && AllAdvance(before, after) && after.Keys == before.Keys
    ensures UniqueAddresses(after)
  {
    assert forall id :: id in after ==> id in before && after[id].address == before[id].address;
  }

  lemma AddressesStayUnique(chain: Chain, s: System, a: Action)
    requires Enabled(s, a) && Orderly(chain, s, a) && UniqueAddresses(s.docs)
    requires AllAdvance(s.docs, After(s, a).docs)
    ensures UniqueAddresses(After(s, a).docs)
  {
    if !a.Create? {
      SameAddresses(s.docs, After(s, a).docs);
    }
  }

  lemma TasksStayApart(chain: Chain, s: System, a: Action)
    requires Enabled(s, a) && Orderly(chain, s, a) && OneTaskEach(s.pending)
    requires forall id :: id in s.docs ==> s.docs[id].id == id
    ensures OneTaskEach(After(s, a).pending)
  {
  }

  lemma CurrentKeeps(chain: Chain, s: System, a: Action)
    requires Inv(s) && Current(chain, s) && Enabled(s, a) && Orderly(chain, s, a)
    ensures Current(chain, After(s, a))
  {
    DocsGrow(chain, s, a);
    StepKeeps(s, a);
    AddressesStayUnique(chain, s, a);
    TasksStayApart(chain, s, a);
    forall task | task in After(s, a).pending
      ensures UpToDate(chain, After(s, a).pending[task], After(s, a).docs, After(s, a).clock)
    {
      if task in s.pending {
        PendingStaysUpToDate(chain, s, a, task);
      }
    }
  }

  // ---------- whole runs ----------

  lemma {:induction false} OrderlyRunKeeps(chain: Chain, trace: seq<System>, acts: seq<Action>, i: nat)
    requires OrderlyRun(chain, trace, acts) && i < |trace|
    ensures Inv(trace[i]) && Current(chain, trace[i])
  {
    RunKeeps(trace, acts, i);
    if i > 0 {
      OrderlyRunKeeps(chain, trace, acts, i - 1);
      assert OrderlyAt(chain, trace, acts, i - 1);
      CurrentKeeps(chain, trace[i - 1], acts[i - 1]);
    }
  }

  lemma StepGrowsAt(chain: Chain, trace: seq<System>, acts: seq<Action>, i: nat, id: Id)
    requires OrderlyRun(chain, trace, acts) && i < |acts| && id in trace[i].docs
    ensures id in trace[i + 1].docs && Grows(trace[i].docs[id], trace[i + 1].docs[id])
  {
    OrderlyRunKeeps(chain, trace, acts, i);
    assert OrderlyAt(chain, trace, acts, i);
    DocsGrow(chain, trace[i], acts[i]);
  }

  /** Recorded history only grows: outputs, their times, the first-seen time, the late flag and the amount received. */
  lemma {:induction false} HistoryOnlyGrows(chain: Chain, trace: seq<System>, acts: seq<Action>, i: nat, j: nat, id: Id)
    requires OrderlyRun(chain, trace, acts) && i <= j < |trace| && id in trace[i].docs
    ensures id in trace[j].docs && Grows(trace[i].docs[id], trace[j].docs[id])
    decreases j
  {
    if i == j {
      RunKeeps(trace, acts, i);
      GrowsReflexive(trace[i].docs[id]);
    } else {
      HistoryOnlyGrows(chain, trace, acts, i, j - 1, id);
      StepGrowsAt(chain, trace, acts, j - 1, id);
      GrowsTransitive(trace[i].docs[id], trace[j - 1].docs[id], trace[j].docs[id]);
    }
  }

  // ---------- conservation over a run ----------

  /** Each outpoint recorded for an invoice is recorded once, and the amount received is the sum over them. */
  lemma ReceivedOncePerOutpoint(chain: Chain, trace: seq<System>, acts: seq<Action>, i: nat, id: Id)
    requires OrderlyRun(chain, trace, acts) && i < |trace| && id in trace[i].docs
    ensures var d := trace[i].docs[id];
      DistinctKeys(d.txids) && d.duffsReceived == SumOver(Keys(d.txids), Amount(chain))
  {
    OrderlyRunKeeps(chain, trace, acts, i);
    assert Recorded(chain, trace[i].docs[id], trace[i].clock);
    TotalIsSumOverKeys(chain, trace[i].docs[id].txids);
  }

  /** No outpoint is recorded for two invoices. */
  lemma OneInvoicePerOutpoint(chain: Chain, trace: seq<System>, acts: seq<Action>, i: nat, a: Id, b: Id)
    requires OrderlyRun(chain, trace, acts) && i < |trace| && a in trace[i].docs && b in trace[i].docs && a != b
    ensures Keys(trace[i].docs[a].txids) !! Keys(trace[i].docs[b].txids)
  {
    OrderlyRunKeeps(chain, trace, acts, i);
    var x, y := trace[i].docs[a], trace[i].docs[b];
    assert Recorded(chain, x, trace[i].clock) && Recorded(chain, y, trace[i].clock);
    assert forall k :: k in Keys(x.txids) ==> chain.addressOf(k) == x.address;
    assert forall k :: k in Keys(y.txids) ==> chain.addressOf(k) == y.address;
  }

  ghost function Outpoints(docs: Docs, ids: set<Id>): set<Outpoint>
    requires ids <= docs.Keys
  {
    set id, o | id in ids && o in docs[id].txids :: o.key
  }

  ghost function ReceivedBy(docs: Docs, ids: set<Id>): int
    requires ids <= docs.Keys
  {
    if ids == {} then 0
    else
      var id := AnyOf(ids);
      docs[id].duffsReceived + ReceivedBy(docs, ids - {id})
  }

  lemma OutpointsSplit(docs: Docs, ids: set<Id>, id: Id)
    requires ids <= docs.Keys && id in ids
    ensures Outpoints(docs, ids) == Keys(docs[id].txids) + Outpoints(docs, ids - {id})
  {
  }

  lemma OutpointsApart(docs: Docs, ids: set<Id>, own: set<Outpoint>)
    requires ids <= docs.Keys
    requires forall b :: b in ids ==> own !! Keys(docs[b].txids)
    ensures own !! Outpoints(docs, ids)
  {
    forall k | k in Outpoints(docs, ids) ensures k !in own {
      var b, o :| b in ids && o in docs[b].txids && o.key == k;
      assert k in Keys(docs[b].txids);
    }
  }

  /** All amounts received, over any set of invoices, add up to the chain's amounts over their outpoints. */
  lemma {:induction false} Conservation(chain: Chain, trace: seq<System>, acts: seq<Action>, i: nat, ids: set<Id>)
    requires OrderlyRun(chain, trace, acts) && i < |trace| && ids <= trace[i].docs.Keys
    ensures ReceivedBy(trace[i].docs, ids) == SumOver(Outpoints(trace[i].docs, ids), Amount(chain))
    decreases |ids|
  {
    var docs := trace[i].docs;
    if ids != {} {
      var id := AnyOf(ids);
      Conservation(chain, trace, acts, i, ids - {id});
      ReceivedOncePerOutpoint(chain, trace, acts, i, id);
      forall b | b in ids - {id} ensures Keys(docs[id].txids) !! Keys(docs[b].txids) {
        OneInvoicePerOutpoint(chain, trace, acts, i, id, b);
      }
      OutpointsSplit(docs, ids, id);
      OutpointsApart(docs, ids - {id}, Keys(docs[id].txids));
      SumOverUnion(Keys(docs[id].txids), Outpoints(docs, ids - {id}), Amount(chain));
    }
  }

  // ---------- why one watcher ----------

  /** The write goes through. */
  predicate Overwrites(docs: Docs, p: Pending)
    requires p.Decided? && p.snap.id in docs
  {
    docs[p.snap.id].state in Allowed(p.snap.state, DecisionOf(p).state)
  }

  /** Every outpoint of the document is in the task's snapshot or in the answer the task got. */
  ghost predicate Covers(docs: Docs, p: Pending)
    requires p.Decided? && p.snap.id in docs
  {
    Keys(docs[p.snap.id].txids) <= Keys(p.snap.txids) + Keys(Reported(p.utxos, p.dust, p.now))
  }

  /** A write loses a recorded output exactly if it goes through without covering the document it overwrites. */
  lemma WriteKeepsOutputsExactlyWhen(docs: Docs, p: Pending)
    requires AllConsistent(docs) && p.Decided? && Follows(p, docs)
    ensures var after := Persisted(docs, p.snap, DecisionOf(p), p.now);
      Keys(docs[p.snap.id].txids) <= Keys(after[p.snap.id].txids) <==> !Overwrites(docs, p) || Covers(docs, p)
  {
    EvaluatedDistinct(p.snap, p.utxos, p.dust, p.now);
    var outputs := Evaluated(p.snap, p.utxos, p.dust, p.now);
    DecisionRecordsOutputs(p.snap.state, p.now, p.snap.terms, outputs, p.snap.state == Canceled);
  }

  /** No document loses an outpoint. */
  ghost predicate OutpointsKept(before: Docs, after: Docs) {
    forall id :: id in before ==> id in after && Keys(before[id].txids) <= Keys(after[id].txids)
  }

  lemma OtherDocumentsKept(docs: Docs, p: Pending)
    requires AllConsistent(docs) && p.Decided? && Follows(p, docs)
    ensures var after := Persisted(docs, p.snap, DecisionOf(p), p.now);
      OutpointsKept(docs, after) <==> Keys(docs[p.snap.id].txids) <= Keys(after[p.snap.id].txids)
  {
  }

  /**
   * With any number of watchers and any interleaving: a step of a run loses a recorded output exactly if it is a write
   * that goes through although its document has meanwhile recorded what its task neither read nor heard of.
   */
  lemma StepKeepsOutputsExactlyWhen(trace: seq<System>, acts: seq<Action>, i: nat)
    requires Run(trace, acts) && i < |acts| && Taken(trace, acts, i)
    ensures OutpointsKept(trace[i].docs, trace[i + 1].docs) <==>
      (acts[i].Persist? ==>
        var p := trace[i].pending[acts[i].task];
        p.snap.id in trace[i].docs && (!Overwrites(trace[i].docs, p) || Covers(trace[i].docs, p)))
  {
    RunKeeps(trace, acts, i);
    if acts[i].Persist? {
      var p := trace[i].pending[acts[i].task];
      WriteKeepsOutputsExactlyWhen(trace[i].docs, p);
      OtherDocumentsKept(trace[i].docs, p);
    }
  }

  /** The first-seen time a task's outputs carry for an outpoint: the one it read, or now. */
  function RecalledTime(p: Pending, key: Outpoint): Option<Time>
    requires p.Decided?
  {
    var i := IndexOf(p.snap.txids, key);
    if i < |p.snap.txids| then Some(p.snap.txids[i].detectedAt)
    else if key in Keys(Reported(p.utxos, p.dust, p.now)) then Some(p.now)
    else None
  }

  ghost predicate HasTime(rows: seq<Output>, key: Outpoint, at: Time) {
    exists m :: m in rows && m.key == key && m.detectedAt == at
  }

  lemma EvaluatedTimes(p: Pending, key: Outpoint, at: Time)
    requires p.Decided? && Consistent(p.snap) && DistinctOutpoints(p.utxos)
    ensures HasTime(Evaluated(p.snap, p.utxos, p.dust, p.now), key, at) <==> RecalledTime(p, key) == Some(at)
  {
    var existing, reported := p.snap.txids, Reported(p.utxos, p.dust, p.now);
    var outputs := Evaluated(p.snap, p.utxos, p.dust, p.now);
    EvaluatedDistinct(p.snap, p.utxos, p.dust, p.now);
    ReportedFacts(p.utxos, p.dust, p.now);
    var i := IndexOf(existing, key);
    if i < |existing| {
      var m := MergeRetains(existing, reported, existing[i]);
      assert forall x :: x in outputs && x.key == key ==> x == m;
    } else {
      forall m | m in outputs && m.key == key ensures m.detectedAt == p.now {
        MergeOrigin(existing, reported, m);
      }
      if key in Keys(reported) {
        var m :| m in outputs && m.key == key;
        assert HasTime(outputs, key, p.now);
      } else {
        assert key !in Keys(existing) && key !in Keys(outputs);
      }
    }
  }

  /** A write keeps an output with its first-seen time exactly if it is refused, or its task recalls that time. */
  lemma WriteKeepsTimeExactlyWhen(docs: Docs, p: Pending, o: Output)
    requires AllConsistent(docs) && p.Decided? && Follows(p, docs) && o in docs[p.snap.id].txids
    ensures var after := Persisted(docs, p.snap, DecisionOf(p), p.now);
      HasTime(after[p.snap.id].txids, o.key, o.detectedAt) <==>
      !Overwrites(docs, p) || RecalledTime(p, o.key) == Some(o.detectedAt)
  {
    EvaluatedTimes(p, o.key, o.detectedAt);
    var outputs := Evaluated(p.snap, p.utxos, p.dust, p.now);
    DecisionRecordsOutputs(p.snap.state, p.now, p.snap.terms, outputs, p.snap.state == Canceled);
  }

  function SampleInvoice(): Invoice {
    Invoice(1, "order", None, Address(Mainnet, "xpub", 0), 60, "0.00000010", 0,
      Terms(100, 200, 10, 1, Policy(None, None, None, None)),
      Open, None, None, None, None, 0, None, false, [], None, 0)
  }

  function SampleUtxo(txid: string): Utxo {
    Utxo(Some(Address(Mainnet, "xpub", 0)), Outpoint(txid, 0), Decimal.Dec(1, -8), 0, false, false)
  }

  lemma SampleReported(txid: string, now: Time)
    ensures Keys(Reported([SampleUtxo(txid)], 0, now)) == {Outpoint(txid, 0)}
  {
    assert Worth(0)(SampleUtxo(txid));
    assert Reported([SampleUtxo(txid)], 0, now) == [AsOutput(now)(SampleUtxo(txid))];
  }

  lemma SampleDecision(txid: string, now: Time)
    requires 0 <= now < 100
    ensures var d := DecideFor(SampleInvoice(), [SampleUtxo(txid)], 0, now);
      d.state == Detected && Keys(d.txids) == {Outpoint(txid, 0)}
  {
    var u := SampleUtxo(txid);
    ToDuffsOfEighths(1);
    assert Filter([u], Worth(0)) == [u];
    var o := AsOutput(now)(u);
    assert Reported([u], 0, now) == [o];
    assert Merge([], [o]) == [o];
    var t := SampleInvoice().terms;
    assert Pre([o], 100) == [o];
    assert Qualifying([o], t) == [];
    assert o in Pre([o], 100) && !Qualifies(o, t.policy);
  }

  /** The output of the first task is recorded. */
  ghost predicate SampleRecorded(docs: Docs) {
    1 in docs && docs[1].state == Detected && Keys(docs[1].txids) == {Outpoint("a", 0)}
  }

  /** Two tasks read the invoice, and each hears of a different output. */
  lemma BothJudged() returns (trace: seq<System>, acts: seq<Action>)
    ensures Run(trace, acts) && |acts| == 5
    ensures trace[5].docs == map[1 := SampleInvoice()]
    ensures trace[5].pending == map[
      0 := Decided(SampleInvoice(), [SampleUtxo("a")], 0, 1), 1 := Decided(SampleInvoice(), [SampleUtxo("b")], 0, 2)]
  {
    trace, acts := [System(map[], map[], 0)], [];
    trace := ExtendRun(trace, acts, Create(SampleInvoice()));
    acts := acts + [Create(SampleInvoice())];
    trace := ExtendRun(trace, acts, Load(0, 1));
    acts := acts + [Load(0, 1)];
    trace := ExtendRun(trace, acts, Load(1, 1));
    acts := acts + [Load(1, 1)];
    trace := ExtendRun(trace, acts, Judge(0, [SampleUtxo("a")], 0, 1));
    acts := acts + [Judge(0, [SampleUtxo("a")], 0, 1)];
    trace := ExtendRun(trace, acts, Judge(1, [SampleUtxo("b")], 0, 2));
    acts := acts + [Judge(1, [SampleUtxo("b")], 0, 2)];
  }

  /** The second task's write, made from the invoice as it was before the first one's. */
  lemma SampleLost(docs: Docs, p: Pending)
    requires AllConsistent(docs) && p == Decided(SampleInvoice(), [SampleUtxo("b")], 0, 2) && Follows(p, docs)
    requires SampleRecorded(docs)
    ensures !OutpointsKept(docs, Persisted(docs, p.snap, DecisionOf(p), p.now))
  {
    SampleUncovered(docs, p);
    WriteKeepsOutputsExactlyWhen(docs, p);
  }

  lemma SampleUncovered(docs: Docs, p: Pending)
    requires p == Decided(SampleInvoice(), [SampleUtxo("b")], 0, 2)
    requires SampleRecorded(docs)
    ensures Overwrites(docs, p) && !Covers(docs, p)
  {
    SampleDecision("b", 2);
    SampleReported("b", 2);
    assert Keys(p.snap.txids) == {};
    assert Outpoint("a", 0) in Keys(docs[1].txids);
  }

  lemma PersistNext(trace: seq<System>, acts: seq<Action>, task: nat, p: Pending) returns (longer: seq<System>)
    requires Run(trace, acts) && task in trace[|acts|].pending && trace[|acts|].pending[task] == p && p.Decided?
    ensures Run(longer, acts + [Persist(task)]) && longer[|acts|] == trace[|acts|]
    ensures longer[|acts| + 1].docs == Persisted(trace[|acts|].docs, p.snap, DecisionOf(p), p.now)
    ensures longer[|acts| + 1].pending == trace[|acts|].pending - {task}
  {
    longer := ExtendRun(trace, acts, Persist(task));
  }

  /** The first of them writes. */
  lemma FirstWritten() returns (trace: seq<System>, acts: seq<Action>)
    ensures Run(trace, acts) && |acts| == 6
    ensures SampleRecorded(trace[6].docs)
    ensures trace[6].pending == map[1 := Decided(SampleInvoice(), [SampleUtxo("b")], 0, 2)]
  {
    trace, acts := BothJudged();
    FirstWrite(trace[5].docs, trace[5].pending[0]);
    trace := FirstOfTwo(trace, acts, trace[5].pending[0], trace[5].pending[1]);
    acts := acts + [Persist(0)];
  }

  lemma FirstOfTwo(trace: seq<System>, acts: seq<Action>, p: Pending, q: Pending) returns (longer: seq<System>)
    requires Run(trace, acts) && |acts| == 5 && trace[5].pending == map[0 := p, 1 := q]
    requires p.Decided? && SampleRecorded(Persisted(trace[5].docs, p.snap, DecisionOf(p), p.now))
    ensures Run(longer, acts + [Persist(0)]) && longer[6].pending == map[1 := q] && SampleRecorded(longer[6].docs)
  {
    longer := PersistNext(trace, acts, 0, p);
    assert map[0 := p, 1 := q] - {0} == map[1 := q];
  }

  lemma FirstWrite(docs: Docs, p: Pending)
    requires docs == map[1 := SampleInvoice()] && p == Decided(SampleInvoice(), [SampleUtxo("a")], 0, 1)
    ensures SampleRecorded(Persisted(docs, p.snap, DecisionOf(p), p.now))
  {
    SampleDecision("a", 1);
  }

  /** Two watchers reading before either writes: the second overwrites what the first recorded. */
  lemma TwoWatchersCanLoseAnOutput() returns (trace: seq<System>, acts: seq<Action>)
    ensures Run(trace, acts) && |acts| == 7
    ensures 1 in trace[6].docs && Keys(trace[6].docs[1].txids) == {Outpoint("a", 0)}
    ensures !OutpointsKept(trace[6].docs, trace[7].docs)
  {
    trace, acts := FirstWritten();
    RunKeeps(trace, acts, 6);
    SampleLost(trace[6].docs, trace[6].pending[1]);
    trace := PersistNext(trace, acts, 1, trace[6].pending[1]);
    acts := acts + [Persist(1)];
  }
}
