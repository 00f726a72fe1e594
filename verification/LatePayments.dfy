/**
 * Late payments never matter: two histories of an invoice whose node answers differ only in
 * outputs that were not reported before expiry end in the same state with the same credit.
 */
module LatePayments {
  import opened Base
  import opened Settlement
  import opened SettlementLaws
  import opened Invoices
  import opened Protocol

  // ---------- one decision ----------

  /** The timely outputs alone fix everything but the total, the late flag and the recorded list. */
  lemma TimelyOutputsDecide(state: InvoiceState, now: Time, t: Terms, a: seq<Output>, b: seq<Output>, canceled: bool)
    requires Pre(a, t.expiresAt) == Pre(b, t.expiresAt)
    ensures var x, y := Decide(state, now, t, a, canceled), Decide(state, now, t, b, canceled);
      y == x.(duffsReceived := y.duffsReceived, latePayment := y.latePayment, txids := y.txids)
  {
    var e, f := EvidenceOf(t, a), EvidenceOf(t, b);
    assert f == e.(total := f.total, late := f.late);
    SameTimelyEvidence(now, t, e, f, a, b);
  }

  lemma SameTimelyEvidence(now: Time, t: Terms, e: Evidence, f: Evidence, a: seq<Output>, b: seq<Output>)
    requires f == e.(total := f.total, late := f.late)
    ensures var x, y := DecideActive(now, t, e, a), DecideActive(now, t, f, b);
      y == x.(duffsReceived := y.duffsReceived, latePayment := y.latePayment, txids := y.txids)
  {
  }

  // ---------- the timely part of a merge ----------

  function KeyIn(keys: set<Outpoint>): Output -> bool { (o: Output) => o.key in keys }

  lemma {:induction false} FilterOfMap<T, U>(s: seq<T>, f: T -> U, g: T -> U, p: U -> bool, q: T -> bool)
    requires forall x :: x in s ==> (p(f(x)) <==> q(x))
    requires forall x :: x in s && q(x) ==> f(x) == g(x)
    ensures Filter(MapSeq(s, f), p) == MapSeq(Filter(s, q), g)
  {
    if s != [] {
      FilterOfMap(s[1..], f, g, p, q);
      assert MapSeq(s, f)[1..] == MapSeq(s[1..], f);
    }
  }

  lemma {:induction false} FiltersCommute<T>(s: seq<T>, p: T -> bool, q: T -> bool)
    ensures Filter(Filter(s, p), q) == Filter(Filter(s, q), p)
  {
    if s != [] {
      FiltersCommute(s[1..], p, q);
      if p(s[0]) {
        assert Filter(s, p)[1..] == Filter(s[1..], p);
      }
      if q(s[0]) {
        assert Filter(s, q)[1..] == Filter(s[1..], q);
      }
    }
  }

  lemma RecordedTimely(existing: seq<Output>, at: Time, key: Outpoint)
    requires DistinctKeys(existing) && key in Keys(Pre(existing, at))
    ensures var i := IndexOf(existing, key); i < |existing| && SeenBefore(at)(existing[i])
  {
    var o :| o in Pre(existing, at) && o.key == key;
    assert o in existing && SeenBefore(at)(o);
  }

  /** A reported output becomes timely by a merge exactly if its outpoint is recorded as timely. */
  lemma RefreshedTimely(existing: seq<Output>, at: Time, r: Output)
    requires DistinctKeys(existing) && r.detectedAt >= at
    ensures var pre := Pre(existing, at);
      && DistinctKeys(pre)
      && (SeenBefore(at)(Refreshed(existing, r)) <==> r.key in Keys(pre))
      && (r.key in Keys(pre) ==> Refreshed(existing, r) == Refreshed(pre, r))
  {
    var pre := Pre(existing, at);
    FilterKeepsDistinctKeys(existing, SeenBefore(at));
    if r.key in Keys(pre) {
      RecordedTimely(existing, at, r.key);
    }
    var i := IndexOf(existing, r.key);
    if i < |existing| && SeenBefore(at)(existing[i]) {
      assert existing[i] in pre;
      assert pre[IndexOf(pre, r.key)] == existing[i];
    }
  }

  /** After expiry, the timely part of a merge depends only on the timely part of what was recorded. */
  lemma TimelyPartOfMerge(existing: seq<Output>, reported: seq<Output>, at: Time)
    requires DistinctKeys(existing)
    requires forall r :: r in reported ==> r.detectedAt >= at
    ensures var pre := Pre(existing, at);
      Pre(Merge(existing, reported), at) == Merge(pre, Filter(reported, KeyIn(Keys(pre))))
  {
    var pre := Pre(existing, at);
    var known := Filter(reported, KeyIn(Keys(pre)));
    FilterKeepsDistinctKeys(existing, SeenBefore(at));
    forall r | r in reported
      ensures SeenBefore(at)(RefreshFrom(existing)(r)) <==> KeyIn(Keys(pre))(r)
      ensures KeyIn(Keys(pre))(r) ==> RefreshFrom(existing)(r) == RefreshFrom(pre)(r)
    {
      RefreshedTimely(existing, at, r);
    }
    FilterOfMap(reported, RefreshFrom(existing), RefreshFrom(pre), SeenBefore(at), KeyIn(Keys(pre)));
    FiltersCommute(existing, Unreported(reported), SeenBefore(at));
    UnreportedAmongKnown(pre, reported);
    FilterConcat(MapSeq(reported, RefreshFrom(existing)), Filter(existing, Unreported(reported)), SeenBefore(at));
  }

  lemma UnreportedAmongKnown(pre: seq<Output>, reported: seq<Output>)
    ensures Filter(pre, Unreported(reported)) == Filter(pre, Unreported(Filter(reported, KeyIn(Keys(pre)))))
  {
    var known := Filter(reported, KeyIn(Keys(pre)));
    forall o | o in pre ensures Unreported(reported)(o) == Unreported(known)(o) {
      assert o.key in Keys(pre);
      if o.key in Keys(reported) {
        var r :| r in reported && r.key == o.key;
        assert KeyIn(Keys(pre))(r);
      }
    }
    FilterAgrees(pre, Unreported(reported), Unreported(known));
  }

  // ---------- whole histories ----------

  /** One tick: when it runs and what the node answers. */
  datatype Tick = Tick(now: Time, utxos: seq<Utxo>)

  /** An unpreempted tick on a stored invoice. */
  function TickOnce(inv: Invoice, tick: Tick, dust: int): Invoice {
    var d := DecideFor(inv, tick.utxos, dust, tick.now);
    if inv.state in WATCH_STATES && inv.state in Allowed(inv.state, d.state) then Written(inv, d, tick.now) else inv
  }

  function TickAll(inv: Invoice, ticks: seq<Tick>, dust: int): Invoice {
    if ticks == [] then inv else TickOnce(TickAll(inv, ticks[..|ticks| - 1], dust), ticks[|ticks| - 1], dust)
  }

  /** Everything the customer can see of the outcome. */
  ghost predicate SameOutcome(a: Invoice, b: Invoice) {
    && a.terms == b.terms && a.state == b.state
    && a.firstSeenAt == b.firstSeenAt && a.detectedAt == b.detectedAt
    && a.settledAt == b.settledAt && a.satsCredited == b.satsCredited
    && Pre(a.txids, a.terms.expiresAt) == Pre(b.txids, b.terms.expiresAt)
  }

  /** The two answers differ only late: not at all before expiry, and afterwards only on outpoints outside `timely`. */
  ghost predicate DifferOnlyLate(a: Tick, b: Tick, at: Time, timely: set<Outpoint>, dust: int) {
    && a.now == b.now && DistinctOutpoints(a.utxos) && DistinctOutpoints(b.utxos)
    && (a.now < at ==> a.utxos == b.utxos && Keys(Reported(a.utxos, dust, a.now)) <= timely)
    && (a.now >= at ==>
      Filter(Reported(a.utxos, dust, a.now), KeyIn(timely)) == Filter(Reported(b.utxos, dust, b.now), KeyIn(timely)))
  }

  ghost predicate Ordered(ticks: seq<Tick>) { forall i, j :: 0 <= i < j < |ticks| ==> ticks[i].now <= ticks[j].now }

  /** How the two histories relate while they run. */
  ghost predicate Aligned(a: Invoice, b: Invoice, now: Time, timely: set<Outpoint>) {
    && Consistent(a) && Consistent(b) && a.state != Canceled && SameOutcome(a, b)
    && Keys(Pre(a.txids, a.terms.expiresAt)) <= timely
    && (now < a.terms.expiresAt ==> a == b && forall o :: o in a.txids ==> o.detectedAt < a.terms.expiresAt)
  }

  lemma TickConsistent(inv: Invoice, tick: Tick, dust: int)
    requires Consistent(inv) && DistinctOutpoints(tick.utxos)
    ensures Consistent(TickOnce(inv, tick, dust))
    ensures inv.state != Canceled ==> TickOnce(inv, tick, dust).state != Canceled
  {
    if inv.state in WATCH_STATES {
      DecisionSound(inv, tick.utxos, dust, tick.now);
    }
  }

  /** Before expiry both histories are the same, and everything recorded is timely. */
  lemma EarlyStep(inv: Invoice, tick: Tick, timely: set<Outpoint>, dust: int)
    requires Consistent(inv) && DistinctOutpoints(tick.utxos) && tick.now < inv.terms.expiresAt
    requires forall o :: o in inv.txids ==> o.detectedAt < inv.terms.expiresAt
    requires Keys(inv.txids) <= timely && Keys(Reported(tick.utxos, dust, tick.now)) <= timely
    ensures var after := TickOnce(inv, tick, dust);
      Keys(after.txids) <= timely && forall o :: o in after.txids ==> o.detectedAt < inv.terms.expiresAt
  {
    EvaluatedDistinct(inv, tick.utxos, dust, tick.now);
    ReportedFacts(tick.utxos, dust, tick.now);
    forall o | o in Evaluated(inv, tick.utxos, dust, tick.now) ensures o.detectedAt < inv.terms.expiresAt {
      RowTimely(inv.txids, Reported(tick.utxos, dust, tick.now), o, inv.terms.expiresAt);
    }
    assert DecideFor(inv, tick.utxos, dust, tick.now).txids == Evaluated(inv, tick.utxos, dust, tick.now) by {
      DecisionRecordsOutputs(inv.state, tick.now, inv.terms, Evaluated(inv, tick.utxos, dust, tick.now),
        inv.state == Canceled);
    }
  }

  lemma RowTimely(existing: seq<Output>, reported: seq<Output>, o: Output, at: Time)
    requires DistinctKeys(existing) && o in Merge(existing, reported)
    requires forall e :: e in existing ==> e.detectedAt < at
    requires forall r :: r in reported ==> r.detectedAt < at
    ensures o.detectedAt < at
  {
    MergeOrigin(existing, reported, o);
    if o !in existing {
      var r :| r in reported && o == Refreshed(existing, r);
      var i := IndexOf(existing, r.key);
      if i < |existing| {
        assert existing[i] in existing;
      }
    }
  }

  /** After expiry the timely parts of both evaluations stay equal. */
  lemma LateStep(a: seq<Output>, b: seq<Output>, ra: seq<Output>, rb: seq<Output>, at: Time, timely: set<Outpoint>)
    requires DistinctKeys(a) && DistinctKeys(b) && Pre(a, at) == Pre(b, at)
    requires DistinctKeys(ra)
    requires Keys(Pre(a, at)) <= timely
    requires forall r :: r in ra ==> r.detectedAt >= at
    requires forall r :: r in rb ==> r.detectedAt >= at
    requires Filter(ra, KeyIn(timely)) == Filter(rb, KeyIn(timely))
    ensures Pre(Merge(a, ra), at) == Pre(Merge(b, rb), at)
    ensures Keys(Pre(Merge(a, ra), at)) <= timely
  {
    var pre := Pre(a, at);
    TimelyPartOfMerge(a, ra, at);
    TimelyPartOfMerge(b, rb, at);
    FilterTwice(ra, KeyIn(timely), KeyIn(Keys(pre)));
    FilterTwice(rb, KeyIn(timely), KeyIn(Keys(pre)));
    var known := Filter(ra, KeyIn(Keys(pre)));
    FilterKeepsDistinctKeys(a, SeenBefore(at));
    FilterKeepsDistinctKeys(ra, KeyIn(Keys(pre)));
    MergeKeys(pre, known);
    assert forall k :: k in Keys(known) ==> k in Keys(pre) by {
      assert forall o :: o in known ==> KeyIn(Keys(pre))(o);
    }
  }

  lemma WrittenAlike(a: Invoice, b: Invoice, oa: seq<Output>, ob: seq<Output>, now: Time)
    requires SameOutcome(a, b) && Pre(oa, a.terms.expiresAt) == Pre(ob, a.terms.expiresAt)
    ensures var x := Decide(a.state, now, a.terms, oa, a.state == Canceled);
      var y := Decide(b.state, now, b.terms, ob, b.state == Canceled);
      && x.state == y.state && x.txids == oa && y.txids == ob && x.stuck == y.stuck
      && SameOutcome(Written(a, x, now), Written(b, y, now))
  {
    TimelyOutputsDecide(a.state, now, a.terms, oa, ob, a.state == Canceled);
    DecisionRecordsOutputs(a.state, now, a.terms, oa, a.state == Canceled);
    DecisionRecordsOutputs(b.state, now, b.terms, ob, b.state == Canceled);
  }

  lemma LateTick(a: Invoice, b: Invoice, x: Tick, y: Tick, timely: set<Outpoint>, dust: int)
    requires Consistent(a) && Consistent(b) && SameOutcome(a, b)
    requires Keys(Pre(a.txids, a.terms.expiresAt)) <= timely
    requires DifferOnlyLate(x, y, a.terms.expiresAt, timely, dust) && x.now >= a.terms.expiresAt
    ensures SameOutcome(TickOnce(a, x, dust), TickOnce(b, y, dust))
    ensures Keys(Pre(TickOnce(a, x, dust).txids, a.terms.expiresAt)) <= timely
  {
    LateEvaluation(a, b, x, y, timely, dust);
    WrittenAlike(a, b, Evaluated(a, x.utxos, dust, x.now), Evaluated(b, y.utxos, dust, y.now), x.now);
  }

  lemma LateEvaluation(a: Invoice, b: Invoice, x: Tick, y: Tick, timely: set<Outpoint>, dust: int)
    requires Consistent(a) && Consistent(b) && SameOutcome(a, b)
    requires Keys(Pre(a.txids, a.terms.expiresAt)) <= timely
    requires DifferOnlyLate(x, y, a.terms.expiresAt, timely, dust) && x.now >= a.terms.expiresAt
    ensures var oa, ob := Evaluated(a, x.utxos, dust, x.now), Evaluated(b, y.utxos, dust, y.now);
      Pre(oa, a.terms.expiresAt) == Pre(ob, a.terms.expiresAt) && Keys(Pre(oa, a.terms.expiresAt)) <= timely
  {
    ReportedFacts(x.utxos, dust, x.now);
    ReportedFacts(y.utxos, dust, y.now);
    LateStep(a.txids, b.txids, Reported(x.utxos, dust, x.now), Reported(y.utxos, dust, y.now), a.terms.expiresAt,
      timely);
  }

  lemma AlignedStep(a: Invoice, b: Invoice, x: Tick, y: Tick, now: Time, timely: set<Outpoint>, dust: int)
    requires Aligned(a, b, now, timely) && now <= x.now
    requires DifferOnlyLate(x, y, a.terms.expiresAt, timely, dust)
    ensures Aligned(TickOnce(a, x, dust), TickOnce(b, y, dust), x.now, timely)
  {
    TickConsistent(a, x, dust);
    TickConsistent(b, y, dust);
    if x.now < a.terms.expiresAt {
      FilterAll(a.txids, SeenBefore(a.terms.expiresAt));
      EarlyStep(a, x, timely, dust);
      FilterAll(TickOnce(a, x, dust).txids, SeenBefore(a.terms.expiresAt));
    } else {
      LateTick(a, b, x, y, timely, dust);
    }
  }

  lemma {:induction false} HistoriesAligned(
    inv: Invoice, a: seq<Tick>, b: seq<Tick>, start: Time, timely: set<Outpoint>, dust: int)
    requires IsNew(inv) && |a| == |b| && Ordered(a)
    requires forall i :: 0 <= i < |a| ==> start <= a[i].now
    requires forall i :: 0 <= i < |a| ==> DifferOnlyLate(a[i], b[i], inv.terms.expiresAt, timely, dust)
    ensures Aligned(TickAll(inv, a, dust), TickAll(inv, b, dust), if a == [] then start else a[|a| - 1].now, timely)
  {
    if a != [] {
      var n := |a| - 1;
      HistoriesAligned(inv, a[..n], b[..n], start, timely, dust);
      var before := if n == 0 then start else a[n - 1].now;
      TermsStay(inv, a[..n], dust);
      AlignedStep(TickAll(inv, a[..n], dust), TickAll(inv, b[..n], dust), a[n], b[n], before, timely, dust);
    }
  }

  lemma {:induction false} TermsStay(inv: Invoice, ticks: seq<Tick>, dust: int)
    ensures TickAll(inv, ticks, dust).terms == inv.terms
  {
    if ticks != [] {
      TermsStay(inv, ticks[..|ticks| - 1], dust);
    }
  }

  /**
   * Two histories from the same new invoice, under a clock that does not run backwards: whatever the
   * node reports late, the outcome is the same.
   */
  lemma LatePaymentsNeverMatter(inv: Invoice, a: seq<Tick>, b: seq<Tick>, timely: set<Outpoint>, dust: int)
    requires IsNew(inv) && |a| == |b| && Ordered(a)
    requires forall i :: 0 <= i < |a| ==> DifferOnlyLate(a[i], b[i], inv.terms.expiresAt, timely, dust)
    ensures SameOutcome(TickAll(inv, a, dust), TickAll(inv, b, dust))
  {
    var start := if a == [] then 0 else a[0].now;
    HistoriesAligned(inv, a, b, start, timely, dust);
  }
}
