/** What the settlement decision and the merge promise, for every list of outputs. */
module SettlementLaws {
  import opened Base
  import opened Settlement

  // ---------- the merge ----------

  lemma {:induction false} FilterKeepsDistinctKeys(rows: seq<Output>, p: Output -> bool)
    requires DistinctKeys(rows)
    ensures DistinctKeys(Filter(rows, p))
  {
    if rows != [] {
      assert DistinctKeys(rows[1..]);
      FilterKeepsDistinctKeys(rows[1..], p);
      if p(rows[0]) {
        var rest := Filter(rows[1..], p);
        forall j | 0 <= j < |rest| ensures rest[j].key != rows[0].key {
          assert rest[j] in rest && rest[j] in rows[1..];
        }
      }
    }
  }

  lemma RefreshKeepsKeys(prior: seq<Output>, reported: seq<Output>)
    requires DistinctKeys(reported)
    ensures var front := MapSeq(reported, RefreshFrom(prior)); DistinctKeys(front) && Keys(front) == Keys(reported)
  {
    var front := MapSeq(reported, RefreshFrom(prior));
    assert forall i :: 0 <= i < |front| ==> front[i].key == reported[i].key;
    forall k | k in Keys(reported) ensures k in Keys(front) {
      var i :| 0 <= i < |reported| && reported[i].key == k;
      assert front[i] in front;
    }
    forall k | k in Keys(front) ensures k in Keys(reported) {
      var i :| 0 <= i < |front| && front[i].key == k;
      assert reported[i] in reported;
    }
  }

  lemma DisjointKeysConcat(a: seq<Output>, b: seq<Output>)
    requires DistinctKeys(a) && DistinctKeys(b) && Keys(a) !! Keys(b)
    ensures DistinctKeys(a + b)
  {
    assert forall i :: 0 <= i < |a| ==> a[i].key in Keys(a);
    assert forall j :: 0 <= j < |b| ==> b[j].key in Keys(b);
  }

  /** Each outpoint appears once after a merge: the recorded ones and the reported ones, no others. */
  lemma MergeKeys(existing: seq<Output>, reported: seq<Output>)
    requires DistinctKeys(existing) && DistinctKeys(reported)
    ensures DistinctKeys(Merge(existing, reported))
    ensures Keys(Merge(existing, reported)) == Keys(existing) + Keys(reported)
  {
    var front := MapSeq(reported, RefreshFrom(existing));
    var back := Filter(existing, Unreported(reported));
    FilterKeepsDistinctKeys(existing, Unreported(reported));
    RefreshKeepsKeys(existing, reported);
    forall k | k in Keys(back) ensures k in Keys(existing) && k !in Keys(reported) {
      var o :| o in back && o.key == k;
      assert Unreported(reported)(o);
    }
    forall k | k in Keys(existing) && k !in Keys(reported) ensures k in Keys(back) {
      var o :| o in existing && o.key == k;
      assert Unreported(reported)(o);
    }
    DisjointKeysConcat(front, back);
    KeysOfConcat(front, back);
  }

  /** A recorded output stays recorded with its first-seen time. */
  lemma MergeRetains(existing: seq<Output>, reported: seq<Output>, o: Output) returns (m: Output)
    requires DistinctKeys(existing) && o in existing
    ensures m in Merge(existing, reported) && m.key == o.key && m.detectedAt == o.detectedAt
  {
    var front := MapSeq(reported, RefreshFrom(existing));
    if o.key in Keys(reported) {
      var r :| r in reported && r.key == o.key;
      var i :| 0 <= i < |reported| && reported[i] == r;
      m := front[i];
      assert existing[IndexOf(existing, o.key)] == o;
    } else {
      m := o;
      assert o in Filter(existing, Unreported(reported));
    }
  }

  /** Every output after a merge was recorded before, or is reported now. */
  lemma MergeOrigin(existing: seq<Output>, reported: seq<Output>, m: Output)
    requires DistinctKeys(existing) && m in Merge(existing, reported)
    ensures m in existing || exists r :: r in reported && m == Refreshed(existing, r)
  {
    var front := MapSeq(reported, RefreshFrom(existing));
    var back := Filter(existing, Unreported(reported));
    assert Merge(existing, reported) == front + back;
    if m in front {
      var i :| 0 <= i < |front| && front[i] == m;
      assert reported[i] in reported;
    }
  }

  // ---------- the policy ----------

  /**
   * What makes an output final: a lock, unless the stored policy names another rule; then at least one confirmation, or
   * as many as it asks for.
   */
  lemma QualifiesExactly(o: Output, p: Policy)
    ensures p.settle in {None, Some(InstantSendOrChainLock)} ==> (Qualifies(o, p) <==> o.instantlock || o.chainlock)
    ensures p.settle in {Some(ConfN), Some(OtherValue)}
            && (p.minConfirmations.None? || p.minConfirmations.value == 0) ==>
      (Qualifies(o, p) <==> o.confirmations >= 1)
    ensures p.settle in {Some(ConfN), Some(OtherValue)} && p.minConfirmations.Some? && p.minConfirmations.value != 0 ==>
      (Qualifies(o, p) <==> o.confirmations >= p.minConfirmations.value)
  {
  }

  /** The tolerance: the larger of the floor and the whole duffs in the share, either counting as 0 when missing. */
  lemma ToleranceExactly(t: Terms, bps: int, floor: int, share: int)
    requires bps == (if t.policy.toleranceBps.Some? then t.policy.toleranceBps.value else 0)
    requires floor == (if t.policy.toleranceDuffs.Some? then t.policy.toleranceDuffs.value else 0)
    requires 10_000 * share <= t.duffsQuoted * bps < 10_000 * share + 10_000
    ensures Tolerance(t) >= floor && Tolerance(t) >= share && Tolerance(t) in {floor, share}
  {
  }

  // ---------- exact conditions of the decision ----------

  predicate Active(state: InvoiceState) { state == Open || state == Detected }

  /** The smallest qualifying sum that is credited. */
  function Threshold(t: Terms): int { Min(t.duffsQuoted, t.duffsQuoted - Tolerance(t)) }

  /** An invoice is credited exactly when something came in time and the qualifying sum reaches the threshold. */
  lemma CreditExactly(now: Time, t: Terms, e: Evidence, outputs: seq<Output>)
    requires e.tolerance == Tolerance(t)
    ensures DecideActive(now, t, e, outputs).satsCredited
         == if e.firstSeen.Some? && e.qualSum >= Threshold(t) then Some(t.satsRequested) else None
    ensures DecideActive(now, t, e, outputs).satsCredited.Some? <==>
      DecideActive(now, t, e, outputs).state in {Settled, Overpaid}
    ensures DecideActive(now, t, e, outputs).state == Underpaid <==>
      e.firstSeen.Some? && e.qualSum < Threshold(t) && now >= t.expiresAt && !e.waiting
  {
  }

  /** UNDERPAID exactly when time is up, something came in time, all of it qualifies, and it is not enough. */
  lemma UnderpaidExactly(state: InvoiceState, now: Time, t: Terms, outputs: seq<Output>)
    requires Active(state)
    ensures Decide(state, now, t, outputs, false).state == Underpaid <==>
      && now >= t.expiresAt
      && Pre(outputs, t.expiresAt) != []
      && (forall o :: o in outputs && o.detectedAt < t.expiresAt ==> Qualifies(o, t.policy))
      && Total(Pre(outputs, t.expiresAt)) < Threshold(t)
  {
    CreditExactly(now, t, EvidenceOf(t, outputs), outputs);
    var pre := Pre(outputs, t.expiresAt);
    assert forall o :: o in outputs && o.detectedAt < t.expiresAt ==> SeenBefore(t.expiresAt)(o) && o in pre;
    if !WaitingOnPolicy(outputs, t) {
      FilterAll(pre, MeetsPolicy(t.policy));
    }
  }

  lemma PreEmptyExactly(outputs: seq<Output>, at: Time)
    ensures Pre(outputs, at) == [] <==> forall o :: o in outputs ==> o.detectedAt >= at
  {
    var pre := Pre(outputs, at);
    if pre != [] {
      assert pre[0] in pre && SeenBefore(at)(pre[0]);
    } else {
      assert forall o :: o in outputs && SeenBefore(at)(o) ==> o in pre;
    }
  }

  lemma NothingInTime(now: Time, t: Terms, e: Evidence, outputs: seq<Output>)
    ensures DecideActive(now, t, e, outputs).state == Expired <==> now >= t.expiresAt && e.firstSeen.None?
    ensures DecideActive(now, t, e, outputs).state == Open <==> now < t.expiresAt && e.firstSeen.None?
  {
  }

  /** Nothing seen in time: EXPIRED once time is up, OPEN before that; neither when something was. */
  lemma ExpiredExactly(state: InvoiceState, now: Time, t: Terms, outputs: seq<Output>)
    requires Active(state)
    ensures Decide(state, now, t, outputs, false).state == Expired <==>
      now >= t.expiresAt && forall o :: o in outputs ==> o.detectedAt >= t.expiresAt
    ensures Decide(state, now, t, outputs, false).state == Open <==>
      now < t.expiresAt && forall o :: o in outputs ==> o.detectedAt >= t.expiresAt
  {
    PreEmptyExactly(outputs, t.expiresAt);
    NothingInTime(now, t, EvidenceOf(t, outputs), outputs);
  }

  /** Some output was seen in time and does not meet the policy. */
  predicate Unqualified(outputs: seq<Output>, t: Terms) {
    exists o :: o in outputs && o.detectedAt < t.expiresAt && !Qualifies(o, t.policy)
  }

  /** At or after expiry an invoice stays DETECTED exactly while it falls short and a timely output fails the policy. */
  lemma DetectedAfterExpiryExactly(state: InvoiceState, now: Time, t: Terms, outputs: seq<Output>)
    requires Active(state) && now >= t.expiresAt
    ensures Decide(state, now, t, outputs, false).state == Detected <==>
      QualSum(outputs, t) < Threshold(t) && Unqualified(outputs, t)
  {
    CreditExactly(now, t, EvidenceOf(t, outputs), outputs);
    var pre := Pre(outputs, t.expiresAt);
    assert forall o :: o in outputs && o.detectedAt < t.expiresAt ==> SeenBefore(t.expiresAt)(o) && o in pre;
    assert forall o :: o in pre ==> o in outputs && SeenBefore(t.expiresAt)(o);
  }

  /**
   * Outputs a tick at `now` may decide on: each outpoint once, none below dust, none first seen in the future, and on
   * an OPEN invoice, which has nothing recorded, all first seen now.
   */
  ghost predicate Receivable(state: InvoiceState, now: Time, outputs: seq<Output>, dust: int) {
    && DistinctKeys(outputs)
    && forall o :: o in outputs ==>
      o.duffs >= 0 && o.duffs >= dust && o.detectedAt <= now && (state == Open ==> o.detectedAt == now)
  }

  ghost predicate StuckMeansOverdue(t: Terms, dust: int) {
    forall state: InvoiceState, now: Time, outputs: seq<Output> ::
      Active(state) && Receivable(state, now, outputs, dust) ==>
      StuckIfOverdue(state, now, t, outputs)
  }

  predicate StuckIfOverdue(state: InvoiceState, now: Time, t: Terms, outputs: seq<Output>) {
    var d := Decide(state, now, t, outputs, false);
    d.stuck <==> d.state == Detected && now >= t.settleDeadlineAt
  }

  /** A timely output that is all there is, and qualifies. */
  lemma SoleQualifying(o: Output, t: Terms)
    requires o.detectedAt < t.expiresAt && Qualifies(o, t.policy)
    ensures Pre([o], t.expiresAt) == [o] && Qualifying([o], t) == [o] && QualSum([o], t) == o.duffs
  {
    assert SumBy([o], DuffsOf) == o.duffs + SumBy([o][1..], DuffsOf);
  }

  /** When everything timely qualifies, the smallest output already is the least that can be credited. */
  lemma AllQualifyingSum(state: InvoiceState, now: Time, t: Terms, outputs: seq<Output>, dust: int)
    requires Receivable(state, now, outputs, dust) && Pre(outputs, t.expiresAt) != [] && !WaitingOnPolicy(outputs, t)
    ensures QualSum(outputs, t) >= Max(0, dust)
  {
    var pre := Pre(outputs, t.expiresAt);
    FilterAll(pre, MeetsPolicy(t.policy));
    assert forall o :: o in pre ==> o in outputs;
    assert pre[0] in pre && forall o :: o in pre[1..] ==> o in pre;
    SumNonNegative(pre[1..], DuffsOf);
  }

  lemma StuckWhen(state: InvoiceState, now: Time, t: Terms, outputs: seq<Output>, dust: int)
    requires Active(state) && Receivable(state, now, outputs, dust)
    requires t.settleDeadlineAt >= t.expiresAt || Threshold(t) <= Max(0, dust)
    ensures StuckIfOverdue(state, now, t, outputs)
  {
    CreditExactly(now, t, EvidenceOf(t, outputs), outputs);
    if Pre(outputs, t.expiresAt) != [] && !WaitingOnPolicy(outputs, t) {
      AllQualifyingSum(state, now, t, outputs, dust);
    }
  }

  /**
   * "Stuck" reports every invoice still DETECTED past the deadline for exactly the terms whose deadline is not before
   * expiry, or whose threshold no receivable output stays below.
   */
  lemma StuckExactlyWhen(t: Terms, dust: int)
    ensures StuckMeansOverdue(t, dust) <==> t.settleDeadlineAt >= t.expiresAt || Threshold(t) <= Max(0, dust)
  {
    if t.settleDeadlineAt >= t.expiresAt || Threshold(t) <= Max(0, dust) {
      forall state: InvoiceState, now: Time, outputs: seq<Output>
        | Active(state) && Receivable(state, now, outputs, dust)
        ensures StuckIfOverdue(state, now, t, outputs)
      {
        StuckWhen(state, now, t, outputs, dust);
      }
    } else {
      var now := t.expiresAt - 1;
      var o := Output(Outpoint("tx", 0), Threshold(t) - 1, OrDefault(t.policy.minConfirmations, 1), true, true, now);
      SoleQualifying(o, t);
      assert Receivable(Open, now, [o], dust) && !StuckIfOverdue(Open, now, t, [o]);
    }
  }

  ghost predicate CreditNeedsEvidence(t: Terms, dust: int) {
    forall state: InvoiceState, now: Time, outputs: seq<Output> ::
      Active(state) && Receivable(state, now, outputs, dust) ==>
      CreditedOnEvidence(state, now, t, outputs)
  }

  predicate CreditedOnEvidence(state: InvoiceState, now: Time, t: Terms, outputs: seq<Output>) {
    Decide(state, now, t, outputs, false).satsCredited.Some? ==>
      exists o :: o in outputs && o.detectedAt < t.expiresAt && Qualifies(o, t.policy)
  }

  lemma EvidenceWhen(state: InvoiceState, now: Time, t: Terms, outputs: seq<Output>)
    requires Active(state) && t.duffsQuoted > 0 && Tolerance(t) < t.duffsQuoted
    ensures CreditedOnEvidence(state, now, t, outputs)
  {
    if Decide(state, now, t, outputs, false).satsCredited.Some? {
      var good := Qualifying(outputs, t);
      assert good != [];
      assert good[0] in good && good[0] in Pre(outputs, t.expiresAt);
    }
  }

  /** A credit rests on a timely qualifying output for exactly the terms with a positive threshold. */
  lemma EvidenceExactlyWhen(t: Terms, dust: int)
    ensures CreditNeedsEvidence(t, dust) <==> t.duffsQuoted > 0 && Tolerance(t) < t.duffsQuoted
  {
    if t.duffsQuoted > 0 && Tolerance(t) < t.duffsQuoted {
      forall state: InvoiceState, now: Time, outputs: seq<Output>
        | Active(state) && Receivable(state, now, outputs, dust)
        ensures CreditedOnEvidence(state, now, t, outputs)
      {
        EvidenceWhen(state, now, t, outputs);
      }
    } else {
      var now := t.expiresAt - 1;
      var o := Output(Outpoint("tx", 0), Max(0, dust), OrDefault(t.policy.minConfirmations, 1) - 1, false, false, now);
      assert Pre([o], t.expiresAt) == [o];
      assert Qualifying([o], t) == [];
      assert Decide(Open, now, t, [o], false).satsCredited.Some?;
      assert forall x :: x in [o] ==> x == o;
      assert Receivable(Open, now, [o], dust) && !CreditedOnEvidence(Open, now, t, [o]);
    }
  }

  /** The configured tolerance meets that condition when the floor is below the quote and bps below 100%. */
  lemma ToleranceBelowQuote(t: Terms)
    requires t.duffsQuoted > 0
    requires OrDefault(t.policy.toleranceDuffs, 0) < t.duffsQuoted
    requires OrDefault(t.policy.toleranceBps, 0) < 10_000
    ensures Tolerance(t) < t.duffsQuoted
  {
    var bps := OrDefault(t.policy.toleranceBps, 0);
    MulMonotone(bps, 9_999, t.duffsQuoted);
  }

  /** Every decision records all the outputs it was made from. */
  lemma DecisionRecordsOutputs(state: InvoiceState, now: Time, t: Terms, outputs: seq<Output>, canceled: bool)
    ensures Decide(state, now, t, outputs, canceled).txids == outputs
  {
  }

  // ---------- outputs the node no longer reports ----------

  /** The part of a merge the node reports now, and the part it no longer does. */
  function StillReported(existing: seq<Output>, reported: seq<Output>): seq<Output> {
    MapSeq(reported, RefreshFrom(existing))
  }

  function Gone(existing: seq<Output>, reported: seq<Output>): seq<Output> { Filter(existing, Unreported(reported)) }

  /** A merge counts both parts in full. */
  lemma MergeCountsBoth(existing: seq<Output>, reported: seq<Output>, t: Terms)
    requires DistinctKeys(existing)
    ensures QualSum(Merge(existing, reported), t)
         == QualSum(StillReported(existing, reported), t) + QualSum(Gone(existing, reported), t)
  {
    var a, b := StillReported(existing, reported), Gone(existing, reported);
    FilterConcat(a, b, SeenBefore(t.expiresAt));
    FilterConcat(Pre(a, t.expiresAt), Pre(b, t.expiresAt), MeetsPolicy(t.policy));
    SumConcat(Qualifying(a, t), Qualifying(b, t), DuffsOf);
  }

  /** What a consistent invoice that is not yet final may have recorded. */
  ghost predicate Recordable(state: InvoiceState, t: Terms, existing: seq<Output>, dust: int) {
    && DistinctKeys(existing) && (forall o :: o in existing ==> o.duffs >= Max(0, dust))
    && (if state == Open then existing == [] else QualSum(existing, t) < Threshold(t))
  }

  /** What a tick may be told. */
  ghost predicate Fresh(reported: seq<Output>, now: Time, dust: int) {
    DistinctKeys(reported) && forall o :: o in reported ==> o.duffs >= Max(0, dust) && o.detectedAt == now
  }

  /** If the tick credits, it would on what the node reports alone. */
  predicate CreditStands(state: InvoiceState, now: Time, t: Terms, existing: seq<Output>, reported: seq<Output>) {
    Decide(state, now, t, Merge(existing, reported), false).satsCredited.Some? ==>
      Decide(state, now, t, StillReported(existing, reported), false).satsCredited.Some?
  }

  /**
   * A credit stands without the outputs that are gone exactly if the sum reaches the threshold without them; where the
   * threshold asks for nothing, something timely must still be reported.
   */
  lemma CreditStandsExactlyWhen(state: InvoiceState, now: Time, t: Terms, existing: seq<Output>,
                                reported: seq<Output>)
    requires Active(state) && DistinctKeys(existing)
    requires Decide(state, now, t, Merge(existing, reported), false).satsCredited.Some?
    ensures CreditStands(state, now, t, existing, reported) <==>
      && QualSum(Merge(existing, reported), t) - QualSum(Gone(existing, reported), t) >= Threshold(t)
      && (Threshold(t) <= 0 ==> exists o :: o in StillReported(existing, reported) && o.detectedAt < t.expiresAt)
  {
    var current := StillReported(existing, reported);
    MergeCountsBoth(existing, reported, t);
    CreditExactly(now, t, EvidenceOf(t, current), current);
    if QualSum(current, t) > 0 {
      assert Qualifying(current, t) != [];
    }
    PreEmptyExactly(current, t.expiresAt);
  }

  lemma QualifyingGone(existing: seq<Output>, reported: seq<Output>, t: Terms)
    ensures Qualifying(Gone(existing, reported), t) == Filter(Qualifying(existing, t), Unreported(reported))
  {
    FiltersCommute(existing, Unreported(reported), SeenBefore(t.expiresAt));
    FiltersCommute(Pre(existing, t.expiresAt), Unreported(reported), MeetsPolicy(t.policy));
  }

  lemma {:induction false} FiltersCommute(s: seq<Output>, p: Output -> bool, q: Output -> bool)
    ensures Filter(Filter(s, p), q) == Filter(Filter(s, q), p)
  {
    if s != [] {
      FiltersCommute(s[1..], p, q);
      var a, b := Filter(s[1..], p), Filter(s[1..], q);
      assert ([s[0]] + a)[1..] == a && ([s[0]] + b)[1..] == b;
    }
  }

  lemma {:induction false} PartialSum(s: seq<Output>, p: Output -> bool, least: nat)
    requires forall o :: o in s ==> o.duffs >= least
    ensures 0 <= SumBy(Filter(s, p), DuffsOf) <= SumBy(s, DuffsOf)
    ensures Filter(s, p) != [] ==> SumBy(Filter(s, p), DuffsOf) >= least
  {
    if s != [] {
      PartialSum(s[1..], p, least);
      assert s[0] in s;
      if p(s[0]) {
        assert Filter(s, p)[1..] == Filter(s[1..], p);
      }
    }
  }

  /** What is gone adds nothing when any qualifying output reaches the threshold. */
  lemma GoneAddsNothing(state: InvoiceState, t: Terms, existing: seq<Output>, reported: seq<Output>, dust: int)
    requires Recordable(state, t, existing, dust) && Threshold(t) <= Max(1, dust)
    ensures QualSum(Gone(existing, reported), t) == 0
    ensures Threshold(t) <= 0 ==> state == Open
  {
    var good := Qualifying(existing, t);
    QualifyingGone(existing, reported, t);
    assert forall o :: o in good ==> o in Pre(existing, t.expiresAt) && o in existing;
    PartialSum(good, Unreported(reported), Max(0, dust));
  }

  lemma MergeOfNothing(reported: seq<Output>)
    ensures Merge([], reported) == StillReported([], reported)
  {
    assert Dictionary([]) == [];
    assert Filter([], Unreported(reported)) == [];
  }

  lemma CreditStandsWhen(state: InvoiceState, now: Time, t: Terms, existing: seq<Output>, reported: seq<Output>,
                         dust: int)
    requires Active(state) && Recordable(state, t, existing, dust) && Threshold(t) <= Max(1, dust)
    ensures CreditStands(state, now, t, existing, reported)
  {
    if existing == [] {
      MergeOfNothing(reported);
    } else if Decide(state, now, t, Merge(existing, reported), false).satsCredited.Some? {
      GoneAddsNothing(state, t, existing, reported, dust);
      CreditExactly(now, t, EvidenceOf(t, Merge(existing, reported)), Merge(existing, reported));
      CreditStandsExactlyWhen(state, now, t, existing, reported);
    }
  }

  ghost predicate CreditsStand(t: Terms, dust: int) {
    forall state: InvoiceState, now: Time, existing: seq<Output>, reported: seq<Output> ::
      Active(state) && Recordable(state, t, existing, dust) && Fresh(reported, now, dust) ==>
      CreditStands(state, now, t, existing, reported)
  }

  /**
   * Every credit rests on outputs the node still reports, for exactly the terms whose threshold any one output above
   * dust reaches. For all others an output that has vanished can complete a credit.
   */
  lemma CreditsStandExactlyWhen(t: Terms, dust: int)
    ensures CreditsStand(t, dust) <==> Threshold(t) <= Max(1, dust)
  {
    if Threshold(t) <= Max(1, dust) {
      forall state: InvoiceState, now: Time, existing: seq<Output>, reported: seq<Output>
        | Active(state) && Recordable(state, t, existing, dust) && Fresh(reported, now, dust)
        ensures CreditStands(state, now, t, existing, reported)
      {
        CreditStandsWhen(state, now, t, existing, reported, dust);
      }
    } else {
      VanishedCompletes(t, dust);
    }
  }

  /** One output that has vanished and one reported, each one duff short, are credited together. */
  lemma VanishedCompletes(t: Terms, dust: int)
    requires Threshold(t) > Max(1, dust)
    ensures !CreditsStand(t, dust)
  {
    var now := t.expiresAt - 1;
    var o := Output(Outpoint("gone", 0), Threshold(t) - 1, OrDefault(t.policy.minConfirmations, 1), true, true, now);
    var r := o.(key := Outpoint("new", 0));
    SoleQualifying(o, t);
    OneRow(t, dust, now, o, r);
    ShortTogether(t, now, o, r);
    assert !CreditStands(Detected, now, t, [o], [r]);
  }

  lemma OneRow(t: Terms, dust: int, now: Time, o: Output, r: Output)
    requires o.duffs >= Max(0, dust) && r.duffs >= Max(0, dust) && r.detectedAt == now && QualSum([o], t) < Threshold(t)
    ensures Recordable(Detected, t, [o], dust) && Fresh([r], now, dust)
  {
  }

  lemma ShortTogether(t: Terms, now: Time, o: Output, r: Output)
    requires o.key != r.key && Qualifies(o, t.policy) && Qualifies(r, t.policy)
    requires o.detectedAt < t.expiresAt && r.detectedAt < t.expiresAt
    requires o.duffs < Threshold(t) && r.duffs < Threshold(t) && o.duffs + r.duffs >= Threshold(t) > 0
    ensures !CreditStands(Detected, now, t, [o], [r])
  {
    SoleQualifying(o, t);
    SoleQualifying(r, t);
    OneGoneOneNew(o, r);
    MergeCountsBoth([o], [r], t);
    TogetherOnly(now, t, [o], [r]);
  }

  lemma OneGoneOneNew(o: Output, r: Output)
    requires o.key != r.key
    ensures StillReported([o], [r]) == [r] && Gone([o], [r]) == [o]
  {
    assert Keys([r]) == {r.key};
    FilterAll([o], Unreported([r]));
    assert IndexOf([o], r.key) == 1;
    assert MapSeq([r], RefreshFrom([o])) == [Refreshed([o], r)];
  }

  lemma TogetherOnly(now: Time, t: Terms, existing: seq<Output>, reported: seq<Output>)
    requires QualSum(Merge(existing, reported), t) >= Threshold(t) > 0
    requires QualSum(StillReported(existing, reported), t) < Threshold(t)
    ensures !CreditStands(Detected, now, t, existing, reported)
  {
    var current := StillReported(existing, reported);
    CreditedWhenEnough(now, t, Merge(existing, reported));
    CreditExactly(now, t, EvidenceOf(t, current), current);
  }

  lemma CreditedWhenEnough(now: Time, t: Terms, outputs: seq<Output>)
    requires QualSum(outputs, t) >= Threshold(t) > 0
    ensures Decide(Detected, now, t, outputs, false).satsCredited.Some?
  {
    CreditExactly(now, t, EvidenceOf(t, outputs), outputs);
    assert Qualifying(outputs, t) != [];
  }

  // ---------- every field of a decision ----------

  predicate Timely(o: Output, t: Terms) { o.detectedAt < t.expiresAt }

  /** at is when the first of the timely outputs was seen, if there are any. */
  ghost predicate FirstTimely(outputs: seq<Output>, t: Terms, at: Option<Time>) {
    && (at.None? <==> forall o :: o in outputs ==> !Timely(o, t))
    && (at.Some? ==>
      && (exists o :: o in outputs && Timely(o, t) && o.detectedAt == at.value)
      && (forall o :: o in outputs && Timely(o, t) ==> at.value <= o.detectedAt))
  }

  lemma FirstSeenIsTimely(outputs: seq<Output>, t: Terms)
    ensures FirstTimely(outputs, t, FirstSeen(Pre(outputs, t.expiresAt)))
  {
    var pre := Pre(outputs, t.expiresAt);
    PreEmptyExactly(outputs, t.expiresAt);
    assert forall o :: o in outputs && Timely(o, t) ==> SeenBefore(t.expiresAt)(o) && o in pre;
    if pre != [] {
      var first := FirstSeenIsLeast(pre);
      assert SeenBefore(t.expiresAt)(first);
    }
  }

  lemma LateExactly(outputs: seq<Output>, at: Time)
    ensures Late(outputs, at) != [] <==> exists o :: o in outputs && o.detectedAt >= at
  {
    var late := Late(outputs, at);
    if late != [] {
      assert late[0] in late && SeenFrom(at)(late[0]);
    }
    if o :| o in outputs && o.detectedAt >= at {
      assert SeenFrom(at)(o) && o in late;
    }
  }

  /** For a closed invoice a decision only records: the state stays, nothing is credited and nothing is stuck. */
  lemma ClosedDecision(state: InvoiceState, now: Time, t: Terms, outputs: seq<Output>, canceled: bool)
    requires canceled || state in {Expired, Canceled}
    ensures var d := Decide(state, now, t, outputs, canceled);
      && d.state == (if canceled || state == Canceled then Canceled else Expired)
      && d.firstSeenAt.None? && d.detectedAt.None? && d.settledAt.None? && d.satsCredited.None? && !d.stuck
      && d.txids == outputs && d.duffsReceived == Total(outputs)
      && (d.latePayment <==>
        if d.state == Canceled then outputs != [] else exists o :: o in outputs && o.detectedAt >= t.expiresAt)
  {
    LateExactly(outputs, t.expiresAt);
  }

  /** For an open or detected invoice: what every field of a decision says about the outputs and the clock. */
  lemma ActiveFields(state: InvoiceState, now: Time, t: Terms, outputs: seq<Output>)
    requires Active(state)
    ensures var d := Decide(state, now, t, outputs, false);
      && d.txids == outputs && d.duffsReceived == Total(outputs)
      && FirstTimely(outputs, t, d.firstSeenAt) && d.detectedAt == d.firstSeenAt
      && d.settledAt == (if d.state in {Settled, Overpaid} then Some(now) else None)
      && d.satsCredited == (if d.state in {Settled, Overpaid} then Some(t.satsRequested) else None)
      && (d.state == Overpaid <==> d.firstSeenAt.Some? && QualSum(outputs, t) > t.duffsQuoted)
      && (d.latePayment <==> d.state != Open && exists o :: o in outputs && o.detectedAt >= t.expiresAt)
      && (d.stuck <==> d.state == Detected && now >= t.settleDeadlineAt && Unqualified(outputs, t))
  {
    FirstSeenIsTimely(outputs, t);
    LateExactly(outputs, t.expiresAt);
    WaitingExactly(outputs, t);
    FieldsOfEvidence(now, t, EvidenceOf(t, outputs), outputs);
  }

  lemma WaitingExactly(outputs: seq<Output>, t: Terms)
    ensures WaitingOnPolicy(outputs, t) <==> Unqualified(outputs, t)
  {
    var pre := Pre(outputs, t.expiresAt);
    assert forall o :: o in outputs && o.detectedAt < t.expiresAt ==> SeenBefore(t.expiresAt)(o) && o in pre;
    assert forall o :: o in pre ==> o in outputs && SeenBefore(t.expiresAt)(o);
  }

  lemma FieldsOfEvidence(now: Time, t: Terms, e: Evidence, outputs: seq<Output>)
    ensures var d := DecideActive(now, t, e, outputs);
      && d.txids == outputs && d.duffsReceived == e.total && d.firstSeenAt == e.firstSeen && d.detectedAt == e.firstSeen
      && d.settledAt == (if d.state in {Settled, Overpaid} then Some(now) else None)
      && d.satsCredited == (if d.state in {Settled, Overpaid} then Some(t.satsRequested) else None)
      && (d.state == Overpaid <==> e.firstSeen.Some? && e.qualSum > t.duffsQuoted)
      && (d.latePayment <==> d.state != Open && e.late)
      && (d.stuck <==> d.state == Detected && now >= t.settleDeadlineAt && e.waiting)
  {
  }

  /** With a deadline not before expiry, stuck is exactly DETECTED at or past the deadline, whatever the state was. */
  lemma StuckIsOverdue(state: InvoiceState, now: Time, t: Terms, outputs: seq<Output>)
    requires state in WATCH_STATES && t.settleDeadlineAt >= t.expiresAt
    ensures var d := Decide(state, now, t, outputs, state == Canceled);
      d.stuck <==> d.state == Detected && now >= t.settleDeadlineAt
  {
    if Active(state) {
      ActiveFields(state, now, t, outputs);
      if now >= t.settleDeadlineAt {
        DetectedAfterExpiryExactly(state, now, t, outputs);
      }
    } else {
      ClosedDecision(state, now, t, outputs, state == Canceled);
    }
  }

  // ---------- order of the outputs ----------

  lemma FirstSeenPermutation(a: seq<Output>, b: seq<Output>)
    requires multiset(a) == multiset(b)
    ensures FirstSeen(a) == FirstSeen(b)
  {
    PermutationMembers(a, b);
    if a != [] {
      var x := FirstSeenIsLeast(a);
      var y := FirstSeenIsLeast(b);
      assert x in b && y in a;
    }
  }

  /** The decision depends on the outputs as a multiset: reordering them reorders the recorded list and nothing else. */
  lemma DecisionIgnoresOrder(state: InvoiceState, now: Time, t: Terms, a: seq<Output>, b: seq<Output>, canceled: bool)
    requires multiset(a) == multiset(b)
    ensures Decide(state, now, t, b, canceled) == Decide(state, now, t, a, canceled).(txids := b)
  {
    EvidenceIgnoresOrder(a, b, t);
    assert |a| == |multiset(a)| == |multiset(b)| == |b|;
    SameEvidenceSameDecision(now, t, EvidenceOf(t, a), a, b);
  }

  lemma SameEvidenceSameDecision(now: Time, t: Terms, e: Evidence, a: seq<Output>, b: seq<Output>)
    ensures DecideActive(now, t, e, b) == DecideActive(now, t, e, a).(txids := b)
  {
  }

  lemma EvidenceIgnoresOrder(a: seq<Output>, b: seq<Output>, t: Terms)
    requires multiset(a) == multiset(b)
    ensures EvidenceOf(t, a) == EvidenceOf(t, b)
    ensures Late(a, t.expiresAt) == [] <==> Late(b, t.expiresAt) == []
  {
    var preA, preB := Pre(a, t.expiresAt), Pre(b, t.expiresAt);
    FilterPermutation(a, b, SeenBefore(t.expiresAt));
    FilterPermutation(a, b, SeenFrom(t.expiresAt));
    FilterPermutation(preA, preB, MeetsPolicy(t.policy));
    SumPermutation(Qualifying(a, t), Qualifying(b, t), DuffsOf);
    SumPermutation(a, b, DuffsOf);
    FirstSeenPermutation(preA, preB);
    PermutationMembers(preA, preB);
    PermutationMembers(Late(a, t.expiresAt), Late(b, t.expiresAt));
  }

  // ---------- more evidence never takes a credit away ----------

  /** The same output with more confirmations or more locks. */
  predicate Strengthened(o: Output, s: Output) {
    && s == o.(confirmations := s.confirmations, instantlock := s.instantlock, chainlock := s.chainlock)
    && s.confirmations >= o.confirmations
    && (o.instantlock ==> s.instantlock)
    && (o.chainlock ==> s.chainlock)
  }

  /** b holds every output of a, possibly strengthened, and then more outputs of non-negative amount. */
  predicate MoreEvidence(a: seq<Output>, b: seq<Output>) {
    && |a| <= |b|
    && (forall i :: 0 <= i < |a| ==> Strengthened(a[i], b[i]))
    && (forall i :: |a| <= i < |b| ==> b[i].duffs >= 0)
  }

  lemma {:induction false} MoreEvidenceMoreSum(a: seq<Output>, b: seq<Output>, t: Terms)
    requires MoreEvidence(a, b)
    requires forall o :: o in a ==> o.duffs >= 0
    ensures QualSum(a, t) <= QualSum(b, t)
  {
    if a == [] {
      QualSumNonNegative(b, t);
    } else {
      assert forall o :: o in a[1..] ==> o in a;
      MoreEvidenceMoreSum(a[1..], b[1..], t);
      QualSumHead(a, t);
      QualSumHead(b, t);
    }
  }

  lemma QualSumNonNegative(b: seq<Output>, t: Terms)
    requires forall i :: 0 <= i < |b| ==> b[i].duffs >= 0
    ensures QualSum(b, t) >= 0
  {
    assert forall o :: o in Qualifying(b, t) ==> o in Pre(b, t.expiresAt) && o in b;
    SumNonNegative(Qualifying(b, t), DuffsOf);
  }

  lemma QualSumHead(a: seq<Output>, t: Terms)
    requires a != []
    ensures QualSum(a, t) == QualSum(a[1..], t)
      + if a[0].detectedAt < t.expiresAt && Qualifies(a[0], t.policy) then a[0].duffs else 0
  {
    var pre := Pre(a, t.expiresAt);
    if a[0].detectedAt < t.expiresAt {
      assert pre[1..] == Pre(a[1..], t.expiresAt);
      if Qualifies(a[0], t.policy) {
        assert Qualifying(a, t)[1..] == Qualifying(a[1..], t);
      }
    }
  }

  /** More evidence, in any order, never turns a credit into a non-credit. */
  lemma CreditMonotone(state: InvoiceState, now: Time, later: Time, t: Terms, a: seq<Output>, b: seq<Output>,
                       c: seq<Output>)
    requires Active(state)
    requires forall o :: o in a ==> o.duffs >= 0
    requires MoreEvidence(a, b) && multiset(b) == multiset(c)
    requires Decide(state, now, t, a, false).satsCredited.Some?
    ensures Decide(state, later, t, c, false).satsCredited == Some(t.satsRequested)
  {
    CreditExactly(now, t, EvidenceOf(t, a), a);
    CreditExactly(later, t, EvidenceOf(t, c), c);
    MoreEvidenceMoreSum(a, b, t);
    EvidenceIgnoresOrder(b, c, t);
    MoreEvidenceStillSeen(a, b, t);
  }

  lemma MoreEvidenceStillSeen(a: seq<Output>, b: seq<Output>, t: Terms)
    requires MoreEvidence(a, b) && Pre(a, t.expiresAt) != []
    ensures Pre(b, t.expiresAt) != []
  {
    var first := Pre(a, t.expiresAt)[0];
    assert first in Pre(a, t.expiresAt);
    var i :| 0 <= i < |a| && a[i] == first;
    assert b[i] in b && SeenBefore(t.expiresAt)(b[i]);
  }
}
