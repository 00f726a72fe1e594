/** What the rate limit guarantees: the expiry hint, the period lookup, and the limit over whole runs. */
module RateLimitLaws {
  import opened Base
  import opened Settlement
  import opened HiveConfig
  import opened RateLimit

  /** The check lets a request through; CheckCustRateLimit accepts exactly then. */
  predicate Admits(paid: seq<Payment>, windows: seq<RateWindow>, extra: int, now: Time) {
    forall w :: w in windows ==> !Over(paid, w, extra, now)
  }

  ghost predicate NonNegative(paid: seq<Payment>) { forall p :: p in paid ==> p.sats >= 0 }

  // ---------- the period lookup ----------

  /** Of two windows with the same hours the later one is at least as strict. */
  ghost predicate LaterNoLooser(windows: seq<RateWindow>) {
    forall i, j :: 0 <= i < j < |windows| && windows[i].hours == windows[j].hours ==> windows[j].sats <= windows[i].sats
  }

  lemma {:induction false} LastWithHours(windows: seq<RateWindow>, i: nat) returns (last: nat)
    requires i < |windows|
    ensures i <= last < |windows| && windows[last].hours == windows[i].hours && LastOfItsHours(windows, last)
    decreases |windows| - i
  {
    if LastOfItsHours(windows, i) {
      last := i;
    } else {
      var j :| i < j < |windows| && windows[j].hours == windows[i].hours;
      last := LastWithHours(windows, j);
    }
  }

  lemma SameHoursSameUse(paid: seq<Payment>, a: RateWindow, b: RateWindow, extra: int, now: Time)
    requires a.hours == b.hours && b.sats <= a.sats && Over(paid, a, extra, now)
    ensures Over(paid, b, extra, now)
  {
    FilterAgrees(paid, From(Opens(a, now)), From(Opens(b, now)));
  }

  /** With distinct hours, or whenever no later window of the same hours is looser, the lookup finds a period. */
  lemma LookupFinds(paid: seq<Payment>, windows: seq<RateWindow>, extra: int, now: Time)
    requires LaterNoLooser(windows) && !Admits(paid, windows, extra, now)
    ensures !OnlySuperseded(paid, windows, extra, now)
  {
    var w :| w in windows && Over(paid, w, extra, now);
    var i :| 0 <= i < |windows| && windows[i] == w;
    var last := LastWithHours(windows, i);
    SameHoursSameUse(paid, w, windows[last], extra, now);
  }

  /** Windows as a configuration payload yields them. */
  ghost predicate Positive(windows: seq<RateWindow>) { forall w :: w in windows ==> w.hours > 0 && w.sats > 0 }

  /** Payments of at least nothing, none in the future. */
  ghost predicate Past(paid: seq<Payment>, now: Time) { NonNegative(paid) && forall p :: p in paid ==> p.at <= now }

  ghost predicate NeverCrashes(windows: seq<RateWindow>) {
    forall paid: seq<Payment>, extra: nat, now: Time :: Past(paid, now) && !Admits(paid, windows, extra, now) ==>
      !OnlySuperseded(paid, windows, extra, now)
  }

  /** Some window that stays in the dictionary is at least as long as the i-th and at most as generous. */
  predicate Backed(windows: seq<RateWindow>, i: nat)
    requires i < |windows|
  {
    exists j :: 0 <= j < |windows| && Backs(windows, i, j)
  }

  predicate Backs(windows: seq<RateWindow>, i: nat, j: nat)
    requires i < |windows|
  {
    && j < |windows| && LastOfItsHours(windows, j)
    && windows[j].hours >= windows[i].hours && windows[j].sats <= windows[i].sats
  }

  lemma LongerStricterOver(paid: seq<Payment>, a: RateWindow, b: RateWindow, extra: int, now: Time)
    requires NonNegative(paid) && a.hours <= b.hours && b.sats <= a.sats && Over(paid, a, extra, now)
    ensures Over(paid, b, extra, now)
  {
    SumFilterMonotone(paid, From(Opens(a, now)), From(Opens(b, now)), SatsOf);
  }

  /** One payment of w's whole limit, settled exactly w.hours ago, is seen by the windows at least as long as w only. */
  lemma OldPayment(w: RateWindow, v: RateWindow, now: Time, paid: seq<Payment>)
    requires paid == [Payment(now - w.hours * HOUR, w.sats)]
    ensures Used(paid, v, now) == if v.hours >= w.hours then w.sats else 0
  {
    if v.hours >= w.hours {
      FilterAll(paid, From(Opens(v, now)));
      assert SumBy(paid, SatsOf) == w.sats + SumBy(paid[1..], SatsOf);
    } else {
      FilterNone(paid, From(Opens(v, now)));
    }
  }

  /** A request that exceeds only windows the dictionary does not keep. */
  lemma UnbackedCrashes(windows: seq<RateWindow>, i: nat, now: Time, paid: seq<Payment>)
    requires Positive(windows) && i < |windows| && !Backed(windows, i)
    requires paid == [Payment(now - windows[i].hours * HOUR, windows[i].sats)]
    ensures Past(paid, now) && !Admits(paid, windows, 1, now) && OnlySuperseded(paid, windows, 1, now)
  {
    assert windows[i] in windows;
    OldPayment(windows[i], windows[i], now, paid);
    forall j | 0 <= j < |windows| && LastOfItsHours(windows, j) ensures !Over(paid, windows[j], 1, now) {
      assert windows[j] in windows && !Backs(windows, i, j);
      OldPayment(windows[i], windows[j], now, paid);
    }
  }

  predicate AllBacked(windows: seq<RateWindow>) { forall i :: 0 <= i < |windows| ==> Backed(windows, i) }

  lemma BackedFinds(paid: seq<Payment>, windows: seq<RateWindow>, extra: int, now: Time)
    requires AllBacked(windows) && NonNegative(paid) && !Admits(paid, windows, extra, now)
    ensures !OnlySuperseded(paid, windows, extra, now)
  {
    var w :| w in windows && Over(paid, w, extra, now);
    var i :| 0 <= i < |windows| && windows[i] == w;
    assert Backed(windows, i);
    var j :| 0 <= j < |windows| && Backs(windows, i, j);
    LongerStricterOver(paid, w, windows[j], extra, now);
  }

  /** No request ever makes the check crash, for exactly the configurations in which every window is backed. */
  lemma NeverCrashesExactlyWhen(windows: seq<RateWindow>)
    requires Positive(windows)
    ensures NeverCrashes(windows) <==> AllBacked(windows)
  {
    if AllBacked(windows) {
      forall paid: seq<Payment>, extra: nat, now: Time | Past(paid, now) && !Admits(paid, windows, extra, now)
        ensures !OnlySuperseded(paid, windows, extra, now)
      {
        BackedFinds(paid, windows, extra, now);
      }
    } else {
      var i :| 0 <= i < |windows| && !Backed(windows, i);
      var paid := [Payment(0 - windows[i].hours * HOUR, windows[i].sats)];
      UnbackedCrashes(windows, i, 0, paid);
    }
  }

  /** Distinct hours are enough. */
  lemma DistinctHoursNeverCrash(windows: seq<RateWindow>)
    requires DistinctHours(windows)
    ensures NeverCrashes(windows)
  {
    forall paid: seq<Payment>, extra: nat, now: Time | !Admits(paid, windows, extra, now)
      ensures !OnlySuperseded(paid, windows, extra, now)
    {
      LookupFinds(paid, windows, extra, now);
    }
  }

  lemma TwoUsable(first: RawWindow, second: RawWindow)
    requires Usable(first) && Usable(second)
    ensures UsableWindows([first, second])
         == [RateWindow(first.hours.value, first.sats.value), RateWindow(second.hours.value, second.sats.value)]
  {
    assert [first, second][..1] == [first];
    assert [first][..0] == [];
    assert UsableWindows([first]) == [RateWindow(first.hours.value, first.sats.value)];
  }

  lemma SortTwo(a: RateWindow, b: RateWindow)
    requires a.hours <= b.hours
    ensures SortByHours([a, b]) == [a, b]
  {
    assert [a, b][1..] == [b];
    assert SortByHours([b]) == [b];
  }

  lemma NothingPaid(w: RateWindow, extra: int, now: Time)
    ensures Over([], w, extra, now) <==> extra > w.sats
  {
  }

  /**
   * A configuration payload that lists the same hours twice, the looser limit last: the check crashes on every first
   * request between the two limits.
   */
  lemma DuplicateHoursCrash(raw: seq<RawWindow>, hours: int, tight: int, loose: int, extra: int)
    requires hours > 0 && 0 < tight < extra <= loose
    requires raw == [Entry(Some(hours), Some(tight)), Entry(Some(hours), Some(loose))]
    ensures var windows := SortByHours(UsableWindows(raw));
      !Admits([], windows, extra, 0) && OnlySuperseded([], windows, extra, 0)
  {
    TwoUsable(raw[0], raw[1]);
    SortTwo(RateWindow(hours, tight), RateWindow(hours, loose));
    LooserLast(SortByHours(UsableWindows(raw)), hours, tight, loose, extra);
  }

  lemma LooserLast(windows: seq<RateWindow>, hours: int, tight: int, loose: int, extra: int)
    requires windows == [RateWindow(hours, tight), RateWindow(hours, loose)] && tight < extra <= loose
    ensures !Admits([], windows, extra, 0) && OnlySuperseded([], windows, extra, 0)
  {
    NothingPaid(windows[0], extra, 0);
    NothingPaid(windows[1], extra, 0);
    assert windows[0] in windows;
    assert windows[1].hours == windows[0].hours && !LastOfItsHours(windows, 0);
  }

  // ---------- the expiry hint ----------

  lemma {:induction false} MorePaymentsMoreUsed(paid: seq<Payment>, more: seq<Payment>, w: RateWindow, t: Time)
    requires NonNegative(more)
    ensures Used(paid, w, t) <= Used(paid + more, w, t)
  {
    FilterConcat(paid, more, From(Opens(w, t)));
    SumConcat(InWindow(paid, w, t), InWindow(more, w, t), SatsOf);
    SumNonNegative(InWindow(more, w, t), SatsOf);
  }

  lemma UsedPermutes(a: seq<Payment>, b: seq<Payment>, w: RateWindow, t: Time)
    requires multiset(a) == multiset(b)
    ensures Used(a, w, t) == Used(b, w, t)
  {
    FilterPermutation(a, b, From(Opens(w, t)));
    SumPermutation(InWindow(a, w, t), InWindow(b, w, t), SatsOf);
  }

  /** Until its oldest payment leaves, an exceeded window stays as full as it is. */
  lemma StaysFull(paid: seq<Payment>, w: RateWindow, now: Time, t: Time)
    requires now <= t && forall p :: p in InWindow(paid, w, now) ==> t <= Leaves(p, w)
    ensures Used(paid, w, t) == Used(paid, w, now)
  {
    forall p | p in paid ensures From(Opens(w, now))(p) == From(Opens(w, t))(p) {
      if p.at >= Opens(w, now) {
        assert From(Opens(w, now))(p) && p in InWindow(paid, w, now);
      }
    }
    FilterAgrees(paid, From(Opens(w, now)), From(Opens(w, t)));
  }

  /**
   * What a rejection announces: some payment in an exceeded window leaves it as many hours after its settlement as the
   * window has, freeing its satoshis; at that second it still counts and a second later it does not.
   */
  lemma HintExactly(paid: seq<Payment>, windows: seq<RateWindow>, extra: int, now: Time, at: Time, freed: int)
      returns (w: RateWindow, p: Payment)
    requires Hint(paid, windows, extra, now, Some(at), freed)
    ensures w in windows && p in paid && Over(paid, w, extra, now) && p.at >= now - 3600 * w.hours
    ensures at == p.at + 3600 * w.hours && freed == p.sats
    ensures p in InWindow(paid, w, at) && p !in InWindow(paid, w, at + 1)
  {
    w, p :| w in windows && Frees(paid, w, extra, now, p, at, freed);
    assert From(Opens(w, now))(p) && From(Opens(w, at))(p) && !From(Opens(w, at + 1))(p);
  }

  /**
   * After a rejection the same request is refused at every moment up to and including the announced expiry,
   * whatever else is paid meanwhile; with no expiry announced it is refused for good.
   */
  lemma HintIsSound(paid: seq<Payment>, more: seq<Payment>, later: seq<Payment>, windows: seq<RateWindow>, extra: int,
                    now: Time, t: Time, expiry: Option<Time>, freed: int)
    requires !Admits(paid, windows, extra, now) && Hint(paid, windows, extra, now, expiry, freed)
    requires NonNegative(more) && multiset(later) == multiset(paid + more)
    requires now <= t && (expiry.Some? ==> t <= expiry.value)
    ensures !Admits(later, windows, extra, t)
  {
    var w :| w in windows && Over(paid, w, extra, now);
    forall p | p in InWindow(paid, w, now) ensures t <= Leaves(p, w) {
      assert Holds(paid, w, extra, now, p);
    }
    StaysFull(paid, w, now, t);
    MorePaymentsMoreUsed(paid, more, w, t);
    UsedPermutes(later, paid + more, w, t);
  }

  // ---------- the reported period ----------

  /** The period states the window's hours and limit, what was paid in it and what is requested. */
  predicate Reports(p: Period, paid: seq<Payment>, w: RateWindow, extra: int, now: Time) {
    p.hours == w.hours && p.limitSats == w.sats && p.paid == Used(paid, w, now) && p.requested == extra
  }

  /** A rejection names an exceeded window, and with windows in order of their hours the shortest of those it keeps. */
  lemma RejectionNamesWindow(check: Check, paid: seq<Payment>, extra: int, now: Time, windows: seq<RateWindow>)
      returns (w: RateWindow)
    requires Outcome(check, paid, extra, now, windows) && check.Rejected?
    ensures w in windows && Over(paid, w, extra, now) && Reports(check.first, paid, w, extra, now)
    ensures SortedByHours(windows) ==> forall i :: 0 <= i < |windows| && LastOfItsHours(windows, i) ==>
      Over(paid, windows[i], extra, now) ==> w.hours <= windows[i].hours
  {
    assert check.first in check.periods;
    var k :| 0 <= k < |windows| && KeptFor(paid, windows, extra, now, k, check.first);
    w := windows[k];
    if SortedByHours(windows) {
      FirstIsShortest(check.periods, check.first);
      forall i | 0 <= i < |windows| && LastOfItsHours(windows, i) && Over(paid, windows[i], extra, now)
        ensures w.hours <= windows[i].hours
      {
        var p := PeriodOf(windows[i], Used(paid, windows[i], now), extra);
        assert KeptFor(paid, windows, extra, now, i, p) && p in check.periods && !p.Ok();
      }
    }
  }

  // ---------- whole runs ----------

  /** One customer: what was credited, the requests accepted but not yet final, and the clock. */
  datatype Ledger = Ledger(paid: seq<Payment>, outstanding: seq<int>, clock: Time)

  /** Credit settles the k-th outstanding invoice; Close ends it unpaid. */
  datatype Step = Ask(sats: nat, now: Time) | Credit(k: nat, now: Time) | Close(k: nat)

  ghost predicate Possible(l: Ledger, a: Step, windows: seq<RateWindow>) {
    match a
    case Ask(sats, now) => now >= l.clock && Admits(l.paid, windows, sats, now)
    case Credit(k, now) => now >= l.clock && k < |l.outstanding|
    case Close(k) => k < |l.outstanding|
  }

  function Next(l: Ledger, a: Step): Ledger
    requires !a.Ask? ==> a.k < |l.outstanding|
  {
    match a
    case Ask(sats, now) => l.(outstanding := l.outstanding + [sats], clock := now)
    case Credit(k, now) =>
      Ledger(l.paid + [Payment(now, l.outstanding[k])], RemoveAt(l.outstanding, k), now)
    case Close(k) => l.(outstanding := RemoveAt(l.outstanding, k))
  }

  ghost predicate StepAt(trace: seq<Ledger>, steps: seq<Step>, windows: seq<RateWindow>, i: nat)
    requires i < |steps| && |trace| == |steps| + 1
  {
    Possible(trace[i], steps[i], windows) && trace[i + 1] == Next(trace[i], steps[i])
  }

  ghost predicate LedgerRun(trace: seq<Ledger>, steps: seq<Step>, windows: seq<RateWindow>) {
    && |trace| == |steps| + 1
    && trace[0].paid == [] && trace[0].outstanding == []
    && forall i :: 0 <= i < |steps| ==> StepAt(trace, steps, windows, i)
  }

  /** Never more than k outstanding at once. */
  ghost predicate AtMost(trace: seq<Ledger>, k: nat) { forall i :: 0 <= i < |trace| ==> |trace[i].outstanding| <= k }

  function Between(since: Time, until: Time): Payment -> bool { (p: Payment) => since <= p.at <= until }

  /** What was credited during the w.hours up to t. */
  function CreditedIn(paid: seq<Payment>, w: RateWindow, t: Time): int {
    SumBy(Filter(paid, Between(Opens(w, t), t)), SatsOf)
  }

  ghost predicate Capped(paid: seq<Payment>, w: RateWindow) { forall t :: CreditedIn(paid, w, t) <= w.sats }

  /** The run invariant for one window: every interval is within the limit, the request in flight fits the latest. */
  ghost predicate LedgerOk(l: Ledger, w: RateWindow) {
    && NonNegative(l.paid) && (forall p :: p in l.paid ==> p.at <= l.clock)
    && Capped(l.paid, w)
    && (l.outstanding != [] ==> l.outstanding[0] >= 0 && Used(l.paid, w, l.clock) + l.outstanding[0] <= w.sats)
  }

  /** Any interval that ends now or later holds at most what the window holds now. */
  lemma LaterIntervalsHoldLess(paid: seq<Payment>, w: RateWindow, clock: Time, t: Time)
    requires NonNegative(paid) && clock <= t
    ensures CreditedIn(paid, w, t) <= Used(paid, w, clock)
  {
    SumFilterMonotone(paid, Between(Opens(w, t), t), From(Opens(w, clock)), SatsOf);
  }

  /** With nothing settled in the future, what the check counts is what was credited in [now - hours, now]. */
  lemma CheckCountsInterval(paid: seq<Payment>, w: RateWindow, now: Time)
    requires forall p :: p in paid ==> p.at <= now
    ensures Used(paid, w, now) == CreditedIn(paid, w, now)
  {
    FilterAgrees(paid, From(Opens(w, now)), Between(Opens(w, now), now));
  }

  lemma CreditKeepsCap(l: Ledger, w: RateWindow, now: Time, sats: int)
    requires LedgerOk(l, w) && l.outstanding == [sats] && now >= l.clock
    ensures Capped(l.paid + [Payment(now, sats)], w)
  {
    var p := Payment(now, sats);
    forall t ensures CreditedIn(l.paid + [p], w, t) <= w.sats {
      var between := Between(Opens(w, t), t);
      FilterConcat(l.paid, [p], between);
      SumConcat(Filter(l.paid, between), Filter([p], between), SatsOf);
      assert CreditedIn(l.paid, w, t) <= w.sats;
      assert [p][1..] == [];
      if Opens(w, t) <= now <= t {
        LaterIntervalsHoldLess(l.paid, w, l.clock, t);
        assert SumBy([p], SatsOf) == sats;
      } else {
        FilterNone([p], between);
      }
    }
  }

  lemma LedgerStep(l: Ledger, a: Step, windows: seq<RateWindow>, w: RateWindow)
    requires LedgerOk(l, w) && w in windows && |l.outstanding| <= 1
    requires Possible(l, a, windows) && |Next(l, a).outstanding| <= 1
    ensures LedgerOk(Next(l, a), w)
  {
    match a
    case Ask(sats, now) =>
      assert !Over(l.paid, w, sats, now);
    case Credit(k, now) =>
      CreditKeepsCap(l, w, now, l.outstanding[0]);
    case Close(k) =>
  }

  /**
   * With constant windows, a clock that does not go back and at most one outstanding invoice at a time, no interval
   * as long as a window ever holds more credited satoshis than the window's limit.
   */
  lemma {:induction false} LimitHoldsOverRuns(trace: seq<Ledger>, steps: seq<Step>, windows: seq<RateWindow>, i: nat,
                                              w: RateWindow)
    requires LedgerRun(trace, steps, windows) && AtMost(trace, 1) && i < |trace|
    requires w in windows && w.sats >= 0
    ensures LedgerOk(trace[i], w)
    ensures forall t :: CreditedIn(trace[i].paid, w, t) <= w.sats
  {
    if i > 0 {
      LimitHoldsOverRuns(trace, steps, windows, i - 1, w);
      assert StepAt(trace, steps, windows, i - 1);
      LedgerStep(trace[i - 1], steps[i - 1], windows, w);
    }
  }

  lemma TwoPayments(w: RateWindow, paid: seq<Payment>, sats: int)
    requires w.hours >= 0 && paid == [Payment(1, sats), Payment(1, sats)]
    ensures CreditedIn(paid, w, 1) == 2 * sats
  {
    FilterAll(paid, Between(Opens(w, 1), 1));
    SumConcat([paid[0]], [paid[1]], SatsOf);
    assert paid == [paid[0]] + [paid[1]];
    assert SumBy([paid[0]], SatsOf) == sats;
  }

  lemma TwoAsks(trace: seq<Ledger>, steps: seq<Step>, windows: seq<RateWindow>, sats: nat)
    requires forall v :: v in windows ==> sats <= v.sats
    requires |trace| == |steps| + 1 && |steps| >= 2 && steps[0] == Ask(sats, 0) && steps[1] == Ask(sats, 0)
    requires trace[0] == Ledger([], [], 0) && trace[1] == Ledger([], [sats], 0)
    requires trace[2] == Ledger([], [sats, sats], 0)
    ensures StepAt(trace, steps, windows, 0) && StepAt(trace, steps, windows, 1)
  {
    forall v | v in windows ensures !Over([], v, sats, 0) {
      NothingPaid(v, sats, 0);
    }
  }

  lemma TwoCredits(trace: seq<Ledger>, steps: seq<Step>, windows: seq<RateWindow>, sats: nat, p: Payment)
    requires |trace| == 5 && |steps| == 4 && p == Payment(1, sats)
    requires steps[2] == Credit(0, 1) && steps[3] == Credit(0, 1)
    requires trace[2] == Ledger([], [sats, sats], 0)
    requires trace[3] == Ledger([p], [sats], 1) && trace[4] == Ledger([p, p], [], 1)
    ensures StepAt(trace, steps, windows, 2) && StepAt(trace, steps, windows, 3)
  {
    assert RemoveAt([sats, sats], 0) == [sats] && RemoveAt([sats], 0) == [];
  }

  /** Whatever the windows: two requests for all of the strictest limit are both accepted, and together exceed it. */
  lemma TwoOutstandingExceed(windows: seq<RateWindow>, w: RateWindow) returns (trace: seq<Ledger>, steps: seq<Step>)
    requires w in windows && w.sats > 0 && w.hours >= 0 && forall v :: v in windows ==> w.sats <= v.sats
    ensures LedgerRun(trace, steps, windows) && AtMost(trace, 2)
    ensures CreditedIn(trace[|steps|].paid, w, 1) > w.sats
  {
    var s: nat := w.sats;
    var p := Payment(1, s);
    steps := [Ask(s, 0), Ask(s, 0), Credit(0, 1), Credit(0, 1)];
    trace := [Ledger([], [], 0), Ledger([], [s], 0), Ledger([], [s, s], 0), Ledger([p], [s], 1), Ledger([p, p], [], 1)];
    TwoAsks(trace, steps, windows, s);
    TwoCredits(trace, steps, windows, s, p);
    TwoPayments(w, [p, p], s);
  }

  ghost predicate WithinLimits(trace: seq<Ledger>, windows: seq<RateWindow>) {
    forall i, w :: 0 <= i < |trace| && w in windows ==> Capped(trace[i].paid, w)
  }

  /** Every run with at most k outstanding invoices keeps every limit. */
  ghost predicate LimitsKept(windows: seq<RateWindow>, k: nat) {
    forall trace: seq<Ledger>, steps: seq<Step> ::
      LedgerRun(trace, steps, windows) && AtMost(trace, k) ==> WithinLimits(trace, windows)
  }

  lemma {:induction false} StrictestWindow(windows: seq<RateWindow>) returns (w: RateWindow)
    requires windows != []
    ensures w in windows && forall v :: v in windows ==> w.sats <= v.sats
  {
    w := windows[0];
    if |windows| > 1 {
      var rest := StrictestWindow(windows[1..]);
      if rest.sats < w.sats {
        w := rest;
      }
    }
    assert windows == [windows[0]] + windows[1..];
  }

  /** Whatever the windows, the limits are safe exactly with at most one outstanding invoice per customer. */
  lemma LimitsKeptExactlyWhen(windows: seq<RateWindow>, k: nat)
    requires windows != [] && Positive(windows)
    ensures LimitsKept(windows, k) <==> k <= 1
  {
    if k <= 1 {
      forall trace: seq<Ledger>, steps: seq<Step> | LedgerRun(trace, steps, windows) && AtMost(trace, k)
        ensures WithinLimits(trace, windows)
      {
        forall i: nat, w: RateWindow | i < |trace| && w in windows ensures Capped(trace[i].paid, w) {
          LimitHoldsOverRuns(trace, steps, windows, i, w);
        }
      }
    } else {
      var w := StrictestWindow(windows);
      var trace, steps := TwoOutstandingExceed(windows, w);
      assert !Capped(trace[|steps|].paid, w);
    }
  }

  // ---------- what is outstanding ----------

  function PaidAt(now: Time): int -> Payment { (sats: int) => Payment(now, sats) }

  function Itself(sats: int): int { sats }

  lemma {:induction false} SumOfPaid(outstanding: seq<int>, now: Time)
    ensures SumBy(MapSeq(outstanding, PaidAt(now)), SatsOf) == SumBy(outstanding, Itself)
  {
    if outstanding != [] {
      SumOfPaid(outstanding[1..], now);
      assert MapSeq(outstanding, PaidAt(now))[1..] == MapSeq(outstanding[1..], PaidAt(now));
    }
  }

  /** What crediting all outstanding invoices at once adds to the interval that ends at t. */
  lemma CreditedTogether(paid: seq<Payment>, outstanding: seq<int>, w: RateWindow, now: Time, t: Time)
    ensures CreditedIn(paid + MapSeq(outstanding, PaidAt(now)), w, t)
         == CreditedIn(paid, w, t) + if Opens(w, t) <= now <= t then SumBy(outstanding, Itself) else 0
  {
    var between, added := Between(Opens(w, t), t), MapSeq(outstanding, PaidAt(now));
    FilterConcat(paid, added, between);
    SumConcat(Filter(paid, between), Filter(added, between), SatsOf);
    if Opens(w, t) <= now <= t {
      FilterAll(added, between);
      SumOfPaid(outstanding, now);
    } else {
      FilterNone(added, between);
    }
  }

  /** Crediting everything outstanding at once stays within a window's limit exactly if the check's sum and it fit. */
  lemma OutstandingFitsExactlyWhen(l: Ledger, w: RateWindow, now: Time)
    requires NonNegative(l.paid) && (forall p :: p in l.paid ==> p.at <= l.clock) && l.clock <= now
    requires Capped(l.paid, w) && w.hours >= 0 && forall s :: s in l.outstanding ==> s >= 0
    ensures Capped(l.paid + MapSeq(l.outstanding, PaidAt(now)), w)
        <==> Used(l.paid, w, now) + SumBy(l.outstanding, Itself) <= w.sats
  {
    var all := l.paid + MapSeq(l.outstanding, PaidAt(now));
    CheckCountsInterval(l.paid, w, now);
    CreditedTogether(l.paid, l.outstanding, w, now, now);
    if Used(l.paid, w, now) + SumBy(l.outstanding, Itself) <= w.sats {
      forall t ensures CreditedIn(all, w, t) <= w.sats {
        CreditedTogether(l.paid, l.outstanding, w, now, t);
        assert CreditedIn(l.paid, w, t) <= w.sats;
        if Opens(w, t) <= now <= t {
          LaterIntervalsHoldLess(l.paid, w, now, t);
        }
      }
    } else {
      assert CreditedIn(all, w, now) > w.sats;
    }
  }
}
