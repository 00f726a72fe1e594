/** limits/check.py: sliding-window limits on what a customer has been credited. */
module RateLimit {
  import opened Base
  import opened Settlement
  import opened Invoices
  import opened HiveConfig

  const HOUR: nat := 3600

  /** A credited invoice, as the check reads it. */
  datatype Payment = Payment(at: Time, sats: int)

  function SatsOf(p: Payment): int { p.sats }

  /** _sats_of. */
  function InvoiceSats(inv: Invoice): int {
    if inv.satsCredited.Some? then inv.satsCredited.value else inv.terms.satsRequested
  }

  predicate PaidBy(inv: Invoice, custId: string) {
    inv.custId == Some(custId) && inv.state in {Settled, Overpaid} && inv.settledAt.Some?
  }

  /** What one document contributes. */
  function PaymentOf(inv: Invoice, custId: string): seq<Payment> {
    if PaidBy(inv, custId) then [Payment(inv.settledAt.value, InvoiceSats(inv))] else []
  }

  /** Whatever is stored: a paid document of the customer counts once, for its credit or else for what was requested. */
  lemma DocumentRead(inv: Invoice, custId: string)
    ensures PaymentOf(inv, custId) == [] <==>
      inv.custId != Some(custId) || inv.settledAt.None? || (inv.state != Settled && inv.state != Overpaid)
    ensures PaymentOf(inv, custId) != [] ==>
      && |PaymentOf(inv, custId)| == 1 && PaymentOf(inv, custId)[0].at == inv.settledAt.value
      && (inv.satsCredited.Some? ==> PaymentOf(inv, custId)[0].sats == inv.satsCredited.value)
      && (inv.satsCredited.None? ==> PaymentOf(inv, custId)[0].sats == inv.terms.satsRequested)
  {
  }

  /** Every payment ever credited to the customer. */
  function Payments(db: seq<Invoice>, custId: string): seq<Payment> {
    if db == [] then [] else PaymentOf(db[0], custId) + Payments(db[1..], custId)
  }

  function From(since: Time): Payment -> bool { (p: Payment) => p.at >= since }

  /** _paid_since. */
  function PaidSince(db: seq<Invoice>, custId: string, since: Time): seq<Payment> {
    Filter(Payments(db, custId), From(since))
  }

  // ---------- one window ----------

  function Opens(w: RateWindow, now: Time): Time { now - w.hours * HOUR }

  function InWindow(paid: seq<Payment>, w: RateWindow, now: Time): seq<Payment> { Filter(paid, From(Opens(w, now))) }

  function Used(paid: seq<Payment>, w: RateWindow, now: Time): int { SumBy(InWindow(paid, w, now), SatsOf) }

  predicate Over(paid: seq<Payment>, w: RateWindow, extra: int, now: Time) { Used(paid, w, now) + extra > w.sats }

  function IsOver(paid: seq<Payment>, extra: int, now: Time): RateWindow -> bool {
    (w: RateWindow) => Over(paid, w, extra, now)
  }

  function MaxHours(windows: seq<RateWindow>): (m: int)
    requires windows != []
    ensures forall w :: w in windows ==> w.hours <= m
    ensures exists w :: w in windows && w.hours == m
  {
    if |windows| == 1 then windows[0].hours
    else
      assert windows == [windows[0]] + windows[1..];
      Max(windows[0].hours, MaxHours(windows[1..]))
  }

  /** The payments of the widest window are all that any window needs. */
  lemma WidestServesAll(paid: seq<Payment>, windows: seq<RateWindow>, w: RateWindow, now: Time)
    requires w in windows
    ensures InWindow(Filter(paid, From(now - MaxHours(windows) * HOUR)), w, now) == InWindow(paid, w, now)
  {
    FilterTwice(paid, From(now - MaxHours(windows) * HOUR), From(Opens(w, now)));
  }

  // ---------- the period dictionary ----------

  datatype Period = Period(hours: int, limitSats: int, paid: int, requested: int) {
    predicate Ok() { paid + requested <= limitSats }
  }

  function PeriodOf(w: RateWindow, used: int, extra: int): Period { Period(w.hours, w.sats, used, extra) }

  ghost predicate DistinctPeriods(periods: seq<Period>) {
    forall i, j :: 0 <= i < j < |periods| ==> periods[i].hours != periods[j].hours
  }

  /** periods[str(hours)] = result: a repeated key keeps its place and takes the new value. */
  function Put(periods: seq<Period>, p: Period): seq<Period> {
    if periods == [] then [p]
    else if periods[0].hours == p.hours then [p] + periods[1..]
    else [periods[0]] + Put(periods[1..], p)
  }

  lemma {:induction false} PutMembers(periods: seq<Period>, p: Period)
    requires DistinctPeriods(periods)
    ensures DistinctPeriods(Put(periods, p))
    ensures forall q :: q in Put(periods, p) <==> q == p || (q in periods && q.hours != p.hours)
  {
    if periods != [] && periods[0].hours != p.hours {
      PutMembers(periods[1..], p);
      var rest := Put(periods[1..], p);
      assert forall q :: q in periods <==> q == periods[0] || q in periods[1..];
      forall j | 0 <= j < |rest| ensures rest[j].hours != periods[0].hours {
        assert rest[j] in rest;
      }
    } else if periods != [] {
      assert forall q :: q in periods <==> q == periods[0] || q in periods[1..];
    }
  }

  /** No later window has the same hours, so this one's result is what the dictionary keeps. */
  predicate LastOfItsHours(windows: seq<RateWindow>, i: nat)
    requires i < |windows|
  {
    forall j :: i < j < |windows| ==> windows[j].hours != windows[i].hours
  }

  ghost predicate DistinctHours(windows: seq<RateWindow>) {
    forall i, j :: 0 <= i < j < |windows| ==> windows[i].hours != windows[j].hours
  }

  /** This period is the result kept for the i-th window. */
  predicate KeptFor(paid: seq<Payment>, windows: seq<RateWindow>, extra: int, now: Time, i: nat, p: Period)
    requires i < |windows|
  {
    LastOfItsHours(windows, i) && p == PeriodOf(windows[i], Used(paid, windows[i], now), extra)
  }

  /** The dictionary after all these windows. */
  ghost predicate PeriodsFor(paid: seq<Payment>, windows: seq<RateWindow>, extra: int, now: Time,
                             periods: seq<Period>) {
    && DistinctPeriods(periods)
    && (forall p :: p in periods <==> exists i :: 0 <= i < |windows| && KeptFor(paid, windows, extra, now, i, p))
  }

  lemma OneMorePeriod(paid: seq<Payment>, windows: seq<RateWindow>, extra: int, now: Time, periods: seq<Period>,
                      w: RateWindow)
    requires PeriodsFor(paid, windows, extra, now, periods)
    ensures PeriodsFor(paid, windows + [w], extra, now, Put(periods, PeriodOf(w, Used(paid, w, now), extra)))
  {
    var more, last := windows + [w], PeriodOf(w, Used(paid, w, now), extra);
    PutMembers(periods, last);
    forall p ensures p in Put(periods, last) <==> exists i :: 0 <= i < |more| && KeptFor(paid, more, extra, now, i, p) {
      if p in Put(periods, last) {
        if p == last {
          assert KeptFor(paid, more, extra, now, |windows|, p);
        } else {
          var i :| 0 <= i < |windows| && KeptFor(paid, windows, extra, now, i, p);
          assert KeptFor(paid, more, extra, now, i, p);
        }
      }
      if i :| 0 <= i < |more| && KeptFor(paid, more, extra, now, i, p) {
        if i < |windows| {
          assert more[|windows|] == w && w.hours != windows[i].hours;
          forall j | i < j < |windows| ensures windows[j].hours != windows[i].hours {
            assert more[j] == windows[j];
          }
          assert KeptFor(paid, windows, extra, now, i, p);
        }
      }
    }
  }

  /** The dictionary keeps the order in which the hours were first listed; a new entry comes last. */
  lemma {:induction false} PutInPlace(periods: seq<Period>, p: Period)
    ensures |periods| <= |Put(periods, p)| <= |periods| + 1
    ensures forall i :: 0 <= i < |periods| ==> Put(periods, p)[i].hours == periods[i].hours
    ensures |Put(periods, p)| == |periods| + 1 ==> Put(periods, p)[|periods|] == p
  {
    if periods != [] && periods[0].hours != p.hours {
      PutInPlace(periods[1..], p);
      assert forall i :: 1 <= i < |periods| ==> periods[i] == periods[1..][i - 1];
    }
  }

  ghost predicate HoursIncrease(periods: seq<Period>) {
    forall i, j :: 0 <= i < j < |periods| ==> periods[i].hours < periods[j].hours
  }

  /** Windows in order of their hours give a dictionary in that order. */
  lemma {:induction false} PutAtEnd(periods: seq<Period>, p: Period)
    requires HoursIncrease(periods) && forall q :: q in periods ==> q.hours <= p.hours
    ensures HoursIncrease(Put(periods, p)) && forall q :: q in Put(periods, p) ==> q.hours <= p.hours
    ensures periods != [] ==> Put(periods, p) != [] && Put(periods, p)[0].hours == periods[0].hours
  {
    assert forall i :: 0 <= i < |periods| ==> periods[i] in periods;
    if periods != [] && periods[0].hours != p.hours {
      assert forall q :: q in periods[1..] ==> q in periods;
      PutAtEnd(periods[1..], p);
      var rest := Put(periods[1..], p);
      if |periods| == 1 {
        assert rest == [p];
      }
    }
  }

  // ---------- the next expiry ----------

  /** When p leaves the window w. */
  function Leaves(p: Payment, w: RateWindow): Time { p.at + w.hours * HOUR }

  /** The payment with the earliest settlement, the first such in order, as Python's min picks it. */
  function Oldest(docs: seq<Payment>): (oldest: Payment)
    requires docs != []
    ensures oldest in docs && forall p :: p in docs ==> oldest.at <= p.at
  {
    if |docs| == 1 then docs[0]
    else
      assert docs == [docs[0]] + docs[1..];
      var rest := Oldest(docs[1..]);
      if docs[0].at <= rest.at then docs[0] else rest
  }

  /** Among equal settlement times it is the first. */
  lemma {:induction false} OldestIsFirst(docs: seq<Payment>) returns (i: nat)
    requires docs != []
    ensures i < |docs| && docs[i] == Oldest(docs) && forall j :: 0 <= j < i ==> docs[j].at > docs[i].at
  {
    i := 0;
    if |docs| > 1 && docs[0].at > Oldest(docs[1..]).at {
      var k := OldestIsFirst(docs[1..]);
      i := k + 1;
      forall j | 0 <= j < i ensures docs[j].at > docs[i].at {
        assert j > 0 ==> docs[1..][j - 1] == docs[j];
      }
    }
  }

  /** An exceeded window and a payment in it. */
  predicate Holds(paid: seq<Payment>, w: RateWindow, extra: int, now: Time, p: Payment) {
    Over(paid, w, extra, now) && p in InWindow(paid, w, now)
  }

  /** The hint is the first moment at which any payment leaves any exceeded window. */
  ghost predicate Hint(paid: seq<Payment>, windows: seq<RateWindow>, extra: int, now: Time, expiry: Option<Time>,
                       freed: int) {
    && (forall w, p :: w in windows && Holds(paid, w, extra, now, p) ==> expiry.Some? && expiry.value <= Leaves(p, w))
    && (expiry.Some? ==> exists w, p :: w in windows && Frees(paid, w, extra, now, p, expiry.value, freed))
  }

  predicate Frees(paid: seq<Payment>, w: RateWindow, extra: int, now: Time, p: Payment, at: Time, sats: int) {
    Holds(paid, w, extra, now, p) && at == Leaves(p, w) && sats == p.sats
  }

  // ---------- the check ----------

  datatype Check =
    | Accepted
    | Rejected(first: Period, expiry: Option<Time>, freed: int, periods: seq<Period>)
    | Crashed

  datatype Overrun = Overrun(window: RateWindow, docs: seq<Payment>)

  function OverrunOf(paid: seq<Payment>, now: Time): RateWindow -> Overrun {
    (w: RateWindow) => Overrun(w, InWindow(paid, w, now))
  }

  function Overruns(paid: seq<Payment>, windows: seq<RateWindow>, extra: int, now: Time): seq<Overrun> {
    MapSeq(Filter(windows, IsOver(paid, extra, now)), OverrunOf(paid, now))
  }

  lemma OneMoreOverrun(paid: seq<Payment>, windows: seq<RateWindow>, extra: int, now: Time, w: RateWindow)
    ensures Overruns(paid, windows + [w], extra, now)
         == Overruns(paid, windows, extra, now) + if Over(paid, w, extra, now) then [OverrunOf(paid, now)(w)] else []
  {
    FilterConcat(windows, [w], IsOver(paid, extra, now));
  }

  /** What one more window adds. */
  lemma MeasureNext(paid: seq<Payment>, windows: seq<RateWindow>, i: nat, extra: int, now: Time,
                    periods: seq<Period>, over: seq<Overrun>)
    requires i < |windows|
    requires PeriodsFor(paid, windows[..i], extra, now, periods) && over == Overruns(paid, windows[..i], extra, now)
    ensures PeriodsFor(paid, windows[..i + 1], extra, now,
      Put(periods, PeriodOf(windows[i], Used(paid, windows[i], now), extra)))
    ensures Overruns(paid, windows[..i + 1], extra, now)
         == over + if Over(paid, windows[i], extra, now)
                    then [Overrun(windows[i], InWindow(paid, windows[i], now))] else []
  {
    assert windows[..i + 1] == windows[..i] + [windows[i]];
    OneMorePeriod(paid, windows[..i], extra, now, periods, windows[i]);
    OneMoreOverrun(paid, windows[..i], extra, now, windows[i]);
  }

  /** First loop of check_cust_rate_limit, over the payments of the widest window only. */
  method Measure(recent: seq<Payment>, windows: seq<RateWindow>, extra: int, now: Time, ghost paid: seq<Payment>)
      returns (periods: seq<Period>, over: seq<Overrun>)
    requires forall w :: w in windows ==> InWindow(recent, w, now) == InWindow(paid, w, now)
    ensures PeriodsFor(paid, windows, extra, now, periods)
    ensures SortedByHours(windows) ==> HoursIncrease(periods)
    ensures over == Overruns(paid, windows, extra, now)
  {
    periods, over := [], [];
    for i := 0 to |windows|
      invariant PeriodsFor(paid, windows[..i], extra, now, periods)
      invariant over == Overruns(paid, windows[..i], extra, now)
      invariant SortedByHours(windows) ==> HoursIncrease(periods)
      invariant forall p :: p in periods ==> exists k :: 0 <= k < i && windows[k].hours == p.hours
    {
      var window := windows[i];
      MeasureNext(paid, windows, i, extra, now, periods, over);
      var docs := InWindow(recent, window, now);
      var used := SumBy(docs, SatsOf);
      var result := PeriodOf(window, used, extra);
      PutMembers(periods, result);
      if SortedByHours(windows) {
        PutAtEnd(periods, result);
      }
      periods := Put(periods, result);
      if !result.Ok() {
        over := over + [Overrun(window, docs)];
      }
    }
    assert windows[..|windows|] == windows;
  }

  /** Second loop: the earliest moment at which some payment leaves some exceeded window. */
  method NextExpiry(over: seq<Overrun>) returns (expiry: Option<Time>, freed: int)
    ensures forall o, p :: o in over && p in o.docs ==> expiry.Some? && expiry.value <= Leaves(p, o.window)
    ensures expiry.Some? ==>
      exists o, p :: o in over && p in o.docs && expiry.value == Leaves(p, o.window) && freed == p.sats
    ensures expiry.None? ==> freed == 0
  {
    expiry, freed := None, 0;
    for i := 0 to |over|
      invariant expiry.None? ==> freed == 0
      invariant forall o, p :: o in over[..i] && p in o.docs ==> expiry.Some? && expiry.value <= Leaves(p, o.window)
      invariant expiry.Some? ==>
        exists o, p :: o in over && p in o.docs && expiry.value == Leaves(p, o.window) && freed == p.sats
    {
      assert over[..i + 1] == over[..i] + [over[i]];
      if over[i].docs != [] {
        var oldest := Oldest(over[i].docs);
        var leaves := Leaves(oldest, over[i].window);
        if expiry.None? || leaves < expiry.value {
          expiry, freed := Some(leaves), oldest.sats;
        }
      }
    }
    assert over[..|over|] == over;
  }

  /** The period is exceeded and none before it is. */
  ghost predicate FirstOver(periods: seq<Period>, first: Period) {
    exists i :: 0 <= i < |periods| && periods[i] == first && !first.Ok() && forall p :: p in periods[..i] ==> p.Ok()
  }

  /** With increasing hours it is the exceeded period of the shortest window. */
  lemma FirstIsShortest(periods: seq<Period>, first: Period)
    requires HoursIncrease(periods) && FirstOver(periods, first)
    ensures first in periods && forall p :: p in periods && !p.Ok() ==> first.hours <= p.hours
  {
    var i :| 0 <= i < |periods| && periods[i] == first && !first.Ok() && forall p :: p in periods[..i] ==> p.Ok();
    assert forall j :: 0 <= j < i ==> periods[j] in periods[..i];
  }

  /** The first exceeded period in dictionary order, if there is one. */
  method FirstExceeded(periods: seq<Period>) returns (first: Option<Period>)
    ensures first.Some? <==> exists p :: p in periods && !p.Ok()
    ensures first.Some? ==> FirstOver(periods, first.value)
  {
    for i := 0 to |periods|
      invariant forall p :: p in periods[..i] ==> p.Ok()
    {
      if !periods[i].Ok() {
        return Some(periods[i]);
      }
      assert periods[..i + 1] == periods[..i] + [periods[i]];
    }
    assert periods[..|periods|] == periods;
    return None;
  }

  lemma OverrunMembers(paid: seq<Payment>, windows: seq<RateWindow>, extra: int, now: Time)
    ensures forall o :: o in Overruns(paid, windows, extra, now) ==>
      o.window in windows && Over(paid, o.window, extra, now) && o.docs == InWindow(paid, o.window, now)
    ensures forall w :: w in windows && Over(paid, w, extra, now) ==>
      Overrun(w, InWindow(paid, w, now)) in Overruns(paid, windows, extra, now)
  {
    var listed := Filter(windows, IsOver(paid, extra, now));
    var over := Overruns(paid, windows, extra, now);
    forall o | o in over
      ensures o.window in windows && Over(paid, o.window, extra, now) && o.docs == InWindow(paid, o.window, now)
    {
      var i :| 0 <= i < |over| && over[i] == o;
      assert listed[i] in listed && IsOver(paid, extra, now)(listed[i]);
    }
    forall w | w in windows && Over(paid, w, extra, now) ensures Overrun(w, InWindow(paid, w, now)) in over {
      assert IsOver(paid, extra, now)(w) && w in listed;
      var i :| 0 <= i < |listed| && listed[i] == w;
      assert over[i] == Overrun(w, InWindow(paid, w, now));
    }
  }

  /** From the second loop's result over the exceeded windows to the hint over all windows. */
  lemma HintFromOverruns(paid: seq<Payment>, windows: seq<RateWindow>, extra: int, now: Time, over: seq<Overrun>,
                         expiry: Option<Time>, freed: int)
    requires over == Overruns(paid, windows, extra, now)
    requires forall o, p :: o in over && p in o.docs ==> expiry.Some? && expiry.value <= Leaves(p, o.window)
    requires expiry.Some? ==>
      exists o, p :: o in over && p in o.docs && expiry.value == Leaves(p, o.window) && freed == p.sats
    ensures Hint(paid, windows, extra, now, expiry, freed)
  {
    OverrunMembers(paid, windows, extra, now);
    forall w, p | w in windows && Holds(paid, w, extra, now, p) ensures expiry.Some? && expiry.value <= Leaves(p, w) {
      var o := Overrun(w, InWindow(paid, w, now));
      assert o in over && p in o.docs;
    }
    if expiry.Some? {
      var o, p :| o in over && p in o.docs && expiry.value == Leaves(p, o.window) && freed == p.sats;
      assert Frees(paid, o.window, extra, now, p, expiry.value, freed);
    }
  }

  /** Every exceeded window was superseded in the dictionary by one of the same hours that is not. */
  ghost predicate OnlySuperseded(paid: seq<Payment>, windows: seq<RateWindow>, extra: int, now: Time) {
    forall i :: 0 <= i < |windows| && LastOfItsHours(windows, i) ==> !Over(paid, windows[i], extra, now)
  }

  lemma LookupFails(paid: seq<Payment>, windows: seq<RateWindow>, extra: int, now: Time, periods: seq<Period>)
    requires PeriodsFor(paid, windows, extra, now, periods)
    ensures (forall p :: p in periods ==> p.Ok()) <==> OnlySuperseded(paid, windows, extra, now)
  {
    forall i | 0 <= i < |windows| && LastOfItsHours(windows, i)
      ensures PeriodOf(windows[i], Used(paid, windows[i], now), extra) in periods
    {
      assert KeptFor(paid, windows, extra, now, i, PeriodOf(windows[i], Used(paid, windows[i], now), extra));
    }
  }

  lemma NoneOver(paid: seq<Payment>, windows: seq<RateWindow>, extra: int, now: Time)
    ensures Overruns(paid, windows, extra, now) == [] <==> forall w :: w in windows ==> !Over(paid, w, extra, now)
  {
    OverrunMembers(paid, windows, extra, now);
    var over := Overruns(paid, windows, extra, now);
    if over != [] {
      assert over[0] in over;
    }
  }

  /**
   * What the check of a customer comes to. It accepts exactly when no window, measured over all the customer's
   * payments, would be exceeded. It crashes, as next() finds no period to report, exactly when every exceeded window
   * was superseded in the dictionary by a later one of the same hours. (The StopIteration leaves the coroutine as a
   * RuntimeError.) Otherwise it reports the first exceeded period.
   */
  ghost predicate Outcome(check: Check, paid: seq<Payment>, extra: int, now: Time, windows: seq<RateWindow>) {
    && (check.Accepted? <==> forall w :: w in windows ==> !Over(paid, w, extra, now))
    && (!check.Accepted? ==> (check.Crashed? <==> OnlySuperseded(paid, windows, extra, now)))
    && (check.Rejected? ==>
      && Hint(paid, windows, extra, now, check.expiry, check.freed) && (check.expiry.None? ==> check.freed == 0)
      && PeriodsFor(paid, windows, extra, now, check.periods) && FirstOver(check.periods, check.first)
      && (SortedByHours(windows) ==> HoursIncrease(check.periods)))
  }

  /** check_cust_rate_limit; without a customer it accepts. */
  method CheckCustRateLimit(db: seq<Invoice>, custId: string, extra: int, now: Time, windows: seq<RateWindow>)
      returns (check: Check)
    ensures custId == "" ==> check.Accepted?
    ensures custId != "" ==> Outcome(check, Payments(db, custId), extra, now, windows)
  {
    if custId == "" || windows == [] {
      return Accepted;
    }
    ghost var paid := Payments(db, custId);
    var recent := PaidSince(db, custId, now - MaxHours(windows) * HOUR);
    forall w | w in windows ensures InWindow(recent, w, now) == InWindow(paid, w, now) {
      WidestServesAll(paid, windows, w, now);
    }
    var periods, over := Measure(recent, windows, extra, now, paid);
    NoneOver(paid, windows, extra, now);
    if over == [] {
      return Accepted;
    }
    var expiry, freed := NextExpiry(over);
    HintFromOverruns(paid, windows, extra, now, over, expiry, freed);
    var first := FirstExceeded(periods);
    LookupFails(paid, windows, extra, now, periods);
    if first.None? {
      return Crashed;
    }
    return Rejected(first.value, expiry, freed, periods);
  }
}
