/**
 * The rate limits over runs of the settlement protocol, on the documents as stored: checked creates keep a customer's
 * limits exactly when the customer has at most one request outstanding at a time.
 */
module CustomerLimits {
  import opened Base
  import opened Settlement
  import opened Sorting
  import opened Invoices
  import opened Collection
  import opened Protocol
  import opened HiveConfig
  import opened RateLimit
  import L = RateLimitLaws
  import Decimal
  import opened Amounts
  import WatcherLaws

  // ---------- payments of a collection ----------

  /** Everything credited to the customer, as the check finds it. */
  function Paid(docs: Docs, custId: string): seq<Payment> { Payments(AllInvoices(docs), custId) }

  lemma {:induction false} PaymentsConcat(a: seq<Invoice>, b: seq<Invoice>, custId: string)
    ensures Payments(a + b, custId) == Payments(a, custId) + Payments(b, custId)
  {
    if a == [] {
      assert a + b == b;
    } else {
      PaymentsConcat(a[1..], b, custId);
      var head, rest := PaymentOf(a[0], custId), Payments(a[1..], custId);
      assert (a + b)[0] == a[0] && (a + b)[1..] == a[1..] + b;
      Associates(head, rest, Payments(b, custId));
    }
  }

  lemma Associates(a: seq<Payment>, b: seq<Payment>, c: seq<Payment>)
    ensures a + b + c == a + (b + c)
    ensures multiset(a + b + c) == multiset(a) + multiset(b) + multiset(c)
  {
  }

  lemma PaymentsRemoveAt(db: seq<Invoice>, k: nat, custId: string)
    requires k < |db|
    ensures multiset(Payments(db, custId))
         == multiset(Payments(RemoveAt(db, k), custId)) + multiset(PaymentOf(db[k], custId))
  {
    var front, back := db[..k], db[k + 1..];
    assert db == front + ([db[k]] + back) && RemoveAt(db, k) == front + back;
    PaymentsConcat(front, [db[k]] + back, custId);
    PaymentsConcat(front, back, custId);
    assert ([db[k]] + back)[0] == db[k] && ([db[k]] + back)[1..] == back;
    Associates(Payments(front, custId), PaymentOf(db[k], custId), Payments(back, custId));
  }

  lemma RemoveAscends(ids: seq<Id>, k: nat)
    requires k < |ids| && Increasing(ids, ById())
    ensures Increasing(RemoveAt(ids, k), ById())
    ensures forall x :: x in RemoveAt(ids, k) <==> x in ids && x != ids[k]
  {
    var rest := RemoveAt(ids, k);
    assert forall j :: 0 <= j < |rest| ==> rest[j] == ids[if j < k then j else j + 1];
    forall x ensures x in rest <==> x in ids && x != ids[k] {
      if x in ids && x != ids[k] {
        var j :| 0 <= j < |ids| && ids[j] == x;
        assert rest[if j < k then j else j - 1] == x;
      }
      if x in rest {
        var j :| 0 <= j < |rest| && rest[j] == x;
        assert ids[if j < k then j else j + 1] == x;
        assert ById()(ids[if j < k then j else k], ids[if j < k then k else j + 1]);
      }
    }
  }

  /** The sorted ids without one of them. */
  lemma SortedWithout(keys: set<Id>, id: Id) returns (k: nat)
    requires id in keys
    ensures k < |Sorted(keys, ById())| && Sorted(keys, ById())[k] == id
    ensures Sorted(keys - {id}, ById()) == RemoveAt(Sorted(keys, ById()), k) && id !in RemoveAt(Sorted(keys, ById()), k)
  {
    var ids, less := Sorted(keys, ById()), Sorted(keys - {id}, ById());
    k :| k < |ids| && ids[k] == id;
    RemoveAscends(ids, k);
    IncreasingUnique(less, RemoveAt(ids, k), ById());
  }

  lemma FetchWithout(docs: Docs, ids: seq<Id>, k: nat, less: seq<Id>)
    requires k < |ids| && (forall i :: 0 <= i < |ids| ==> ids[i] in docs)
    requires less == RemoveAt(ids, k) && ids[k] !in less
    ensures forall i :: 0 <= i < |less| ==> less[i] in docs - {ids[k]}
    ensures Fetch(docs - {ids[k]}, less) == RemoveAt(Fetch(docs, ids), k)
  {
    assert forall i :: 0 <= i < |less| ==> less[i] == ids[if i < k then i else i + 1] && less[i] in less;
  }

  lemma ListingOf(docs: Docs, ids: seq<Id>)
    requires ids == Sorted(docs.Keys, ById())
    ensures (forall i :: 0 <= i < |ids| ==> ids[i] in docs) && AllInvoices(docs) == Fetch(docs, ids)
  {
    assert forall i :: 0 <= i < |ids| ==> ids[i] in ids;
  }

  lemma ListingsDiffer(docs: Docs, rest: Docs, ids: seq<Id>, less: seq<Id>, k: nat)
    requires ids == Sorted(docs.Keys, ById()) && less == Sorted(rest.Keys, ById())
    requires k < |ids| && less == RemoveAt(ids, k) && ids[k] !in less && rest == docs - {ids[k]}
    ensures k < |AllInvoices(docs)| && AllInvoices(docs)[k] == docs[ids[k]]
    ensures AllInvoices(rest) == RemoveAt(AllInvoices(docs), k)
  {
    ListingOf(docs, ids);
    ListingOf(rest, less);
    FetchWithout(docs, ids, k, less);
  }

  /** The listing of a collection without one document is the listing with that document taken out. */
  lemma ListingWithout(docs: Docs, rest: Docs, id: Id) returns (k: nat)
    requires id in docs && rest == docs - {id}
    ensures k < |AllInvoices(docs)| && AllInvoices(docs)[k] == docs[id]
    ensures AllInvoices(rest) == RemoveAt(AllInvoices(docs), k)
  {
    k := SortedWithout(docs.Keys, id);
    assert rest.Keys == docs.Keys - {id};
    ListingsDiffer(docs, rest, Sorted(docs.Keys, ById()), Sorted(rest.Keys, ById()), k);
  }

  lemma PaidSplits(docs: Docs, id: Id, custId: string)
    requires id in docs
    ensures multiset(Paid(docs, custId)) == multiset(Paid(docs - {id}, custId)) + multiset(PaymentOf(docs[id], custId))
  {
    var k := ListingWithout(docs, docs - {id}, id);
    PaymentsRemoveAt(AllInvoices(docs), k, custId);
  }

  // ---------- what the documents say was credited ----------

  /** The payment of a consistent document: its credit, exactly if it has one and is the customer's. */
  lemma PaymentExactly(inv: Invoice, custId: string)
    requires Consistent(inv)
    ensures inv.satsCredited.Some? ==> inv.settledAt.Some?
    ensures PaymentOf(inv, custId)
         == if inv.custId == Some(custId) && inv.satsCredited.Some?
            then [Payment(inv.settledAt.value, inv.satsCredited.value)] else []
  {
  }

  function Since(from: Time): Time -> bool { (t: Time) => from <= t }

  function Interval(from: Time, to: Time): Time -> bool { (t: Time) => from <= t <= to }

  /** The satoshis a document credits the customer at these times. */
  function CreditOf(inv: Invoice, custId: string, during: Time -> bool): int {
    if inv.custId == Some(custId) && inv.satsCredited.Some? && inv.settledAt.Some? && during(inv.settledAt.value)
    then inv.satsCredited.value else 0
  }

  /** The satoshis all documents together do. */
  ghost function CreditSum(docs: Docs, custId: string, during: Time -> bool): int
    decreases |docs|
  {
    if docs == map[] then 0
    else
      var id := AnyOf(docs.Keys);
      assert docs.Keys == (docs - {id}).Keys + {id};
      CreditOf(docs[id], custId, during) + CreditSum(docs - {id}, custId, during)
  }

  lemma OneDocument(inv: Invoice, custId: string, during: Time -> bool, within: Payment -> bool)
    requires Consistent(inv) && forall p :: within(p) <==> during(p.at)
    ensures SumBy(Filter(PaymentOf(inv, custId), within), SatsOf) == CreditOf(inv, custId, during)
  {
    PaymentExactly(inv, custId);
    var paid := PaymentOf(inv, custId);
    if paid != [] {
      assert paid == [paid[0]] && paid[1..] == [];
    }
  }

  lemma SumsSplit(all: seq<Payment>, rest: seq<Payment>, own: seq<Payment>, within: Payment -> bool)
    requires multiset(all) == multiset(rest) + multiset(own)
    ensures SumBy(Filter(all, within), SatsOf)
         == SumBy(Filter(own, within), SatsOf) + SumBy(Filter(rest, within), SatsOf)
  {
    FilterPermutation(all, rest + own, within);
    SumPermutation(Filter(all, within), Filter(rest + own, within), SatsOf);
    FilterConcat(rest, own, within);
    SumConcat(Filter(rest, within), Filter(own, within), SatsOf);
  }

  /** The payments the check sees add up to what the documents credit. */
  lemma {:induction false} PaymentsAddUp(docs: Docs, custId: string, during: Time -> bool, within: Payment -> bool)
    requires AllConsistent(docs) && forall p :: within(p) <==> during(p.at)
    ensures SumBy(Filter(Paid(docs, custId), within), SatsOf) == CreditSum(docs, custId, during)
    decreases |docs|
  {
    if docs == map[] {
      assert Paid(docs, custId) == [];
    } else {
      var id := AnyOf(docs.Keys);
      var rest := docs - {id};
      assert docs.Keys == rest.Keys + {id};
      PaymentsAddUp(rest, custId, during, within);
      OneMoreDocument(docs, id, rest, custId, during, within);
    }
  }

  lemma OneMoreDocument(docs: Docs, id: Id, rest: Docs, custId: string, during: Time -> bool, within: Payment -> bool)
    requires AllConsistent(docs) && id in docs && rest == docs - {id} && forall p :: within(p) <==> during(p.at)
    ensures SumBy(Filter(Paid(docs, custId), within), SatsOf)
         == CreditOf(docs[id], custId, during) + SumBy(Filter(Paid(rest, custId), within), SatsOf)
  {
    PaidSplits(docs, id, custId);
    SumsSplit(Paid(docs, custId), Paid(rest, custId), PaymentOf(docs[id], custId), within);
    OneDocument(docs[id], custId, during, within);
  }

  /** The check finds a window exceeded exactly if the documents credit too much since it opened. */
  lemma OverExactlyWhen(docs: Docs, custId: string, w: RateWindow, extra: int, now: Time)
    requires AllConsistent(docs)
    ensures Over(Paid(docs, custId), w, extra, now) <==>
      CreditSum(docs, custId, Since(now - 3600 * w.hours)) + extra > w.sats
  {
    PaymentsAddUp(docs, custId, Since(now - 3600 * w.hours), From(Opens(w, now)));
  }

  /** What the documents credit the customer in the hours up to t. */
  ghost function CreditedUpTo(docs: Docs, custId: string, hours: int, t: Time): int {
    CreditSum(docs, custId, Interval(t - 3600 * hours, t))
  }

  /** In no interval as long as the window do the documents credit the customer more than its limit. */
  ghost predicate CreditsWithin(docs: Docs, custId: string, w: RateWindow) {
    forall t: Time :: CreditedUpTo(docs, custId, w.hours, t) <= w.sats
  }

  lemma CappedExactlyWhen(docs: Docs, custId: string, w: RateWindow)
    requires AllConsistent(docs)
    ensures L.Capped(Paid(docs, custId), w) <==> CreditsWithin(docs, custId, w)
  {
    forall t: Time ensures L.CreditedIn(Paid(docs, custId), w, t) == CreditedUpTo(docs, custId, w.hours, t) {
      IntervalExactly(docs, custId, w, t);
    }
  }

  lemma IntervalExactly(docs: Docs, custId: string, w: RateWindow, t: Time)
    requires AllConsistent(docs)
    ensures L.CreditedIn(Paid(docs, custId), w, t) == CreditedUpTo(docs, custId, w.hours, t)
  {
    assert Opens(w, t) == t - 3600 * w.hours;
    IntervalAddsUp(docs, custId, Opens(w, t), t);
  }

  lemma IntervalAddsUp(docs: Docs, custId: string, from: Time, to: Time)
    requires AllConsistent(docs)
    ensures SumBy(Filter(Paid(docs, custId), L.Between(from, to)), SatsOf)
         == CreditSum(docs, custId, Interval(from, to))
  {
    PaymentsAddUp(docs, custId, Interval(from, to), L.Between(from, to));
  }

  /**
   * The payments of a collection, as a function of it. Only this matters about them below: each document contributes
   * what it does whatever the others are, in some order.
   */
  type Books = Docs -> seq<Payment>

  ghost predicate Additive(books: Books, custId: string) {
    books(map[]) == [] && forall docs: Docs, id :: id in docs ==> AddsAt(books, custId, docs, id)
  }

  predicate AddsAt(books: Books, custId: string, docs: Docs, id: Id)
    requires id in docs
  {
    multiset(books(docs)) == multiset(books(docs - {id})) + multiset(PaymentOf(docs[id], custId))
  }

  function BooksOf(custId: string): Books { (docs: Docs) => Paid(docs, custId) }

  lemma PaidIsAdditive(custId: string)
    ensures Additive(BooksOf(custId), custId)
  {
    forall docs: Docs, id | id in docs ensures AddsAt(BooksOf(custId), custId, docs, id) {
      PaidSplits(docs, id, custId);
    }
    assert AllInvoices(map[]) == [];
  }

  /** Writing a document that contributes as before, or inserting one that contributes nothing, changes no payment. */
  lemma BooksUnchanged(books: Books, docs: Docs, id: Id, inv: Invoice, custId: string)
    requires Additive(books, custId)
    requires PaymentOf(inv, custId) == if id in docs then PaymentOf(docs[id], custId) else []
    ensures multiset(books(docs[id := inv])) == multiset(books(docs))
  {
    assert AddsAt(books, custId, docs[id := inv], id);
    if id in docs {
      assert AddsAt(books, custId, docs, id);
      assert docs[id := inv] - {id} == docs - {id};
    } else {
      assert docs[id := inv] - {id} == docs;
    }
  }

  /** Writing a payment to a document that had none adds it. */
  lemma BooksGain(books: Books, docs: Docs, id: Id, inv: Invoice, custId: string, p: Payment)
    requires Additive(books, custId) && id in docs
    requires PaymentOf(docs[id], custId) == [] && PaymentOf(inv, custId) == [p]
    ensures multiset(books(docs[id := inv])) == multiset(books(docs) + [p])
  {
    assert AddsAt(books, custId, docs[id := inv], id) && AddsAt(books, custId, docs, id);
    assert docs[id := inv] - {id} == docs - {id};
  }

  // ---------- the same payments in another order ----------

  lemma CapPermutes(a: seq<Payment>, b: seq<Payment>, w: RateWindow)
    requires multiset(a) == multiset(b) && L.Capped(a, w)
    ensures L.Capped(b, w)
  {
    forall t ensures L.CreditedIn(b, w, t) <= w.sats {
      var between := L.Between(Opens(w, t), t);
      FilterPermutation(a, b, between);
      SumPermutation(Filter(a, between), Filter(b, between), SatsOf);
      assert L.CreditedIn(a, w, t) <= w.sats;
    }
  }

  // ---------- the ledger of a customer ----------

  predicate OpenFor(inv: Invoice, custId: string) { inv.custId == Some(custId) && inv.state in {Open, Detected} }

  ghost predicate OneOpen(docs: Docs, custId: string) {
    forall a, b :: a in docs && b in docs && OpenFor(docs[a], custId) && OpenFor(docs[b], custId) ==> a == b
  }

  ghost function OpenIds(docs: Docs, custId: string): set<Id> { set id | id in docs && OpenFor(docs[id], custId) }

  /** The stored documents as a ledger. While an invoice is open nothing is credited since its creation. */
  ghost function LedgerOf(s: System, custId: string): L.Ledger {
    var ids := OpenIds(s.docs, custId);
    if ids == {} then L.Ledger(Paid(s.docs, custId), [], s.clock)
    else
      var inv := s.docs[AnyOf(ids)];
      L.Ledger(Paid(s.docs, custId), [inv.terms.satsRequested], inv.createdAt)
  }

  /** The request of a new invoice passes the check on these documents at a time after all that is credited. */
  ghost predicate AdmittedAt(books: Books, docs: Docs, inv: Invoice, windows: seq<RateWindow>, at: Time) {
    && at <= inv.createdAt && inv.terms.satsRequested >= 0 && (forall p :: p in books(docs) ==> p.at <= at)
    && L.Admits(books(docs), windows, inv.terms.satsRequested, at)
  }

  /** The customer's creates would pass the check; ticks come after the creation of what they judge. */
  ghost predicate Ready(books: Books, s: System, a: Action, custId: string, windows: seq<RateWindow>)
    requires Enabled(s, a)
  {
    match a
    case Create(inv) => inv.custId == Some(custId) ==> exists at :: AdmittedAt(books, s.docs, inv, windows, at)
    case Judge(task, _, _, now) => now >= s.pending[task].snap.createdAt
    case _ => true
  }

  /** The payments are what they should be, up to a time. */
  ghost predicate BooksOk(paid: seq<Payment>, w: RateWindow, clock: Time) {
    L.NonNegative(paid) && L.Capped(paid, w) && forall p :: p in paid ==> p.at <= clock
  }

  /** The open invoice was accepted after all that is credited, and fits. */
  ghost predicate Fits(paid: seq<Payment>, w: RateWindow, inv: Invoice) {
    && inv.terms.satsRequested >= 0 && (forall p :: p in paid ==> p.at <= inv.createdAt)
    && Used(paid, w, inv.createdAt) + inv.terms.satsRequested <= w.sats
  }

  /** A task's snapshot is of this document, and it judged it after it was created. */
  ghost predicate Dated(p: Pending, docs: Docs, clock: Time) {
    && p.snap.id in docs && docs[p.snap.id].createdAt == p.snap.createdAt
    && (p.Decided? ==> p.snap.createdAt <= p.now <= clock)
  }

  ghost predicate AllDated(pending: map<nat, Pending>, docs: Docs, clock: Time) {
    forall task :: task in pending ==> Dated(pending[task], docs, clock)
  }

  ghost predicate AllFit(books: Books, docs: Docs, custId: string, w: RateWindow) {
    forall id :: id in docs && OpenFor(docs[id], custId) ==> Fits(books(docs), w, docs[id])
  }

  ghost predicate LimitsOk(books: Books, s: System, custId: string, w: RateWindow) {
    BooksOk(books(s.docs), w, s.clock) && AllFit(books, s.docs, custId, w) && AllDated(s.pending, s.docs, s.clock)
  }

  lemma BooksPermute(a: seq<Payment>, b: seq<Payment>, w: RateWindow, clock: Time, later: Time)
    requires multiset(a) == multiset(b) && BooksOk(a, w, clock) && clock <= later
    ensures BooksOk(b, w, later)
  {
    CapPermutes(a, b, w);
    PermutationMembers(a, b);
  }

  lemma FitsPermutes(a: seq<Payment>, b: seq<Payment>, w: RateWindow, inv: Invoice, later: Invoice)
    requires multiset(a) == multiset(b) && Fits(a, w, inv)
    requires later.terms == inv.terms && later.createdAt == inv.createdAt
    ensures Fits(b, w, later)
  {
    PermutationMembers(a, b);
    L.UsedPermutes(a, b, w, inv.createdAt);
  }

  // ---------- one step ----------

  /** A write that credits nothing and opens nothing. */
  lemma QuietWrite(books: Books, docs: Docs, id: Id, inv: Invoice, custId: string, w: RateWindow, clock: Time)
    requires Additive(books, custId) && id in docs && PaymentOf(inv, custId) == PaymentOf(docs[id], custId)
    requires inv.terms == docs[id].terms && inv.createdAt == docs[id].createdAt
    requires OpenFor(inv, custId) ==> OpenFor(docs[id], custId)
    requires BooksOk(books(docs), w, clock) && AllFit(books, docs, custId, w)
    ensures BooksOk(books(docs[id := inv]), w, clock) && AllFit(books, docs[id := inv], custId, w)
  {
    var after := docs[id := inv];
    BooksUnchanged(books, docs, id, inv, custId);
    BooksPermute(books(docs), books(after), w, clock, clock);
    forall x | x in after && OpenFor(after[x], custId) ensures Fits(books(after), w, after[x]) {
      FitsPermutes(books(docs), books(after), w, docs[x], after[x]);
    }
  }

  /** The write that credits the customer's open invoice. */
  lemma CreditWrite(books: Books, docs: Docs, id: Id, inv: Invoice, custId: string, w: RateWindow, now: Time,
                    clock: Time)
    requires Additive(books, custId)
    requires id in docs && OpenFor(docs[id], custId) && OneOpen(docs, custId) && !OpenFor(inv, custId)
    requires PaymentOf(inv, custId) == [Payment(now, docs[id].terms.satsRequested)]
    requires docs[id].createdAt <= now <= clock
    requires BooksOk(books(docs), w, clock) && Fits(books(docs), w, docs[id])
    ensures BooksOk(books(docs[id := inv]), w, clock) && AllFit(books, docs[id := inv], custId, w)
  {
    var after, paid, sats := docs[id := inv], books(docs), docs[id].terms.satsRequested;
    var p := Payment(now, sats);
    L.CreditKeepsCap(L.Ledger(paid, [sats], docs[id].createdAt), w, now, sats);
    BooksGain(books, docs, id, inv, custId, p);
    assert BooksOk(paid + [p], w, clock);
    BooksPermute(paid + [p], books(after), w, clock, clock);
    assert forall x :: x in after ==> !OpenFor(after[x], custId);
  }

  /** What a write of the protocol does to the payment and the openness of its document. */
  lemma WriteKinds(p: Pending, docs: Docs, custId: string, inv: Invoice)
    requires p.Decided? && AllConsistent(docs) && Follows(p, docs)
    requires docs[p.snap.id].state in Allowed(p.snap.state, DecisionOf(p).state)
    requires inv == Written(docs[p.snap.id], DecisionOf(p), p.now)
    ensures var was := docs[p.snap.id];
      && inv.terms == was.terms && inv.createdAt == was.createdAt && inv.custId == was.custId
      && (OpenFor(inv, custId) ==> OpenFor(was, custId))
      && (|| PaymentOf(inv, custId) == PaymentOf(was, custId)
          || (OpenFor(was, custId) && !OpenFor(inv, custId)
              && PaymentOf(inv, custId) == [Payment(p.now, was.terms.satsRequested)]))
  {
    PersistStep(p, docs[p.snap.id]);
    SettledNow(p.snap, p.utxos, p.dust, p.now);
  }

  lemma SettledNow(snap: Invoice, utxos: seq<Utxo>, dust: int, now: Time)
    ensures var d := DecideFor(snap, utxos, dust, now);
      d.state in {Settled, Overpaid} ==> d.settledAt == Some(now)
  {
    var outputs := Evaluated(snap, utxos, dust, now);
    SettledByDecision(snap.state, now, snap.terms, outputs);
  }

  lemma SettledByDecision(state: InvoiceState, now: Time, t: Terms, outputs: seq<Output>)
    ensures var d := Decide(state, now, t, outputs, state == Canceled);
      d.state in {Settled, Overpaid} ==> d.settledAt == Some(now)
  {
  }

  lemma PersistKeepsLimits(books: Books, s: System, task: nat, custId: string, w: RateWindow)
    requires Additive(books, custId) && Inv(s) && Enabled(s, Persist(task))
    requires OneOpen(s.docs, custId) && LimitsOk(books, s, custId, w)
    ensures LimitsOk(books, After(s, Persist(task)), custId, w)
  {
    var p := s.pending[task];
    var d := DecisionOf(p);
    assert Follows(p, s.docs) && Dated(p, s.docs, s.clock);
    if s.docs[p.snap.id].state in Allowed(p.snap.state, d.state) {
      var inv := Written(s.docs[p.snap.id], d, p.now);
      WriteKinds(p, s.docs, custId, inv);
      if PaymentOf(inv, custId) == PaymentOf(s.docs[p.snap.id], custId) {
        QuietWrite(books, s.docs, p.snap.id, inv, custId, w, s.clock);
      } else {
        CreditWrite(books, s.docs, p.snap.id, inv, custId, w, p.now, s.clock);
      }
      DatesStay(s.pending, s.docs, p.snap.id, inv, s.clock, task);
    }
  }

  lemma DatesStay(pending: map<nat, Pending>, docs: Docs, id: Id, inv: Invoice, clock: Time, task: nat)
    requires AllDated(pending, docs, clock) && id in docs && inv.createdAt == docs[id].createdAt
    ensures AllDated(pending, docs[id := inv], clock) && AllDated(pending - {task}, docs[id := inv], clock)
  {
    forall t | t in pending ensures Dated(pending[t], docs[id := inv], clock) {
      assert Dated(pending[t], docs, clock);
    }
  }

  lemma CancelKeepsLimits(books: Books, s: System, id: Id, now: Time, custId: string, w: RateWindow)
    requires Additive(books, custId) && LimitsOk(books, s, custId, w)
    ensures LimitsOk(books, After(s, Cancel(id, now)), custId, w)
  {
    if Cancelable(s.docs, id) {
      var inv := s.docs[id].(state := Canceled, canceledAt := Some(now), updatedAt := now);
      QuietWrite(books, s.docs, id, inv, custId, w, s.clock);
      DatesStay(s.pending, s.docs, id, inv, s.clock, 0);
    }
  }

  /** A window counts no more at a later time, as long as nothing is paid. */
  lemma UsedFalls(paid: seq<Payment>, w: RateWindow, at: Time, later: Time)
    requires L.NonNegative(paid) && at <= later
    ensures Used(paid, w, later) <= Used(paid, w, at)
  {
    SumFilterMonotone(paid, From(Opens(w, later)), From(Opens(w, at)), SatsOf);
  }

  /** A new invoice fits if its request passed the check. */
  lemma CreateFits(books: Books, docs: Docs, inv: Invoice, custId: string, windows: seq<RateWindow>, w: RateWindow,
                   clock: Time)
    requires Additive(books, custId) && inv.id !in docs && IsNew(inv) && w in windows
    requires BooksOk(books(docs), w, clock) && AllFit(books, docs, custId, w)
    requires inv.custId == Some(custId) ==> exists at :: AdmittedAt(books, docs, inv, windows, at)
    ensures BooksOk(books(docs[inv.id := inv]), w, clock) && AllFit(books, docs[inv.id := inv], custId, w)
  {
    var after, paid := docs[inv.id := inv], books(docs);
    BooksUnchanged(books, docs, inv.id, inv, custId);
    BooksPermute(paid, books(after), w, clock, clock);
    forall x | x in after && OpenFor(after[x], custId) ensures Fits(books(after), w, after[x]) {
      if x == inv.id {
        AdmittedFits(books, docs, inv, windows, w);
      }
      FitsPermutes(paid, books(after), w, after[x], after[x]);
    }
  }

  lemma AdmittedFits(books: Books, docs: Docs, inv: Invoice, windows: seq<RateWindow>, w: RateWindow)
    requires w in windows && L.NonNegative(books(docs)) && exists at :: AdmittedAt(books, docs, inv, windows, at)
    ensures Fits(books(docs), w, inv)
  {
    var at :| AdmittedAt(books, docs, inv, windows, at);
    assert !Over(books(docs), w, inv.terms.satsRequested, at);
    UsedFalls(books(docs), w, at, inv.createdAt);
  }

  lemma CreateKeepsLimits(books: Books, s: System, inv: Invoice, custId: string, windows: seq<RateWindow>,
                          w: RateWindow)
    requires Additive(books, custId) && w in windows
    requires Enabled(s, Create(inv)) && Ready(books, s, Create(inv), custId, windows) && LimitsOk(books, s, custId, w)
    ensures LimitsOk(books, After(s, Create(inv)), custId, w)
  {
    CreateFits(books, s.docs, inv, custId, windows, w, s.clock);
    forall t | t in s.pending ensures Dated(s.pending[t], s.docs[inv.id := inv], s.clock) {
      assert Dated(s.pending[t], s.docs, s.clock);
    }
  }

  lemma TasksKeepLimits(books: Books, s: System, a: Action, custId: string, windows: seq<RateWindow>, w: RateWindow)
    requires Inv(s) && Enabled(s, a) && (a.Load? || a.Judge? || a.Drop?) && Ready(books, s, a, custId, windows)
    requires LimitsOk(books, s, custId, w)
    ensures LimitsOk(books, After(s, a), custId, w)
  {
    var s' := After(s, a);
    forall t | t in s'.pending ensures Dated(s'.pending[t], s'.docs, s'.clock) {
      if t in s.pending {
        assert Dated(s.pending[t], s.docs, s.clock);
      }
    }
    BooksPermute(books(s.docs), books(s.docs), w, s.clock, s'.clock);
  }

  lemma StepKeepsLimits(books: Books, s: System, a: Action, custId: string, windows: seq<RateWindow>, w: RateWindow)
    requires Additive(books, custId) && w in windows
    requires Inv(s) && Enabled(s, a) && Ready(books, s, a, custId, windows)
    requires OneOpen(s.docs, custId) && LimitsOk(books, s, custId, w)
    ensures LimitsOk(books, After(s, a), custId, w)
  {
    match a
    case Create(inv) => CreateKeepsLimits(books, s, inv, custId, windows, w);
    case Persist(task) => PersistKeepsLimits(books, s, task, custId, w);
    case Cancel(id, now) => CancelKeepsLimits(books, s, id, now, custId, w);
    case _ => TasksKeepLimits(books, s, a, custId, windows, w);
  }

  // ---------- while nothing is open ----------

  ghost predicate NoneOpen(docs: Docs, custId: string) { forall id :: id in docs ==> !OpenFor(docs[id], custId) }

  /** A customer without open invoices is credited nothing. */
  lemma NothingCredited(books: Books, s: System, a: Action, custId: string)
    requires Additive(books, custId) && Inv(s) && Enabled(s, a) && NoneOpen(s.docs, custId)
    ensures multiset(books(After(s, a).docs)) == multiset(books(s.docs))
  {
    match a
    case Create(inv) => BooksUnchanged(books, s.docs, inv.id, inv, custId);
    case Persist(task) => NothingWritten(books, s.docs, s.pending[task], custId);
    case Cancel(id, now) =>
      if Cancelable(s.docs, id) {
        BooksUnchanged(books, s.docs, id, CanceledIn(s.docs, id, now)[id], custId);
      }
    case _ =>
  }

  lemma NothingWritten(books: Books, docs: Docs, p: Pending, custId: string)
    requires Additive(books, custId) && AllConsistent(docs) && p.Decided? && Follows(p, docs) && NoneOpen(docs, custId)
    ensures multiset(books(Persisted(docs, p.snap, DecisionOf(p), p.now))) == multiset(books(docs))
  {
    if docs[p.snap.id].state in Allowed(p.snap.state, DecisionOf(p).state) {
      var inv := Written(docs[p.snap.id], DecisionOf(p), p.now);
      WriteKinds(p, docs, custId, inv);
      BooksUnchanged(books, docs, p.snap.id, inv, custId);
    }
  }

  ghost predicate NoneOpenAt(trace: seq<System>, custId: string, n: nat)
    requires n < |trace|
  {
    NoneOpen(trace[n].docs, custId)
  }

  lemma {:induction false} NothingCreditedSince(books: Books, trace: seq<System>, acts: seq<Action>, custId: string,
                                                j: nat, i: nat)
    requires Additive(books, custId) && Run(trace, acts) && j <= i < |trace|
    requires forall n :: j <= n < i ==> NoneOpenAt(trace, custId, n)
    ensures multiset(books(trace[i].docs)) == multiset(books(trace[j].docs))
    decreases i
  {
    if j < i {
      NothingCreditedSince(books, trace, acts, custId, j, i - 1);
      RunKeeps(trace, acts, i - 1);
      assert Taken(trace, acts, i - 1) && NoneOpenAt(trace, custId, i - 1);
      NothingCredited(books, trace[i - 1], acts[i - 1], custId);
    }
  }

  // ---------- whole runs ----------

  /** When the request behind an action was checked: on which state of the run, and at what time. */
  datatype Checked = Checked(state: nat, at: Time)

  predicate IsRequest(a: Action, custId: string) { a.Create? && a.inv.custId == Some(custId) }

  /**
   * The request of the i-th action, if it creates an invoice of the customer, passed the check on an earlier state, at
   * a time no earlier than what the watcher had read then. Anything may happen between the check and the insert.
   */
  ghost predicate CheckedAt(books: Books, trace: seq<System>, acts: seq<Action>, checks: seq<Checked>, custId: string,
                            windows: seq<RateWindow>, i: nat)
    requires i < |acts| == |checks| && |trace| == |acts| + 1
  {
    && Taken(trace, acts, i)
    && (acts[i].Judge? ==> acts[i].now >= trace[i].pending[acts[i].task].snap.createdAt)
    && (IsRequest(acts[i], custId) ==>
      var c, inv := checks[i], acts[i].inv;
      && c.state <= i && trace[c.state].clock <= c.at <= inv.createdAt && inv.terms.satsRequested >= 0
      && L.Admits(books(trace[c.state].docs), windows, inv.terms.satsRequested, c.at))
  }

  ghost predicate AllChecked(books: Books, trace: seq<System>, acts: seq<Action>, checks: seq<Checked>,
                             custId: string, windows: seq<RateWindow>) {
    && Run(trace, acts) && |checks| == |acts|
    && forall i :: 0 <= i < |acts| ==> CheckedAt(books, trace, acts, checks, custId, windows, i)
  }

  /** A run in which the requests behind the customer's invoices pass the check. */
  ghost predicate CheckedRun(trace: seq<System>, acts: seq<Action>, checks: seq<Checked>, custId: string,
                             windows: seq<RateWindow>) {
    AllChecked(BooksOf(custId), trace, acts, checks, custId, windows)
  }

  /** The requests checked by the n-th state and not yet inserted. */
  ghost function InFlight(acts: seq<Action>, checks: seq<Checked>, custId: string, n: nat): set<nat>
    requires |checks| == |acts|
  {
    set i: nat | n <= i < |acts| && IsRequest(acts[i], custId) && checks[i].state <= n
  }

  ghost predicate OutstandingAt(trace: seq<System>, acts: seq<Action>, checks: seq<Checked>, custId: string, k: nat,
                                n: nat)
    requires n < |trace| && |checks| == |acts|
  {
    |OpenIds(trace[n].docs, custId)| + |InFlight(acts, checks, custId, n)| <= k
  }

  /** The customer never has more than k requests outstanding, open or in flight. */
  ghost predicate AtMost(trace: seq<System>, acts: seq<Action>, checks: seq<Checked>, custId: string, k: nat)
    requires |checks| == |acts|
  {
    forall n :: 0 <= n < |trace| ==> OutstandingAt(trace, acts, checks, custId, k, n)
  }

  lemma NothingYet(books: Books, s: System, custId: string, w: RateWindow)
    requires Additive(books, custId) && s.docs == map[] && s.pending == map[] && w.sats >= 0
    ensures LimitsOk(books, s, custId, w)
  {
    assert books(s.docs) == [];
  }

  lemma OneOutstanding(trace: seq<System>, acts: seq<Action>, checks: seq<Checked>, custId: string, n: nat)
    requires n < |trace| && |checks| == |acts| && OutstandingAt(trace, acts, checks, custId, 1, n)
    ensures OneOpen(trace[n].docs, custId)
    ensures InFlight(acts, checks, custId, n) != {} ==> NoneOpenAt(trace, custId, n)
  {
    var ids := OpenIds(trace[n].docs, custId);
    var docs := trace[n].docs;
    forall a, b | a in docs && b in docs && OpenFor(docs[a], custId) && OpenFor(docs[b], custId) ensures a == b {
      assert a in ids && b in ids;
      if a != b {
        AtLeastTwo(ids, a, b);
      }
    }
    if InFlight(acts, checks, custId, n) != {} {
      assert ids == {};
      assert forall id :: id in docs && OpenFor(docs[id], custId) ==> id in ids;
    }
  }

  lemma AtLeastTwo(ids: set<Id>, a: Id, b: Id)
    requires a in ids && b in ids && a != b
    ensures |ids| >= 2
  {
    assert ids == {a, b} + (ids - {a, b});
  }

  /** From its check to its insert a lone request finds the same payments. */
  lemma StillAdmitted(books: Books, trace: seq<System>, acts: seq<Action>, checks: seq<Checked>, custId: string,
                      windows: seq<RateWindow>, w: RateWindow, i: nat)
    requires Additive(books, custId) && AllChecked(books, trace, acts, checks, custId, windows) && i < |acts|
    requires AtMost(trace, acts, checks, custId, 1) && IsRequest(acts[i], custId) && checks[i].state <= i
    requires LimitsOk(books, trace[checks[i].state], custId, w)
    ensures AdmittedAt(books, trace[i].docs, acts[i].inv, windows, checks[i].at)
  {
    var c, sats := checks[i], acts[i].inv.terms.satsRequested;
    assert CheckedAt(books, trace, acts, checks, custId, windows, i);
    forall n | c.state <= n < i ensures NoneOpenAt(trace, custId, n) {
      assert i in InFlight(acts, checks, custId, n) && OutstandingAt(trace, acts, checks, custId, 1, n);
      OneOutstanding(trace, acts, checks, custId, n);
    }
    NothingCreditedSince(books, trace, acts, custId, c.state, i);
    var before, paid := books(trace[c.state].docs), books(trace[i].docs);
    PermutationMembers(before, paid);
    forall v | v in windows ensures !Over(paid, v, sats, c.at) {
      assert !Over(before, v, sats, c.at);
      L.UsedPermutes(before, paid, v, c.at);
    }
  }

  lemma CheckedStep(books: Books, trace: seq<System>, acts: seq<Action>, checks: seq<Checked>, custId: string,
                    windows: seq<RateWindow>, w: RateWindow, i: nat)
    requires Additive(books, custId) && AllChecked(books, trace, acts, checks, custId, windows) && i < |acts|
    requires AtMost(trace, acts, checks, custId, 1) && w in windows && LimitsOk(books, trace[i], custId, w)
    requires IsRequest(acts[i], custId) ==> AdmittedAt(books, trace[i].docs, acts[i].inv, windows, checks[i].at)
    ensures LimitsOk(books, trace[i + 1], custId, w)
  {
    assert CheckedAt(books, trace, acts, checks, custId, windows, i);
    assert OutstandingAt(trace, acts, checks, custId, 1, i);
    OneOutstanding(trace, acts, checks, custId, i);
    RunKeeps(trace, acts, i);
    StepKeepsLimits(books, trace[i], acts[i], custId, windows, w);
  }

  lemma {:induction false} CheckedRunKeeps(books: Books, trace: seq<System>, acts: seq<Action>, checks: seq<Checked>,
                                           custId: string, windows: seq<RateWindow>, w: RateWindow, i: nat)
    requires Additive(books, custId) && AllChecked(books, trace, acts, checks, custId, windows) && i < |trace|
    requires AtMost(trace, acts, checks, custId, 1) && w in windows && w.sats >= 0
    ensures LimitsOk(books, trace[i], custId, w)
    decreases i
  {
    if i == 0 {
      NothingYet(books, trace[0], custId, w);
    } else {
      CheckedRunKeeps(books, trace, acts, checks, custId, windows, w, i - 1);
      if IsRequest(acts[i - 1], custId) {
        assert CheckedAt(books, trace, acts, checks, custId, windows, i - 1);
        CheckedRunKeeps(books, trace, acts, checks, custId, windows, w, checks[i - 1].state);
        StillAdmitted(books, trace, acts, checks, custId, windows, w, i - 1);
      }
      CheckedStep(books, trace, acts, checks, custId, windows, w, i - 1);
    }
  }

  /** While no two invoices are open, the ledger of such a state satisfies the invariant of the ledger runs. */
  lemma LedgerIsOk(books: Books, s: System, custId: string, w: RateWindow)
    requires books == BooksOf(custId) && LimitsOk(books, s, custId, w)
    ensures L.LedgerOk(LedgerOf(s, custId), w)
  {
    assert books(s.docs) == Paid(s.docs, custId);
    var ids := OpenIds(s.docs, custId);
    if ids != {} {
      assert Fits(books(s.docs), w, s.docs[AnyOf(ids)]);
    }
  }

  /**
   * Over any run of the protocol, with any watchers and cancels, in which the customer's requests pass the check and at
   * most one is outstanding, from its check to the end of its invoice: the stored credits never exceed a window's limit
   * in any interval of its length, and the stored documents make a ledger that satisfies the invariant of ledger runs.
   */
  lemma CustomerStaysWithinLimits(trace: seq<System>, acts: seq<Action>, checks: seq<Checked>, custId: string,
                                  windows: seq<RateWindow>, w: RateWindow, i: nat)
    requires CheckedRun(trace, acts, checks, custId, windows) && AtMost(trace, acts, checks, custId, 1)
    requires i < |trace| && w in windows && w.sats >= 0
    ensures CreditsWithin(trace[i].docs, custId, w) && L.LedgerOk(LedgerOf(trace[i], custId), w)
  {
    var books := BooksOf(custId);
    PaidIsAdditive(custId);
    CheckedRunKeeps(books, trace, acts, checks, custId, windows, w, i);
    LedgerIsOk(books, trace[i], custId, w);
    assert books(trace[i].docs) == Paid(trace[i].docs, custId);
    RunKeeps(trace, acts, i);
    CappedExactlyWhen(trace[i].docs, custId, w);
  }

  // ---------- two outstanding requests ----------

  /** The id-th of two invoices for all of the limit, quoted what one whole DASH amounts to. */
  function Bought(id: nat, custId: string, sats: int): Invoice {
    Invoice(id, if id == 1 then "one" else "two", Some(custId), Address(Mainnet, "xpub", id), 100, "1", 0,
      Terms(100, 200, ToDuffs(Decimal.Dec(1, 0)), sats, Policy(None, None, None, None)),
      Open, None, None, None, None, 0, None, false, [], None, 0)
  }

  function Coin(id: nat): Utxo {
    Utxo(Some(Address(Mainnet, "xpub", id)), Outpoint("tx", id), Decimal.Dec(1, 0), 1, true, true)
  }

  /** An invoice whose one payment of the quote is judged and written. */
  lemma PaymentWritten(id: nat, custId: string, sats: int) returns (after: Invoice)
    ensures after == Written(Bought(id, custId, sats), DecideFor(Bought(id, custId, sats), [Coin(id)], 0, 1), 1)
    ensures DecideFor(Bought(id, custId, sats), [Coin(id)], 0, 1).state == Settled
    ensures PaymentOf(after, custId) == [Payment(1, sats)]
  {
    WatcherLaws.PaymentSettles(Bought(id, custId, sats), Coin(id), 0, 1, ToDuffs(Decimal.Dec(1, 0)));
    after := Written(Bought(id, custId, sats), DecideFor(Bought(id, custId, sats), [Coin(id)], 0, 1), 1);
  }

  /** A judging step comes after the creation of what it judges; nothing is created. */
  ghost predicate Working(trace: seq<System>, acts: seq<Action>, i: nat)
    requires i < |acts| && |trace| == |acts| + 1
  {
    && !acts[i].Create?
    && (acts[i].Judge? ==>
      acts[i].task in trace[i].pending && acts[i].now >= trace[i].pending[acts[i].task].snap.createdAt)
  }

  lemma ReadAndJudge(trace: seq<System>, acts: seq<Action>, snap: Invoice, utxos: seq<Utxo>, docs: Docs)
      returns (longer: seq<System>, more: seq<Action>)
    requires Run(trace, acts) && trace[|acts|].pending == map[] && trace[|acts|].docs == docs
    requires snap.id in docs && docs[snap.id] == snap && snap.state == Open && snap.sweptAt.None? && snap.createdAt <= 1
    requires DistinctOutpoints(utxos)
    ensures Run(longer, more) && trace <= longer && acts <= more && |more| == |acts| + 2
    ensures Working(longer, more, |acts|) && Working(longer, more, |acts| + 1)
    ensures longer[|acts| + 1].docs == longer[|acts| + 2].docs == docs
    ensures longer[|acts| + 2].pending == map[0 := Decided(snap, utxos, 0, 1)]
  {
    longer := ExtendRun(trace, acts, Load(0, snap.id));
    more := acts + [Load(0, snap.id)];
    longer := ExtendRun(longer, more, Judge(0, utxos, 0, 1));
    more := more + [Judge(0, utxos, 0, 1)];
  }

  lemma WriteBack(trace: seq<System>, acts: seq<Action>, p: Pending, d: Decision, docs: Docs)
      returns (longer: seq<System>, more: seq<Action>)
    requires Run(trace, acts) && p.Decided? && trace[|acts|].pending == map[0 := p] && trace[|acts|].docs == docs
    requires p.snap.id in docs && docs[p.snap.id].state == Open && d == DecisionOf(p) && d.state == Settled
    ensures Run(longer, more) && trace <= longer && acts <= more && |more| == |acts| + 1
    ensures Working(longer, more, |acts|)
    ensures longer[|acts| + 1].pending == map[]
    ensures longer[|acts| + 1].docs == docs[p.snap.id := Written(docs[p.snap.id], d, p.now)]
  {
    longer := ExtendRun(trace, acts, Persist(0));
    more := acts + [Persist(0)];
    assert map[0 := p] - {0} == map[];
  }

  /** A stretch of a run that creates nothing and has these documents all along. */
  ghost predicate Stretch(trace: seq<System>, acts: seq<Action>, from: nat, ids: set<Id>)
    requires from <= |acts| && |trace| == |acts| + 1
  {
    && (forall i :: from <= i < |acts| ==> Working(trace, acts, i))
    && (forall n :: from <= n <= |acts| ==> trace[n].docs.Keys == ids)
  }

  /** One invoice read, judged on its payment, and written. */
  lemma PayOne(trace: seq<System>, acts: seq<Action>, id: nat, custId: string, sats: int, docs: Docs, inv: Invoice)
      returns (longer: seq<System>, more: seq<Action>, after: Invoice)
    requires Run(trace, acts) && trace[|acts|].pending == map[] && trace[|acts|].docs == docs
    requires id in docs && docs[id] == inv == Bought(id, custId, sats)
    ensures Run(longer, more) && trace <= longer && acts <= more && |more| == |acts| + 3
    ensures Stretch(longer, more, |acts|, docs.Keys)
    ensures longer[|more|].pending == map[] && longer[|more|].docs == docs[id := after]
    ensures PaymentOf(after, custId) == [Payment(1, sats)]
  {
    after := PaymentWritten(id, custId, sats);
    var p := Decided(inv, [Coin(id)], 0, 1);
    var judged, judging := ReadAndJudge(trace, acts, inv, p.utxos, docs);
    longer, more := WriteBack(judged, judging, p, DecisionOf(p), docs);
    Joined(judged, judging, longer, more, |acts|, docs.Keys);
    assert trace[|acts|] == longer[|acts|];
  }

  lemma Joined(judged: seq<System>, judging: seq<Action>, longer: seq<System>, more: seq<Action>, from: nat,
               ids: set<Id>)
    requires |judged| == |judging| + 1 && |longer| == |more| + 1 && judged <= longer && judging <= more
    requires |judging| == from + 2 && |more| == from + 3
    requires Working(judged, judging, from) && Working(judged, judging, from + 1) && Working(longer, more, from + 2)
    requires judged[from].docs.Keys == judged[from + 1].docs.Keys == judged[from + 2].docs.Keys == ids
    requires longer[from + 3].docs.Keys == ids
    ensures Stretch(longer, more, from, ids)
  {
    forall i | from <= i < |more| ensures Working(longer, more, i) {
      if i < from + 2 {
        assert Working(judged, judging, i) && longer[i] == judged[i] && more[i] == judging[i];
      }
    }
    forall n | from <= n <= |more| ensures longer[n].docs.Keys == ids {
      if n <= from + 2 {
        assert longer[n] == judged[n];
      }
    }
  }

  lemma BothCreated(custId: string, sats: int) returns (trace: seq<System>, acts: seq<Action>)
    ensures Run(trace, acts) && acts == [Create(Bought(1, custId, sats)), Create(Bought(2, custId, sats))]
    ensures trace[0] == System(map[], map[], 0) && trace[1] == System(map[1 := Bought(1, custId, sats)], map[], 0)
    ensures trace[2] == System(map[1 := Bought(1, custId, sats), 2 := Bought(2, custId, sats)], map[], 0)
  {
    trace, acts := [System(map[], map[], 0)], [];
    trace := ExtendRun(trace, acts, Create(Bought(1, custId, sats)));
    acts := acts + [Create(Bought(1, custId, sats))];
    trace := ExtendRun(trace, acts, Create(Bought(2, custId, sats)));
    acts := acts + [Create(Bought(2, custId, sats))];
  }

  /** Two invoices created one after the other, then worked on. */
  ghost predicate TwoPurchases(trace: seq<System>, acts: seq<Action>, x: nat, y: nat, a: Invoice, b: Invoice) {
    && Run(trace, acts) && |acts| == 8 && acts[0] == Create(a) && acts[1] == Create(b)
    && trace[0] == System(map[], map[], 0) && trace[1] == System(map[x := a], map[], 0)
    && Stretch(trace, acts, 2, {x, y})
  }

  lemma BothPaid(custId: string, sats: int)
      returns (trace: seq<System>, acts: seq<Action>, a: Invoice, b: Invoice, c: Invoice, d: Invoice)
    ensures a == Bought(1, custId, sats) && b == Bought(2, custId, sats) && TwoPurchases(trace, acts, 1, 2, a, b)
    ensures trace[8].docs == map[1 := c, 2 := d]
    ensures PaymentOf(c, custId) == PaymentOf(d, custId) == [Payment(1, sats)]
  {
    a, b := Bought(1, custId, sats), Bought(2, custId, sats);
    var two, created := BothCreated(custId, sats);
    trace, acts, c, d := PayBoth(two, created, 1, 2, a, b, custId, sats);
  }

  lemma PayBoth(two: seq<System>, created: seq<Action>, x: nat, y: nat, a: Invoice, b: Invoice, custId: string,
                sats: int)
      returns (trace: seq<System>, acts: seq<Action>, c: Invoice, d: Invoice)
    requires Run(two, created) && created == [Create(a), Create(b)] && x != y
    requires a == Bought(x, custId, sats) && b == Bought(y, custId, sats)
    requires two[0] == System(map[], map[], 0) && two[1] == System(map[x := a], map[], 0)
    requires two[2] == System(map[x := a, y := b], map[], 0)
    ensures TwoPurchases(trace, acts, x, y, a, b) && trace[8].docs == map[x := c, y := d]
    ensures PaymentOf(c, custId) == PaymentOf(d, custId) == [Payment(1, sats)]
  {
    var five, first;
    assert (map[x := a, y := b]).Keys == {x, y};
    five, first, c := PayOne(two, created, x, custId, sats, map[x := a, y := b], a);
    var docs := map[x := c, y := b];
    assert (map[x := a, y := b])[x := c] == docs && docs.Keys == {x, y};
    trace, acts, d := PayOne(five, first, y, custId, sats, docs, b);
    assert docs[y := d] == map[x := c, y := d];
    Spliced(two, created, five, first, trace, acts, x, y, a, b);
  }

  lemma Spliced(two: seq<System>, created: seq<Action>, five: seq<System>, first: seq<Action>, trace: seq<System>,
                acts: seq<Action>, x: nat, y: nat, a: Invoice, b: Invoice)
    requires Run(trace, acts) && two <= five <= trace && created <= first <= acts
    requires |created| == 2 && |first| == 5 && |acts| == 8 && |two| == 3 && |five| == 6
    requires created == [Create(a), Create(b)]
    requires two[0] == System(map[], map[], 0) && two[1] == System(map[x := a], map[], 0)
    requires |trace| == 9 && Stretch(five, first, 2, {x, y}) && Stretch(trace, acts, 5, {x, y})
    ensures TwoPurchases(trace, acts, x, y, a, b)
  {
    assert acts[0] == created[0] && acts[1] == created[1] && trace[0] == two[0] && trace[1] == two[1];
    forall n | 2 <= n <= 8 ensures trace[n].docs.Keys == {x, y} {
      if n <= 5 {
        assert trace[n] == five[n];
      }
    }
    forall i | 2 <= i < 8 ensures Working(trace, acts, i) {
      if i < 5 {
        assert Working(five, first, i) && trace[i] == five[i] && acts[i] == first[i];
      }
    }
  }

  /** Both requests are checked right before they are inserted. */
  function CheckedAtOnce(): (checks: seq<Checked>)
    ensures |checks| == 8 && forall i :: 0 <= i < 8 ==> checks[i] == Checked(if i == 1 then 1 else 0, 0)
  {
    seq(8, i => Checked(if i == 1 then 1 else 0, 0))
  }

  lemma NothingPaidYet(books: Books, custId: string, x: nat, a: Invoice, windows: seq<RateWindow>, sats: int)
    requires Additive(books, custId) && IsNew(a) && forall v :: v in windows ==> sats <= v.sats
    ensures L.Admits(books(map[]), windows, sats, 0) && L.Admits(books(map[x := a]), windows, sats, 0)
  {
    BooksUnchanged(books, map[], x, a, custId);
    assert books(map[x := a]) == [];
    forall v | v in windows ensures !Over([], v, sats, 0) {
      L.NothingPaid(v, sats, 0);
    }
  }

  lemma BothAdmitted(books: Books, trace: seq<System>, acts: seq<Action>, x: nat, y: nat, a: Invoice, b: Invoice,
                     custId: string, windows: seq<RateWindow>, sats: nat)
    requires Additive(books, custId) && TwoPurchases(trace, acts, x, y, a, b)
    requires IsNew(a) && a.createdAt == 0 && a.terms.satsRequested == sats
    requires b.createdAt == 0 && b.terms.satsRequested == sats
    requires forall v :: v in windows ==> sats <= v.sats
    ensures AllChecked(books, trace, acts, CheckedAtOnce(), custId, windows)
  {
    NothingPaidYet(books, custId, x, a, windows, sats);
    forall i | 0 <= i < 8 ensures CheckedAt(books, trace, acts, CheckedAtOnce(), custId, windows, i) {
      assert Taken(trace, acts, i);
      assert i >= 2 ==> Working(trace, acts, i);
    }
  }

  lemma SizeAtMost<T>(some: set<T>, all: set<T>, n: nat)
    requires some <= all && |all| <= n
    ensures |some| <= n
  {
    assert all == some + (all - some);
  }

  lemma TwoAtMost(trace: seq<System>, acts: seq<Action>, x: nat, y: nat, a: Invoice, b: Invoice, custId: string, k: nat)
    requires TwoPurchases(trace, acts, x, y, a, b) && k >= 2
    ensures AtMost(trace, acts, CheckedAtOnce(), custId, k)
  {
    forall n | 0 <= n < |trace| ensures OutstandingAt(trace, acts, CheckedAtOnce(), custId, k, n) {
      var open, flying := OpenIds(trace[n].docs, custId), InFlight(acts, CheckedAtOnce(), custId, n);
      forall i | i in flying ensures i == n < 2 {
        assert i >= 2 ==> Working(trace, acts, i);
      }
      if n < 2 {
        SizeAtMost(flying, {n}, 1);
        SizeAtMost(open, if n == 0 then {} else {x as Id}, n);
      } else {
        assert flying == {};
        SizeAtMost(open, {x as Id, y as Id}, 2);
      }
    }
  }

  lemma BothCredited(books: Books, custId: string, x: nat, y: nat, c: Invoice, d: Invoice, w: RateWindow, sats: nat)
    requires Additive(books, custId) && x != y && w.hours >= 0 && 0 < w.sats == sats
    requires PaymentOf(c, custId) == PaymentOf(d, custId) == [Payment(1, sats)]
    ensures !L.Capped(books(map[x := c, y := d]), w)
  {
    var one, both: Docs := map[x := c], map[x := c, y := d];
    var p := Payment(1, sats);
    assert both - {y} == one && one - {x} == map[];
    assert AddsAt(books, custId, both, y) && AddsAt(books, custId, one, x);
    assert multiset(books(both)) == multiset([p, p]);
    L.TwoPayments(w, [p, p], sats);
    assert L.CreditedIn([p, p], w, 1) > w.sats;
    if L.Capped(books(both), w) {
      CapPermutes(books(both), [p, p], w);
    }
  }

  /**
   * Whatever the windows: a run on stored documents in which a customer's two requests for all of the strictest limit
   * pass the check, and both are credited. Never more than two are outstanding.
   */
  lemma TwoPurchasesExceed(windows: seq<RateWindow>, w: RateWindow, custId: string, k: nat)
      returns (trace: seq<System>, acts: seq<Action>, checks: seq<Checked>)
    requires w in windows && w.sats > 0 && w.hours >= 0 && (forall v :: v in windows ==> w.sats <= v.sats) && k >= 2
    ensures CheckedRun(trace, acts, checks, custId, windows) && AtMost(trace, acts, checks, custId, k)
    ensures !CreditsWithin(trace[|acts|].docs, custId, w)
  {
    var sats: nat := w.sats;
    var a, b, c, d;
    trace, acts, a, b, c, d := BothPaid(custId, sats);
    checks := CheckedAtOnce();
    PaidIsAdditive(custId);
    BothAdmitted(BooksOf(custId), trace, acts, 1, 2, a, b, custId, windows, sats);
    TwoAtMost(trace, acts, 1, 2, a, b, custId, k);
    BothCredited(BooksOf(custId), custId, 1, 2, c, d, w, sats);
    RunKeeps(trace, acts, |acts|);
    CappedExactlyWhen(trace[|acts|].docs, custId, w);
  }

  ghost predicate PaidWithin(trace: seq<System>, custId: string, windows: seq<RateWindow>) {
    forall i, w :: 0 <= i < |trace| && w in windows ==> CreditsWithin(trace[i].docs, custId, w)
  }

  /** Every run of checked requests with at most k outstanding keeps the customer's limits. */
  ghost predicate CustomerLimitsKept(windows: seq<RateWindow>, custId: string, k: nat) {
    forall trace: seq<System>, acts: seq<Action>, checks: seq<Checked> ::
      CheckedRun(trace, acts, checks, custId, windows) && AtMost(trace, acts, checks, custId, k) ==>
      PaidWithin(trace, custId, windows)
  }

  /** Whatever the windows, stored credits stay within them exactly with at most one outstanding request. */
  lemma CustomerLimitsKeptExactlyWhen(windows: seq<RateWindow>, custId: string, k: nat)
    requires windows != [] && L.Positive(windows)
    ensures CustomerLimitsKept(windows, custId, k) <==> k <= 1
  {
    if k <= 1 {
      forall trace: seq<System>, acts: seq<Action>, checks: seq<Checked>
        | CheckedRun(trace, acts, checks, custId, windows) && AtMost(trace, acts, checks, custId, k)
        ensures PaidWithin(trace, custId, windows)
      {
        OnePaysWithin(trace, acts, checks, custId, windows, k);
      }
    } else {
      var w := L.StrictestWindow(windows);
      var trace, acts, checks := TwoPurchasesExceed(windows, w, custId, k);
      assert !PaidWithin(trace, custId, windows);
    }
  }

  lemma OnePaysWithin(trace: seq<System>, acts: seq<Action>, checks: seq<Checked>, custId: string,
                      windows: seq<RateWindow>, k: nat)
    requires CheckedRun(trace, acts, checks, custId, windows) && AtMost(trace, acts, checks, custId, k) && k <= 1
    requires L.Positive(windows)
    ensures PaidWithin(trace, custId, windows)
  {
    forall n | 0 <= n < |trace| ensures OutstandingAt(trace, acts, checks, custId, 1, n) {
      assert OutstandingAt(trace, acts, checks, custId, k, n);
    }
    forall i: nat, w: RateWindow | i < |trace| && w in windows ensures CreditsWithin(trace[i].docs, custId, w) {
      CustomerStaysWithinLimits(trace, acts, checks, custId, windows, w, i);
    }
  }
}
