/** What a tick on its own does to the collection, and how it fits the interleaved protocol. */
module WatcherLaws {
  import opened Base
  import opened Decimal
  import opened Amounts
  import opened Settlement
  import opened SettlementLaws
  import opened Invoices
  import opened Collection
  import Creation
  import opened Protocol
  import opened Watcher

  /** The batch is a snapshot of watched documents, each one once. */
  ghost predicate Snapshot(docs: Docs, batch: seq<Invoice>) {
    && (forall i :: 0 <= i < |batch| ==>
      Watched(batch[i]) && batch[i].id in docs && docs[batch[i].id] == batch[i])
    && (forall i, j :: 0 <= i < j < |batch| ==> batch[i].id != batch[j].id)
  }

  /** Every loaded batch is one. */
  lemma LoadedIsSnapshot(docs: Docs, limit: nat, after: Option<Id>)
    requires KeyedById(docs)
    ensures Snapshot(docs, LoadBatch(docs, limit, after))
  {
    var ids := Rotation.Queried(WatchIds(docs), limit, after);
    var batch := LoadBatch(docs, limit, after);
    QueriedAreStored(docs, limit, after);
    QueriedAscend(WatchIds(docs), limit, after);
    assert forall i :: 0 <= i < |batch| ==> batch[i] == docs[ids[i]] && batch[i].id == ids[i];
  }

  lemma QueriedAscend(watched: seq<Id>, limit: nat, after: Option<Id>)
    requires Rotation.Ascending(watched)
    ensures Rotation.Ascending(Rotation.Queried(watched, limit, after))
  {
    Rotation.FilterIsSuffix(watched, after);
    var listed := watched[Rotation.Position(watched, after)..];
    Rotation.SliceAscends(watched, Rotation.Position(watched, after), |watched|);
    Rotation.SliceAscends(listed, 0, Min(limit, |listed|));
  }

  // ---------- a tick that nothing preempts ----------

  /** What has become of the document at id after k writes of the batch. */
  ghost predicate WrittenBack(docs: Docs, after: Docs, batch: seq<Invoice>, k: nat, raw: seq<Utxo>, judge: Judgement,
                              now: Time)
    requires k <= |batch|
  {
    && after.Keys == docs.Keys
    && (forall i :: 0 <= i < k ==> IsWritten(after, batch[i], raw, judge, now))
    && (forall id :: id in docs && !Among(batch, k, id) ==> after[id] == docs[id])
  }

  /** One of the first k snapshots has this id. */
  predicate Among(batch: seq<Invoice>, k: nat, id: Id)
    requires k <= |batch|
  {
    exists i :: 0 <= i < k && batch[i].id == id
  }

  /** The decision made from this snapshot is what is stored. */
  predicate IsWritten(after: Docs, snap: Invoice, raw: seq<Utxo>, judge: Judgement, now: Time) {
    snap.id in after && after[snap.id] == Written(snap, judge(snap, PaidTo(snap.address, raw)), now)
  }

  lemma OneMoreWritten(docs: Docs, before: Docs, after: Docs, batch: seq<Invoice>, k: nat, raw: seq<Utxo>,
                       judge: Judgement, now: Time, d: Decision)
    requires Snapshot(docs, batch) && k < |batch| && WrittenBack(docs, before, batch, k, raw, judge, now)
    requires d == judge(batch[k], PaidTo(batch[k].address, raw)) && batch[k].state in Allowed(batch[k].state, d.state)
    requires after == Persisted(before, batch[k], d, now)
    ensures WrittenBack(docs, after, batch, k + 1, raw, judge, now)
  {
    var snap := batch[k];
    assert !Among(batch, k, snap.id);
    assert before[snap.id] == snap;
    assert after == before[snap.id := Written(snap, d, now)];
    forall i | 0 <= i < k + 1 ensures IsWritten(after, batch[i], raw, judge, now) {
      if i < k {
        assert IsWritten(before, batch[i], raw, judge, now) && batch[i].id != snap.id;
      }
    }
    OthersStay(docs, before, after, batch, k);
  }

  lemma OthersStay(docs: Docs, before: Docs, after: Docs, batch: seq<Invoice>, k: nat)
    requires k < |batch| && before.Keys == docs.Keys == after.Keys
    requires forall id :: id in before && id != batch[k].id ==> after[id] == before[id]
    requires forall id :: id in docs && !Among(batch, k, id) ==> before[id] == docs[id]
    ensures forall id :: id in docs && !Among(batch, k + 1, id) ==> after[id] == docs[id]
  {
    forall id | id in docs && !Among(batch, k + 1, id) ensures after[id] == docs[id] {
      assert batch[k].id != id && !Among(batch, k, id);
    }
  }

  /** The compare-and-set lets the decision through, as long as the document is as the snapshot. */
  predicate Passes(snap: Invoice, raw: seq<Utxo>, judge: Judgement) {
    snap.state in Allowed(snap.state, judge(snap, PaidTo(snap.address, raw)).state)
  }

  lemma DecisionPasses(docs: Docs, snap: Invoice, raw: seq<Utxo>, dust: int, now: Time, judge: Judgement)
    requires AllConsistent(docs) && snap.id in docs && docs[snap.id] == snap && Watched(snap)
    requires DistinctOutpoints(raw) && Judges(judge, dust, now)
    ensures Passes(snap, raw, judge)
  {
    var utxos := PaidTo(snap.address, raw);
    FilterKeepsDistinctOutpoints(raw, PaysTo(snap.address));
    assert judge(snap, utxos) == DecideFor(snap, utxos, dust, now);
    DecisionSound(snap, utxos, dust, now);
  }

  lemma {:induction false} AppliedWrites(docs: Docs, batch: seq<Invoice>, k: nat, raw: seq<Utxo>, judge: Judgement,
                                         now: Time)
    requires Snapshot(docs, batch) && k <= |batch|
    requires forall i :: 0 <= i < |batch| ==> Passes(batch[i], raw, judge)
    ensures WrittenBack(docs, Applied(docs, batch, k, raw, judge, now), batch, k, raw, judge, now)
  {
    if k > 0 {
      AppliedWrites(docs, batch, k - 1, raw, judge, now);
      var before, snap := Applied(docs, batch, k - 1, raw, judge, now), batch[k - 1];
      assert Passes(snap, raw, judge);
      var d := judge(snap, PaidTo(snap.address, raw));
      OneMoreWritten(docs, before, Persisted(before, snap, d, now), batch, k - 1, raw, judge, now, d);
    }
  }

  /**
   * A tick that nothing preempts writes its decision to every invoice it loaded: no compare-and-set fails,
   * and nothing else changes.
   */
  lemma UnpreemptedTickWritesAll(docs: Docs, batch: seq<Invoice>, raw: seq<Utxo>, dust: int, now: Time,
                                 judge: Judgement)
    requires AllConsistent(docs) && Snapshot(docs, batch) && DistinctOutpoints(raw) && Judges(judge, dust, now)
    ensures WrittenBack(docs, Applied(docs, batch, |batch|, raw, judge, now), batch, |batch|, raw, judge, now)
  {
    forall i | 0 <= i < |batch| ensures Passes(batch[i], raw, judge) {
      DecisionPasses(docs, batch[i], raw, dust, now, judge);
    }
    AppliedWrites(docs, batch, |batch|, raw, judge, now);
  }

  /**
   * A stored DETECTED invoice that a tick loads at or after its expiry, unpreempted: it is DETECTED afterwards
   * exactly if the qualifying outputs now stored fall short and a timely one among them does not qualify; otherwise
   * it is final.
   */
  lemma {:induction false} OverdueProgresses(docs: Docs, batch: seq<Invoice>, i: nat, raw: seq<Utxo>, dust: int,
                                             now: Time, judge: Judgement)
    requires AllConsistent(docs) && Snapshot(docs, batch) && DistinctOutpoints(raw) && Judges(judge, dust, now)
    requires i < |batch| && batch[i].state == Detected && now >= batch[i].terms.expiresAt
    ensures batch[i].id in Applied(docs, batch, |batch|, raw, judge, now)
    ensures var d := Applied(docs, batch, |batch|, raw, judge, now)[batch[i].id];
      && d.state in {Detected, Settled, Overpaid, Underpaid} && d.terms == batch[i].terms
      && (d.state == Detected <==> QualSum(d.txids, d.terms) < Threshold(d.terms) && Unqualified(d.txids, d.terms))
  {
    var snap := batch[i];
    UnpreemptedTickWritesAll(docs, batch, raw, dust, now, judge);
    assert IsWritten(Applied(docs, batch, |batch|, raw, judge, now), snap, raw, judge, now);
    var utxos := PaidTo(snap.address, raw);
    FilterKeepsDistinctOutpoints(raw, PaysTo(snap.address));
    OverdueDecision(snap, utxos, dust, now, judge(snap, utxos));
  }

  lemma {:induction false} OverdueDecision(snap: Invoice, utxos: seq<Utxo>, dust: int, now: Time, d: Decision)
    requires Consistent(snap) && snap.state == Detected && now >= snap.terms.expiresAt && DistinctOutpoints(utxos)
    requires d == DecideFor(snap, utxos, dust, now)
    ensures d.state in {Detected, Settled, Overpaid, Underpaid}
    ensures d.state == Detected <==>
      QualSum(d.txids, snap.terms) < Threshold(snap.terms) && Unqualified(d.txids, snap.terms)
  {
    var outputs := Evaluated(snap, utxos, dust, now);
    DecisionSound(snap, utxos, dust, now);
    DecisionRecordsOutputs(snap.state, now, snap.terms, outputs, false);
    DetectedAfterExpiryExactly(snap.state, now, snap.terms, outputs);
  }

  // ---------- what is counted as stuck ----------

  /** The stored document is DETECTED and its settle deadline has passed. */
  predicate Overdue(docs: Docs, id: Id, now: Time) {
    id in docs && docs[id].state == Detected && now >= docs[id].terms.settleDeadlineAt
  }

  /** The places in a batch whose documents are. */
  function OverdueIn(docs: Docs, batch: seq<Invoice>, k: nat, now: Time): set<nat>
    requires k <= |batch|
  {
    set i: nat | i < k && Overdue(docs, batch[i].id, now)
  }

  lemma WrittenIsOverdue(after: Docs, snap: Invoice, raw: seq<Utxo>, dust: int, now: Time, d: Decision)
    requires Watched(snap) && snap.terms.settleDeadlineAt >= snap.terms.expiresAt
    requires d == DecideFor(snap, PaidTo(snap.address, raw), dust, now)
    requires snap.id in after && after[snap.id] == Written(snap, d, now)
    ensures d.stuck <==> Overdue(after, snap.id, now)
  {
    StuckIsOverdue(snap.state, now, snap.terms, Evaluated(snap, PaidTo(snap.address, raw), dust, now));
  }

  lemma {:induction false} StuckCounts(after: Docs, batch: seq<Invoice>, k: nat, raw: seq<Utxo>, now: Time,
                                       judge: Judgement)
    requires k <= |batch|
    requires forall i :: 0 <= i < k ==> StuckAt(after, batch, i, raw, now, judge)
    ensures StuckIn(batch, k, raw, judge) == |OverdueIn(after, batch, k, now)|
  {
    if k > 0 {
      StuckCounts(after, batch, k - 1, raw, now, judge);
      var before, i := OverdueIn(after, batch, k - 1, now), k - 1;
      assert StuckAt(after, batch, i, raw, now, judge);
      assert OverdueIn(after, batch, k, now) == if Overdue(after, batch[i].id, now) then before + {i} else before;
    }
  }

  predicate StuckAt(after: Docs, batch: seq<Invoice>, i: nat, raw: seq<Utxo>, now: Time, judge: Judgement)
    requires i < |batch|
  {
    judge(batch[i], PaidTo(batch[i].address, raw)).stuck <==> Overdue(after, batch[i].id, now)
  }

  /**
   * What a tick adds to its stuck count: with deadlines not before expiry, the number of loaded invoices that are
   * DETECTED afterwards with their deadline passed. Expired and canceled ones never count.
   */
  lemma TickCountsStuck(docs: Docs, batch: seq<Invoice>, raw: seq<Utxo>, dust: int, now: Time, judge: Judgement)
    requires AllConsistent(docs) && Snapshot(docs, batch) && DistinctOutpoints(raw) && Judges(judge, dust, now)
    requires forall i :: 0 <= i < |batch| ==> batch[i].terms.settleDeadlineAt >= batch[i].terms.expiresAt
    ensures StuckIn(batch, |batch|, raw, judge)
         == |OverdueIn(Applied(docs, batch, |batch|, raw, judge, now), batch, |batch|, now)|
  {
    var after := Applied(docs, batch, |batch|, raw, judge, now);
    UnpreemptedTickWritesAll(docs, batch, raw, dust, now, judge);
    forall i | 0 <= i < |batch| ensures StuckAt(after, batch, i, raw, now, judge) {
      var snap := batch[i];
      var utxos := PaidTo(snap.address, raw);
      assert IsWritten(after, snap, raw, judge, now);
      assert judge(snap, utxos) == DecideFor(snap, utxos, dust, now);
      WrittenIsOverdue(after, snap, raw, dust, now, judge(snap, utxos));
    }
    StuckCounts(after, batch, |batch|, raw, now, judge);
  }

  // ---------- a tick is a stretch of a run ----------

  /** The first `to` tasks less the first `from`, each holding its snapshot. */
  function Holding(batch: seq<Invoice>, from: nat, to: nat): map<nat, Pending>
    requires to <= |batch|
  {
    map i: nat | from <= i < to :: Loaded(batch[i])
  }

  lemma {:induction false} LoadAll(trace: seq<System>, acts: seq<Action>, batch: seq<Invoice>, k: nat)
      returns (longer: seq<System>, more: seq<Action>)
    requires Run(trace, acts) && trace[|acts|].pending == map[]
    requires Snapshot(trace[|acts|].docs, batch) && k <= |batch|
    ensures Run(longer, more) && trace <= longer
    ensures longer[|more|] == trace[|acts|].(pending := Holding(batch, 0, k))
  {
    if k == 0 {
      longer, more := trace, acts;
    } else {
      longer, more := LoadAll(trace, acts, batch, k - 1);
      var load := Load(k - 1, batch[k - 1].id);
      assert Holding(batch, 0, k) == Holding(batch, 0, k - 1)[k - 1 := Loaded(batch[k - 1])];
      longer := ExtendRun(longer, more, load);
      more := more + [load];
    }
  }

  /** One invoice of the batch: its task hears from the node and writes. */
  lemma WriteOne(trace: seq<System>, acts: seq<Action>, batch: seq<Invoice>, k: nat, utxos: seq<Utxo>, dust: int,
                 now: Time, d: Decision)
      returns (longer: seq<System>, more: seq<Action>)
    requires Run(trace, acts) && k < |batch| && trace[|acts|].pending == Holding(batch, k, |batch|)
    requires DistinctOutpoints(utxos) && d == DecideFor(batch[k], utxos, dust, now)
    ensures Run(longer, more) && trace <= longer
    ensures longer[|more|] == System(Persisted(trace[|acts|].docs, batch[k], d, now),
      Holding(batch, k + 1, |batch|), Max(trace[|acts|].clock, now))
  {
    longer := ExtendRun(trace, acts, Action.Judge(k, utxos, dust, now));
    more := acts + [Action.Judge(k, utxos, dust, now)];
    var s := longer[|more|];
    assert s.pending == Holding(batch, k, |batch|)[k := Decided(batch[k], utxos, dust, now)];
    longer := ExtendRun(longer, more, Action.Persist(k));
    more := more + [Action.Persist(k)];
    assert s.pending - {k} == Holding(batch, k + 1, |batch|);
  }

  lemma WriteNext(trace: seq<System>, acts: seq<Action>, batch: seq<Invoice>, k: nat, raw: seq<Utxo>, dust: int,
                  now: Time, judge: Judgement)
      returns (longer: seq<System>, more: seq<Action>)
    requires Run(trace, acts) && k < |batch| && trace[|acts|].pending == Holding(batch, k, |batch|)
    requires DistinctOutpoints(raw) && Judges(judge, dust, now)
    ensures Run(longer, more) && trace <= longer
    ensures longer[|more|].pending == Holding(batch, k + 1, |batch|)
    ensures longer[|more|].docs
         == Persisted(trace[|acts|].docs, batch[k], judge(batch[k], PaidTo(batch[k].address, raw)), now)
  {
    var snap := batch[k];
    var utxos := PaidTo(snap.address, raw);
    FilterKeepsDistinctOutpoints(raw, PaysTo(snap.address));
    assert judge(snap, utxos) == DecideFor(snap, utxos, dust, now);
    longer, more := WriteOne(trace, acts, batch, k, utxos, dust, now, judge(snap, utxos));
  }

  lemma {:induction false} WriteAll(trace: seq<System>, acts: seq<Action>, docs: Docs, batch: seq<Invoice>, k: nat,
                                    raw: seq<Utxo>, dust: int, now: Time, judge: Judgement)
      returns (longer: seq<System>, more: seq<Action>)
    requires Run(trace, acts) && trace[|acts|].docs == docs && trace[|acts|].pending == Holding(batch, 0, |batch|)
    requires DistinctOutpoints(raw) && Judges(judge, dust, now) && k <= |batch|
    ensures Run(longer, more) && trace <= longer
    ensures longer[|more|].docs == Applied(docs, batch, k, raw, judge, now)
    ensures longer[|more|].pending == Holding(batch, k, |batch|)
  {
    if k == 0 {
      longer, more := trace, acts;
    } else {
      longer, more := WriteAll(trace, acts, docs, batch, k - 1, raw, dust, now, judge);
      longer, more := WriteNext(longer, more, batch, k - 1, raw, dust, now, judge);
    }
  }

  /** Some run goes on from this one to these documents, with no task left in flight. */
  ghost predicate Reaches(trace: seq<System>, docs: Docs) {
    exists longer, more :: Settles(trace, longer, more, docs)
  }

  ghost predicate Settles(trace: seq<System>, longer: seq<System>, more: seq<Action>, docs: Docs) {
    Run(longer, more) && trace <= longer && longer[|more|].docs == docs && longer[|more|].pending == map[]
  }

  /** The effect of a tick is that of a stretch of a protocol run, so all the run laws hold of ticks. */
  lemma TickIsRun(trace: seq<System>, acts: seq<Action>, batch: seq<Invoice>, raw: seq<Utxo>, dust: int, now: Time,
                  judge: Judgement)
    requires Run(trace, acts) && trace[|acts|].pending == map[]
    requires Snapshot(trace[|acts|].docs, batch) && DistinctOutpoints(raw) && Judges(judge, dust, now)
    ensures Reaches(trace, Applied(trace[|acts|].docs, batch, |batch|, raw, judge, now))
  {
    var loaded, loads := LoadAll(trace, acts, batch, |batch|);
    var longer, more := WriteAll(loaded, loads, trace[|acts|].docs, batch, |batch|, raw, dust, now, judge);
    assert Settles(trace, longer, more, Applied(trace[|acts|].docs, batch, |batch|, raw, judge, now));
  }

  // ---------- a cancel that is preempted ----------

  /**
   * Whatever happens between the two steps of a cancel, its answer is the one the update's own state calls for: only a
   * document created in between turns 404 into 409.
   */
  lemma CancelAnswerStands(trace: seq<System>, acts: seq<Action>, i: nat, j: nat, id: Id, now: Time)
    requires Run(trace, acts) && i <= j < |trace|
    ensures var before, after := trace[i].docs, trace[j].docs;
      CancelAnswer(before, after, id, now) == CancelAnswer(before, before, id, now) <==> id in before || id !in after
  {
    if id in trace[i].docs {
      HistoryIsAPath(trace, acts, i, j, id);
    }
  }

  // ---------- conservation across a batch ----------

  function DuffsIn(): Utxo -> int { (u: Utxo) => ToDuffs(u.amount) }

  function PaysAny(addresses: set<Address>): Utxo -> bool {
    (u: Utxo) => u.address.Some? && u.address.value in addresses
  }

  function Addresses(batch: seq<Invoice>): set<Address> { set inv | inv in batch :: inv.address }

  ghost predicate DistinctAddresses(batch: seq<Invoice>) {
    forall i, j :: 0 <= i < j < |batch| ==> batch[i].address != batch[j].address
  }

  /** What one invoice's address receives from one answer of the node. */
  function ShareOf(raw: seq<Utxo>, dust: int, now: Time): Address -> int {
    (address: Address) => Total(Reported(PaidTo(address, raw), dust, now))
  }

  /** The shares of all invoices of a batch, added up. */
  function Shares(batch: seq<Invoice>, share: Address -> int): int {
    if batch == [] then 0 else share(batch[0].address) + Shares(batch[1..], share)
  }

  lemma {:induction false} ReportedTotal(utxos: seq<Utxo>, dust: int, now: Time)
    ensures Total(Reported(utxos, dust, now)) == SumBy(Filter(utxos, Worth(dust)), DuffsIn())
  {
    SumOfMap(Filter(utxos, Worth(dust)), now);
  }

  lemma {:induction false} SumOfMap(utxos: seq<Utxo>, now: Time)
    ensures Total(MapSeq(utxos, AsOutput(now))) == SumBy(utxos, DuffsIn())
  {
    if utxos != [] {
      SumOfMap(utxos[1..], now);
      assert MapSeq(utxos, AsOutput(now))[1..] == MapSeq(utxos[1..], AsOutput(now));
    }
  }

  /** Worth of the entries that satisfy p. */
  function WorthOf(raw: seq<Utxo>, p: Utxo -> bool, dust: int): int {
    SumBy(Filter(Filter(raw, p), Worth(dust)), DuffsIn())
  }

  lemma {:induction false} WorthSplits(raw: seq<Utxo>, p: Utxo -> bool, q: Utxo -> bool, r: Utxo -> bool, dust: int)
    requires forall u :: r(u) == (p(u) || q(u)) && !(p(u) && q(u))
    ensures WorthOf(raw, r, dust) == WorthOf(raw, p, dust) + WorthOf(raw, q, dust)
  {
    if raw != [] {
      WorthSplits(raw[1..], p, q, r, dust);
      WorthOfHead(raw, p, dust);
      WorthOfHead(raw, q, dust);
      WorthOfHead(raw, r, dust);
    }
  }

  lemma WorthOfHead(raw: seq<Utxo>, p: Utxo -> bool, dust: int)
    requires raw != []
    ensures WorthOf(raw, p, dust)
         == WorthOf(raw[1..], p, dust) + if p(raw[0]) && Worth(dust)(raw[0]) then ToDuffs(raw[0].amount) else 0
  {
    if p(raw[0]) {
      var rest := Filter(raw[1..], p);
      assert Filter(raw, p) == [raw[0]] + rest;
      FilterConcat([raw[0]], rest, Worth(dust));
      SumConcat(Filter([raw[0]], Worth(dust)), Filter(rest, Worth(dust)), DuffsIn());
    }
  }

  lemma AddressesSplit(batch: seq<Invoice>)
    requires batch != [] && DistinctAddresses(batch)
    ensures Addresses(batch) == {batch[0].address} + Addresses(batch[1..])
    ensures batch[0].address !in Addresses(batch[1..])
  {
    assert batch == [batch[0]] + batch[1..];
  }

  /** With unique addresses each reported output goes to at most one invoice. */
  lemma NoOutputTwice(batch: seq<Invoice>, raw: seq<Utxo>, i: nat, j: nat, u: Utxo)
    requires DistinctAddresses(batch) && i < |batch| && j < |batch|
    requires u in PaidTo(batch[i].address, raw) && u in PaidTo(batch[j].address, raw)
    ensures i == j
  {
    assert PaysTo(batch[i].address)(u) && PaysTo(batch[j].address)(u);
  }

  lemma AddressTotal(address: Address, raw: seq<Utxo>, dust: int, now: Time)
    ensures Total(Reported(PaidTo(address, raw), dust, now)) == WorthOf(raw, PaysTo(address), dust)
  {
    ReportedTotal(PaidTo(address, raw), dust, now);
  }

  lemma OneMoreAddress(raw: seq<Utxo>, head: Address, rest: set<Address>, all: set<Address>, dust: int)
    requires all == {head} + rest && head !in rest
    ensures WorthOf(raw, PaysAny(all), dust) == WorthOf(raw, PaysTo(head), dust) + WorthOf(raw, PaysAny(rest), dust)
  {
    WorthSplits(raw, PaysTo(head), PaysAny(rest), PaysAny(all), dust);
  }

  lemma NoAddress(raw: seq<Utxo>, dust: int)
    ensures WorthOf(raw, PaysAny({}), dust) == 0
  {
    FilterNone(raw, PaysAny({}));
  }

  /** A total over sets of addresses that takes one share more with each new address. */
  ghost predicate AddsUp(share: Address -> int, total: set<Address> -> int) {
    total({}) == 0 && forall head, rest :: head !in rest ==> total({head} + rest) == share(head) + total(rest)
  }

  lemma {:induction false} SharesAddUp(batch: seq<Invoice>, share: Address -> int, total: set<Address> -> int)
    requires DistinctAddresses(batch) && AddsUp(share, total)
    ensures Shares(batch, share) == total(Addresses(batch))
  {
    if batch == [] {
      assert Addresses(batch) == {};
    } else {
      SharesAddUp(batch[1..], share, total);
      AddressesSplit(batch);
    }
  }

  function WatchedWorth(raw: seq<Utxo>, dust: int): set<Address> -> int {
    (addresses: set<Address>) => WorthOf(raw, PaysAny(addresses), dust)
  }

  /** What a batch is given adds up to exactly what was reported above dust at the watched addresses. */
  lemma BatchConserves(batch: seq<Invoice>, raw: seq<Utxo>, dust: int, now: Time)
    requires DistinctAddresses(batch)
    ensures Shares(batch, ShareOf(raw, dust, now)) == WorthOf(raw, PaysAny(Addresses(batch)), dust)
  {
    var share, total := ShareOf(raw, dust, now), WatchedWorth(raw, dust);
    NoAddress(raw, dust);
    forall head, rest | head !in rest ensures total({head} + rest) == share(head) + total(rest) {
      AddressTotal(head, raw, dust, now);
      OneMoreAddress(raw, head, rest, {head} + rest, dust);
    }
    SharesAddUp(batch, share, total);
  }

  // ---------- paying the quoted amount ----------

  /** The first sight of the payment, in time; or the same payment seen again after a timely first sight. */
  predicate SeenInTime(snap: Invoice, key: Outpoint, now: Time) {
    || (snap.state == Open && snap.txids == [] && now < snap.terms.expiresAt)
    || (snap.state == Detected && |snap.txids| == 1 && snap.txids[0].key == key
        && snap.txids[0].detectedAt < snap.terms.expiresAt)
  }

  lemma SeenOnce(snap: Invoice, o: Output, now: Time) returns (m: Output)
    requires SeenInTime(snap, o.key, now) && o.detectedAt == now
    ensures Merge(snap.txids, [o]) == [m] && m.key == o.key && m.duffs == o.duffs
    ensures m == o.(detectedAt := m.detectedAt) && m.detectedAt < snap.terms.expiresAt
  {
    m := Refreshed(Dictionary(snap.txids), o);
    assert DistinctKeys(snap.txids);
    assert Dictionary(snap.txids) == snap.txids;
    assert o in [o];
    FilterNone(snap.txids, Unreported([o]));
  }

  lemma OneOutputDecides(t: Terms, m: Output, now: Time)
    requires m.detectedAt < t.expiresAt && Qualifies(m, t.policy) && m.duffs == t.duffsQuoted
    ensures DecideActive(now, t, EvidenceOf(t, [m]), [m])
         == Decision(Settled, Some(m.detectedAt), Some(m.detectedAt), Some(now), m.duffs, Some(t.satsRequested), false,
               [m], false)
  {
    FilterAll([m], SeenBefore(t.expiresAt));
    FilterAll([m], MeetsPolicy(t.policy));
    FilterNone([m], SeenFrom(t.expiresAt));
    assert SumBy([m], DuffsOf) == m.duffs;
  }

  lemma OneReported(u: Utxo, dust: int, now: Time)
    requires dust <= ToDuffs(u.amount)
    ensures Reported([u], dust, now) == [AsOutput(now)(u)]
  {
    assert Worth(dust)(u);
    FilterAll([u], Worth(dust));
  }

  /** One output of exactly the quoted amount, seen in time and final enough, settles. */
  lemma OneOutputSettles(snap: Invoice, o: Output, now: Time)
    requires SeenInTime(snap, o.key, now) && o.detectedAt == now
    requires Qualifies(o, snap.terms.policy) && o.duffs == snap.terms.duffsQuoted
    ensures var d := Decide(snap.state, now, snap.terms, Merge(snap.txids, [o]), snap.state == Canceled);
      && d.state == Settled && d.settledAt == Some(now) && d.satsCredited == Some(snap.terms.satsRequested)
      && d.duffsReceived == snap.terms.duffsQuoted && !d.latePayment
  {
    var m := SeenOnce(snap, o, now);
    OneOutputDecides(snap.terms, m, now);
  }

  /** Paying exactly the printed quote, seen in time and final enough, settles the invoice: no more and no less. */
  lemma ExactPaymentSettles(snap: Invoice, u: Utxo, dust: int, now: Time)
    requires 0 <= snap.terms.duffsQuoted < LIMIT && dust <= snap.terms.duffsQuoted
    requires snap.dashQuoted == DashAmountString(snap.terms.duffsQuoted)
    requires ParseDecimal(snap.dashQuoted) == Some(u.amount)
    requires SeenInTime(snap, u.key, now) && Qualifies(AsOutput(now)(u), snap.terms.policy)
    ensures var d := DecideFor(snap, [u], dust, now);
      && d.state == Settled && d.settledAt == Some(now) && d.satsCredited == Some(snap.terms.satsRequested)
      && d.duffsReceived == snap.terms.duffsQuoted && !d.latePayment
  {
    AmountRoundTrip(snap.terms.duffsQuoted);
    PaymentSettles(snap, u, dust, now, snap.terms.duffsQuoted);
  }

  lemma PaymentSettles(snap: Invoice, u: Utxo, dust: int, now: Time, duffs: nat)
    requires duffs == ToDuffs(u.amount) == snap.terms.duffsQuoted && dust <= duffs
    requires SeenInTime(snap, u.key, now) && Qualifies(AsOutput(now)(u), snap.terms.policy)
    ensures var d := DecideFor(snap, [u], dust, now);
      && d.state == Settled && d.settledAt == Some(now) && d.satsCredited == Some(snap.terms.satsRequested)
      && d.duffsReceived == snap.terms.duffsQuoted && !d.latePayment
  {
    OneReported(u, dust, now);
    OneOutputSettles(snap, AsOutput(now)(u), now);
  }

  /** A first payment of exactly the quote settles exactly if the quote is not itself below the dust limit. */
  lemma FirstExactPaymentSettlesExactlyWhen(snap: Invoice, u: Utxo, dust: int, now: Time)
    requires 0 <= snap.terms.duffsQuoted < LIMIT
    requires snap.dashQuoted == DashAmountString(snap.terms.duffsQuoted)
    requires ParseDecimal(snap.dashQuoted) == Some(u.amount)
    requires snap.state == Open && snap.txids == [] && now < snap.terms.expiresAt
    requires Qualifies(AsOutput(now)(u), snap.terms.policy)
    ensures DecideFor(snap, [u], dust, now).state == Settled <==> dust <= snap.terms.duffsQuoted
  {
    AmountRoundTrip(snap.terms.duffsQuoted);
    if dust <= snap.terms.duffsQuoted {
      ExactPaymentSettles(snap, u, dust, now);
    } else {
      DustIsIgnored(snap, u, dust, now);
    }
  }

  lemma DustIsIgnored(snap: Invoice, u: Utxo, dust: int, now: Time)
    requires ToDuffs(u.amount) < dust && snap.state == Open && snap.txids == [] && now < snap.terms.expiresAt
    ensures DecideFor(snap, [u], dust, now).state == Open
  {
    FilterNone([u], Worth(dust));
    assert Reported([u], dust, now) == [];
    assert Merge([], []) == [];
    assert Pre([], snap.terms.expiresAt) == [];
  }

  /** What the settings mean for a new invoice: its tolerance, what settles it, when the two conditions above hold. */
  lemma NewInvoiceTerms(req: Creation.Request, c: Creation.Config, duffs: nat, created: Time, o: Output, dust: int)
    ensures var t := Creation.TermsFor(req, c, duffs, created);
      var asked := if req.minConfirmations.Some? then req.minConfirmations.value else c.minConf;
      var tolerance := Max(c.underpayDuffs, duffs * c.underpayBps / 10_000);
      && Tolerance(t) == tolerance
      && (Qualifies(o, t.policy) <==>
        if c.settlePolicy == InstantSendOrChainLock then o.instantlock || o.chainlock
        else o.confirmations >= (if asked == 0 then 1 else asked))
      && (StuckMeansOverdue(t, dust) <==> c.graceS >= 0 || duffs - Max(0, tolerance) <= Max(0, dust))
      && (CreditNeedsEvidence(t, dust) <==> duffs > 0 && tolerance < duffs)
  {
    var t := Creation.TermsFor(req, c, duffs, created);
    StuckExactlyWhen(t, dust);
    EvidenceExactlyWhen(t, dust);
  }

  /** From create to credit: a new invoice paid its printed quote in time is settled for what was requested. */
  lemma NewInvoicePaidExactly(id: Id, req: Creation.Request, c: Creation.Config, xpub: string, index: nat, duffs: nat,
                              created: Time, u: Utxo, dust: int, now: Time)
    requires dust <= duffs < LIMIT && now < created + req.expiresInS
    requires ParseDecimal(DashAmountString(duffs)) == Some(u.amount)
    requires Qualifies(AsOutput(now)(u), Creation.PolicyFor(c, req.minConfirmations))
    ensures var d := DecideFor(Creation.NewInvoice(id, req, c, xpub, index, duffs, created), [u], dust, now);
      d.state == Settled && d.satsCredited == Some(req.sats) && d.duffsReceived == duffs
  {
    ExactPaymentSettles(Creation.NewInvoice(id, req, c, xpub, index, duffs, created), u, dust, now);
  }
}
