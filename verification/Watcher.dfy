/** watcher/loop.py and the cancel endpoint, on the stored collection. */
module Watcher {
  import opened Base
  import opened Amounts
  import opened Settlement
  import opened Sorting
  import opened Invoices
  import opened Collection
  import opened Rotation

  /** Settings().dash_dust_duffs and Settings().dash_watch_batch. */
  datatype Settings = Settings(dust: int, watchBatch: nat)

  /** What listunspent answers. */
  datatype Answer = Listed(utxos: seq<Utxo>) | Failed(error: string)

  // ---------- the watch set ----------

  predicate Watched(inv: Invoice) { inv.state in WATCH_STATES && inv.sweptAt.None? }

  predicate InProgress(inv: Invoice) { inv.state in {Open, Detected} }

  /** The watched ids in id order. */
  function WatchIds(docs: Docs): (ids: seq<Id>)
    ensures Ascending(ids)
    ensures forall id :: id in ids <==> id in docs && Watched(docs[id])
  {
    var ids := Sorted((set id | id in docs && Watched(docs[id])), ById());
    assert forall i, j :: 0 <= i < j < |ids| ==> ById()(ids[i], ids[j]);
    ids
  }

  /** An invoice is watched exactly if it is stored, not swept, and not settled, overpaid or underpaid. */
  lemma WatchedExactly(docs: Docs, id: Id)
    ensures id in WatchIds(docs) <==>
      id in docs && docs[id].sweptAt.None? && docs[id].state !in {Settled, Overpaid, Underpaid}
  {
    assert id in WatchIds(docs) <==> id in docs && Watched(docs[id]);
    if id in docs {
      match docs[id].state
      case Open =>
      case _ =>
    }
  }

  predicate OpenAt(batch: seq<Invoice>, i: nat) {
    i < |batch| && (batch[i].state == Open || batch[i].state == Detected)
  }

  /** The places of the OPEN and DETECTED invoices among the first k of a batch. */
  function OpenPlaces(batch: seq<Invoice>, k: nat): set<nat> { set i: nat | i < k && OpenAt(batch, i) }

  lemma OneMorePlace(batch: seq<Invoice>, k: nat)
    ensures |OpenPlaces(batch, k + 1)| == |OpenPlaces(batch, k)| + if OpenAt(batch, k) then 1 else 0
  {
    assert OpenPlaces(batch, k + 1) == OpenPlaces(batch, k) + if OpenAt(batch, k) then {k} else {};
  }

  lemma OneMoreOpen(batch: seq<Invoice>, k: nat)
    requires k < |batch|
    ensures |Filter(batch[..k + 1], InProgress)| == |Filter(batch[..k], InProgress)| + if OpenAt(batch, k) then 1 else 0
  {
    FilterNext(batch, k, InProgress);
  }

  lemma {:induction false} OpenAmong(batch: seq<Invoice>, k: nat)
    requires k <= |batch|
    ensures |Filter(batch[..k], InProgress)| == |OpenPlaces(batch, k)|
  {
    if k > 0 {
      OpenAmong(batch, k - 1);
      OneMoreOpen(batch, k - 1);
      OneMorePlace(batch, k - 1);
    }
  }

  /** The invoices counted as open are those of the batch that are OPEN or DETECTED. */
  lemma OpenCount(batch: seq<Invoice>)
    ensures |Filter(batch, InProgress)| == |OpenPlaces(batch, |batch|)|
  {
    OpenAmong(batch, |batch|);
    assert batch[..|batch|] == batch;
  }

  lemma QueriedAreStored(docs: Docs, limit: nat, after: Option<Id>)
    ensures var ids := Queried(WatchIds(docs), limit, after);
      forall i :: 0 <= i < |ids| ==> ids[i] in docs && Watched(docs[ids[i]])
  {
    var listed := Filter(WatchIds(docs), Beyond(after));
    var ids := Queried(WatchIds(docs), limit, after);
    forall i | 0 <= i < |ids| ensures ids[i] in docs && Watched(docs[ids[i]]) {
      assert ids[i] == listed[i] && listed[i] in listed;
      assert ids[i] in WatchIds(docs);
    }
  }

  /** _load_batch. */
  function LoadBatch(docs: Docs, limit: nat, after: Option<Id>): seq<Invoice> {
    QueriedAreStored(docs, limit, after);
    Fetch(docs, Queried(WatchIds(docs), limit, after))
  }

  function IdOf(): Invoice -> Id { (inv: Invoice) => inv.id }

  function IdsOf(batch: seq<Invoice>): (ids: seq<Id>)
    ensures |ids| == |batch|
  {
    MapSeq(batch, IdOf())
  }

  /** The batch is that of the rotation over the watched ids. */
  lemma BatchRotates(docs: Docs, limit: nat, after: Option<Id>)
    requires KeyedById(docs) && limit > 0
    ensures IdsOf(LoadBatch(docs, limit, after)) == BatchIds(WatchIds(docs), limit, after)
  {
    QueriedAreStored(docs, limit, after);
    QueriedIsSlice(WatchIds(docs), limit, after);
    var ids := Queried(WatchIds(docs), limit, after);
    var batch := LoadBatch(docs, limit, after);
    assert forall i :: 0 <= i < |ids| ==> batch[i] == docs[ids[i]] && batch[i].id == ids[i];
  }

  datatype CancelResult = Canceling(inv: Invoice) | NotFound | NotCancelable

  /**
   * The answer of the cancel endpoint: its update runs on one state of the collection, and if that changes nothing, its
   * second lookup runs on a possibly later one.
   */
  function CancelAnswer(atUpdate: Docs, atLookup: Docs, id: Id, now: Time): CancelResult {
    if Cancelable(atUpdate, id) then Canceling(CanceledIn(atUpdate, id, now)[id])
    else if id !in atLookup then NotFound
    else NotCancelable
  }

  /** The first step of the cancel endpoint. */
  method CancelUpdate(mongo: InvoiceCollection, id: Id, now: Time) returns (doc: Option<Invoice>)
    requires mongo.Valid()
    modifies mongo
    ensures mongo.Valid() && mongo.docs == CanceledIn(old(mongo.docs), id, now)
    ensures doc == if Cancelable(old(mongo.docs), id) then Some(mongo.docs[id]) else None
  {
    doc := mongo.FindOneAndUpdate(id,
      (inv: Invoice) => inv.state == Open && inv.firstSeenAt.None?,
      (inv: Invoice) => inv.(state := Canceled, canceledAt := Some(now), updatedAt := now));
  }

  /** Its answer, after a second lookup if there was nothing to cancel. */
  method CancelReply(mongo: InvoiceCollection, doc: Option<Invoice>, id: Id, now: Time, ghost atUpdate: Docs)
      returns (result: CancelResult)
    requires doc == if Cancelable(atUpdate, id) then Some(CanceledIn(atUpdate, id, now)[id]) else None
    ensures result == CancelAnswer(atUpdate, mongo.docs, id, now)
  {
    if doc.None? {
      if id !in mongo.docs {
        return NotFound;
      }
      return NotCancelable;
    }
    return Canceling(doc.value);
  }

  /** The cancel endpoint uninterrupted: 404 for an unknown id, 409 for one that is not OPEN or has funds. */
  method CancelInvoice(mongo: InvoiceCollection, id: Id, now: Time) returns (result: CancelResult)
    requires mongo.Valid()
    modifies mongo
    ensures mongo.Valid() && mongo.docs == CanceledIn(old(mongo.docs), id, now)
    ensures result.NotFound? <==> id !in old(mongo.docs)
    ensures result.Canceling? <==> Cancelable(old(mongo.docs), id)
    ensures result.Canceling? ==> result.inv == mongo.docs[id] && result.inv.state == Canceled
  {
    var doc := CancelUpdate(mongo, id, now);
    result := CancelReply(mongo, doc, id, now, old(mongo.docs));
  }

  /** _persist: the update, filtered on the states the decision may overwrite. */
  method Persist(mongo: InvoiceCollection, snap: Invoice, d: Decision, now: Time)
    requires mongo.Valid()
    modifies mongo
    ensures mongo.Valid() && mongo.docs == Persisted(old(mongo.docs), snap, d, now)
  {
    var allowed := {snap.state};
    if d.state in {Settled, Overpaid} {
      allowed := {Open, Detected};
    } else if d.state == Underpaid {
      allowed := {Open, Detected};
    } else if d.state == Expired {
      allowed := {Open};
    } else if d.state == Detected {
      allowed := {Open, Detected};
    }
    var matches := (inv: Invoice) => inv.state in allowed;
    if d.state in {Expired, Canceled} && snap.state in {Expired, Canceled} {
      matches := (inv: Invoice) => inv.state == snap.state;
    }
    var doc := mongo.FindOneAndUpdate(snap.id, matches, (inv: Invoice) => Written(inv, d, now));
  }

  // ---------- one tick ----------

  class WatcherState {
    var lastTickAt: Option<Time>
    var lastError: Option<string>
    var openInvoices: nat
    var lastId: Option<Id>
    var ticks: nat
    var stuck: nat

    constructor ()
      ensures lastTickAt.None? && lastError.None? && openInvoices == 0 && lastId.None? && ticks == 0 && stuck == 0
    {
      lastTickAt, lastError, openInvoices, lastId, ticks, stuck := None, None, 0, None, 0, 0;
    }
  }

  lemma ReportedNext(utxos: seq<Utxo>, i: nat, dust: int, now: Time)
    requires i < |utxos|
    ensures Reported(utxos[..i + 1], dust, now)
         == Reported(utxos[..i], dust, now) + if ToDuffs(utxos[i].amount) >= dust then [AsOutput(now)(utxos[i])] else []
  {
    FilterNext(utxos, i, Worth(dust));
  }

  /** The loop of _apply_invoice that turns reported UTXOs above dust into output objects. */
  method ReadOutputs(utxos: seq<Utxo>, dust: int, now: Time) returns (outs: seq<WatchedOutput>)
    ensures Views(outs) == Reported(utxos, dust, now)
    ensures forall i :: 0 <= i < |outs| ==> fresh(outs[i])
  {
    outs := [];
    ghost var rows: seq<Output> := [];
    for i := 0 to |utxos|
      invariant |outs| == |rows| && forall k :: 0 <= k < |outs| ==> fresh(outs[k]) && outs[k].View() == rows[k]
      invariant rows == Reported(utxos[..i], dust, now)
    {
      var u := utxos[i];
      ReportedNext(utxos, i, dust, now);
      var duffs := ToDuffs(u.amount);
      if duffs >= dust {
        var out := new WatchedOutput(Output(u.key, duffs, u.confirmations, u.instantlock, u.chainlock, now));
        outs, rows := outs + [out], rows + [out.View()];
      }
    }
    assert utxos[..|utxos|] == utxos && Views(outs) == rows;
  }

  type Judgement = (Invoice, seq<Utxo>) -> Decision

  /**
   * `judge` is the decision function of a tick. The methods below name it by a ghost parameter; the
   * trigger keeps the verifier from unfolding it where only the name matters.
   */
  ghost predicate Judges(judge: Judgement, dust: int, now: Time) {
    forall inv, utxos {:trigger judge(inv, utxos), DecideFor(inv, utxos, dust, now)} ::
      judge(inv, utxos) == DecideFor(inv, utxos, dust, now)
  }

  function Judge(dust: int, now: Time): Judgement {
    (inv: Invoice, utxos: seq<Utxo>) => DecideFor(inv, utxos, dust, now)
  }

  lemma JudgeJudges(dust: int, now: Time)
    ensures Judges(Judge(dust, now), dust, now)
  {
  }

  /** The part of _apply_invoice that gathers the outputs to decide on. */
  method Gather(inv: Invoice, utxos: seq<Utxo>, dust: int, now: Time) returns (outputs: seq<Output>)
    ensures outputs == Evaluated(inv, utxos, dust, now)
  {
    var reported := ReadOutputs(utxos, dust, now);
    var merged := MergeOutputs(inv.txids, reported);
    outputs := Views(merged);
  }

  /** The decision of _apply_invoice. */
  method Conclude(inv: Invoice, utxos: seq<Utxo>, dust: int, now: Time, ghost judge: Judgement)
      returns (decision: Decision)
    requires Judges(judge, dust, now)
    ensures decision == judge(inv, utxos)
  {
    var outputs := Gather(inv, utxos, dust, now);
    decision := Decide(inv.state, now, inv.terms, outputs, inv.state == Canceled);
    assert decision == DecideFor(inv, utxos, dust, now);
  }

  /** _apply_invoice. */
  method ApplyInvoice(mongo: InvoiceCollection, watcher: WatcherState, inv: Invoice, utxos: seq<Utxo>, dust: int,
                      now: Time, ghost judge: Judgement)
    requires mongo.Valid() && Judges(judge, dust, now)
    modifies mongo, watcher`stuck
    ensures mongo.Valid() && mongo.docs == Persisted(old(mongo.docs), inv, judge(inv, utxos), now)
    ensures watcher.stuck == old(watcher.stuck) + if judge(inv, utxos).stuck then 1 else 0
  {
    var decision := Conclude(inv, utxos, dust, now, judge);
    if decision.stuck {
      watcher.stuck := watcher.stuck + 1;
    }
    Persist(mongo, inv, decision, now);
  }

  function PaysTo(address: Address): Utxo -> bool { (u: Utxo) => u.address == Some(address) }

  /** The node's entries for one address. */
  function PaidTo(address: Address, raw: seq<Utxo>): seq<Utxo> { Filter(raw, PaysTo(address)) }

  function AddressOf(): Invoice -> Address { (inv: Invoice) => inv.address }

  /** The loop of tick that files the node's entries under the addresses asked for. */
  method Dispatch(raw: seq<Utxo>, addresses: seq<Address>) returns (byAddress: map<Address, seq<Utxo>>)
    ensures byAddress.Keys == set a | a in addresses
    ensures forall a :: a in byAddress ==> byAddress[a] == PaidTo(a, raw)
  {
    byAddress := map a | a in addresses :: [];
    for i := 0 to |raw|
      invariant byAddress.Keys == set a | a in addresses
      invariant forall a :: a in byAddress ==> byAddress[a] == PaidTo(a, raw[..i])
    {
      assert raw[..i + 1] == raw[..i] + [raw[i]];
      forall a | a in byAddress
        ensures PaidTo(a, raw[..i + 1]) == PaidTo(a, raw[..i]) + if raw[i].address == Some(a) then [raw[i]] else []
      {
        FilterConcat(raw[..i], [raw[i]], PaysTo(a));
      }
      var address := raw[i].address;
      if address.Some? && address.value in byAddress {
        byAddress := byAddress[address.value := byAddress[address.value] + [raw[i]]];
      }
    }
    assert raw[..|raw|] == raw;
  }

  /** The collection after the first k snapshots of a batch have been judged and written back in order. */
  function Applied(docs: Docs, batch: seq<Invoice>, k: nat, raw: seq<Utxo>, judge: Judgement, now: Time): Docs
    requires k <= |batch|
  {
    if k == 0 then docs
    else
      var snap := batch[k - 1];
      Persisted(Applied(docs, batch, k - 1, raw, judge, now), snap, judge(snap, PaidTo(snap.address, raw)), now)
  }

  /** How many of the first k invoices of a batch are stuck. */
  function StuckIn(batch: seq<Invoice>, k: nat, raw: seq<Utxo>, judge: Judgement): nat
    requires k <= |batch|
  {
    if k == 0 then 0
    else
      var snap := batch[k - 1];
      StuckIn(batch, k - 1, raw, judge) + if judge(snap, PaidTo(snap.address, raw)).stuck then 1 else 0
  }

  /** The last loop of tick. */
  method ApplyBatch(mongo: InvoiceCollection, watcher: WatcherState, batch: seq<Invoice>,
                    byAddress: map<Address, seq<Utxo>>, ghost raw: seq<Utxo>, dust: int, now: Time,
                    ghost judge: Judgement)
    requires mongo.Valid() && Judges(judge, dust, now)
    requires forall inv :: inv in batch ==>
      inv.address in byAddress && byAddress[inv.address] == PaidTo(inv.address, raw)
    modifies mongo, watcher`stuck
    ensures mongo.Valid() && mongo.docs == Applied(old(mongo.docs), batch, |batch|, raw, judge, now)
    ensures watcher.stuck == old(watcher.stuck) + StuckIn(batch, |batch|, raw, judge)
  {
    for i := 0 to |batch|
      invariant mongo.Valid() && mongo.docs == Applied(old(mongo.docs), batch, i, raw, judge, now)
      invariant watcher.stuck == old(watcher.stuck) + StuckIn(batch, i, raw, judge)
    {
      var inv := batch[i];
      ApplyInvoice(mongo, watcher, inv, byAddress[inv.address], dust, now, judge);
    }
  }

  /** What a tick learns from the node; with nothing to watch it does not ask. */
  function Heard(answer: Answer, batch: seq<Invoice>): seq<Utxo> {
    if batch != [] && answer.Listed? then answer.utxos else []
  }

  /** The first lines of tick: load the next batch and move the cursor past it. */
  method NextBatch(mongo: InvoiceCollection, limit: nat, watcher: WatcherState) returns (batch: seq<Invoice>)
    modifies watcher`lastId, watcher`openInvoices
    ensures batch == LoadBatch(mongo.docs, limit, old(watcher.lastId))
    ensures watcher.lastId == NextCursor(IdsOf(batch), limit, old(watcher.lastId))
    ensures watcher.openInvoices == |Filter(batch, InProgress)|
  {
    batch := LoadBatch(mongo.docs, limit, watcher.lastId);
    if |batch| < limit {
      watcher.lastId := None;
    } else if batch != [] {
      watcher.lastId := Some(batch[|batch| - 1].id);
    }
    watcher.openInvoices := |Filter(batch, InProgress)|;
  }

  /** The rest of tick once the node has answered. */
  method HandleAnswer(mongo: InvoiceCollection, watcher: WatcherState, batch: seq<Invoice>, raw: seq<Utxo>,
                      dust: int, now: Time, ghost judge: Judgement)
    requires mongo.Valid() && Judges(judge, dust, now)
    modifies mongo, watcher`stuck
    ensures mongo.Valid() && mongo.docs == Applied(old(mongo.docs), batch, |batch|, raw, judge, now)
    ensures watcher.stuck == old(watcher.stuck) + StuckIn(batch, |batch|, raw, judge)
  {
    var addresses := MapSeq(batch, AddressOf());
    var byAddress := Dispatch(raw, addresses);
    assert forall inv :: inv in batch ==> AddressOf()(inv) in addresses;
    ApplyBatch(mongo, watcher, batch, byAddress, raw, dust, now, judge);
  }

  /** What tick does with the node's answer, or with its failure. */
  method Answered(mongo: InvoiceCollection, watcher: WatcherState, batch: seq<Invoice>, answer: Answer,
                  dust: int, now: Time, ghost judge: Judgement)
    requires mongo.Valid() && Judges(judge, dust, now)
    modifies mongo, watcher`stuck, watcher`ticks, watcher`lastTickAt, watcher`lastError
    ensures mongo.Valid()
    ensures watcher.ticks == old(watcher.ticks) + 1 && watcher.lastTickAt == Some(now)
    ensures batch != [] && answer.Failed? ==>
      mongo.docs == old(mongo.docs) && watcher.stuck == old(watcher.stuck) && watcher.lastError == Some(answer.error)
    ensures batch == [] || answer.Listed? ==>
      && mongo.docs == Applied(old(mongo.docs), batch, |batch|, Heard(answer, batch), judge, now)
      && watcher.stuck == old(watcher.stuck) + StuckIn(batch, |batch|, Heard(answer, batch), judge)
      && watcher.lastError == old(watcher.lastError)
  {
    if batch != [] && answer.Failed? {
      watcher.lastError := Some(answer.error);
    } else {
      HandleAnswer(mongo, watcher, batch, Heard(answer, batch), dust, now, judge);
    }
    watcher.lastTickAt := Some(now);
    watcher.ticks := watcher.ticks + 1;
  }

  /** tick. The cursor moves the same way whether or not the node answers. */
  method Tick(mongo: InvoiceCollection, answer: Answer, settings: Settings, watcher: WatcherState, now: Time,
              ghost judge: Judgement)
      returns (ghost batch: seq<Invoice>)
    requires mongo.Valid() && Judges(judge, settings.dust, now)
    modifies mongo, watcher
    ensures mongo.Valid() && batch == LoadBatch(old(mongo.docs), settings.watchBatch, old(watcher.lastId))
    ensures watcher.lastId == NextCursor(IdsOf(batch), settings.watchBatch, old(watcher.lastId))
    ensures watcher.openInvoices == |Filter(batch, InProgress)|
    ensures watcher.ticks == old(watcher.ticks) + 1 && watcher.lastTickAt == Some(now)
    ensures batch != [] && answer.Failed? ==>
      mongo.docs == old(mongo.docs) && watcher.stuck == old(watcher.stuck) && watcher.lastError == Some(answer.error)
    ensures batch == [] || answer.Listed? ==>
      && mongo.docs == Applied(old(mongo.docs), batch, |batch|, Heard(answer, batch), judge, now)
      && watcher.stuck == old(watcher.stuck) + StuckIn(batch, |batch|, Heard(answer, batch), judge)
      && watcher.lastError == old(watcher.lastError)
  {
    var invoices := NextBatch(mongo, settings.watchBatch, watcher);
    batch := invoices;
    Answered(mongo, watcher, invoices, answer, settings.dust, now, judge);
  }

  /**
   * One round of run_watcher whose tick returns. The round clears last_error afterwards, also when the tick
   * has just recorded a failed listunspent there: such a failure is never left for the health check to see.
   */
  method WatchOnce(mongo: InvoiceCollection, answer: Answer, settings: Settings, watcher: WatcherState, now: Time)
    requires mongo.Valid()
    modifies mongo, watcher
    ensures mongo.Valid() && watcher.lastError == None
    ensures watcher.ticks == old(watcher.ticks) + 1
    ensures answer.Failed? ==> mongo.docs == old(mongo.docs)
  {
    JudgeJudges(settings.dust, now);
    ghost var batch := Tick(mongo, answer, settings, watcher, now, Judge(settings.dust, now));
    watcher.lastError := None;
  }
}
