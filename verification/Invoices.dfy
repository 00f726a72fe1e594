/** The stored invoice document and the single-document updates the watcher and the API perform on it. */
module Invoices {
  import opened Base
  import opened Decimal
  import opened Amounts
  import opened Settlement

  /** ObjectIds, which Mongo orders. */
  type Id = int

  datatype Network = Mainnet | Testnet | Regtest

  /** A receive address. Distinct (network, account key, index) triples are taken to derive distinct addresses. */
  datatype Address = Address(network: Network, accountXpub: string, index: nat)

  datatype Invoice = Invoice(
    id: Id,
    externalId: string,
    custId: Option<string>,
    address: Address,
    expiresInS: int,
    dashQuoted: string,
    createdAt: Time,
    terms: Terms,
    state: InvoiceState,
    firstSeenAt: Option<Time>,
    detectedAt: Option<Time>,
    settledAt: Option<Time>,
    canceledAt: Option<Time>,
    duffsReceived: int,
    satsCredited: Option<int>,
    latePayment: bool,
    txids: seq<Output>,
    sweptAt: Option<Time>,
    updatedAt: Time)

  /** The invoice collection as Mongo stores it. */
  type Docs = map<Id, Invoice>

  /** A document as create_invoice inserts it. */
  predicate IsNew(inv: Invoice) {
    && inv.state == Open
    && inv.firstSeenAt.None? && inv.detectedAt.None? && inv.settledAt.None? && inv.canceledAt.None?
    && inv.duffsReceived == 0 && inv.satsCredited.None? && !inv.latePayment && inv.txids == []
    && inv.sweptAt.None?
  }

  // ---------- what the node reports ----------

  /** One entry of listunspent, with the lock flags and confirmations _enrich attaches. */
  datatype Utxo = Utxo(
    address: Option<Address>,
    key: Outpoint,
    amount: Dec,
    confirmations: int,
    instantlock: bool,
    chainlock: bool)

  function Worth(dust: int): Utxo -> bool { (u: Utxo) => ToDuffs(u.amount) >= dust }

  function AsOutput(now: Time): Utxo -> Output {
    (u: Utxo) => Output(u.key, ToDuffs(u.amount), u.confirmations, u.instantlock, u.chainlock, now)
  }

  /** The fresh outputs of a tick: dust dropped, everything else first seen now. */
  function Reported(utxos: seq<Utxo>, dust: int, now: Time): seq<Output> {
    MapSeq(Filter(utxos, Worth(dust)), AsOutput(now))
  }

  ghost predicate DistinctOutpoints(utxos: seq<Utxo>) {
    forall i, j :: 0 <= i < j < |utxos| ==> utxos[i].key != utxos[j].key
  }

  // ---------- one invoice, one tick ----------

  /** The outputs a tick decides on: what this snapshot recorded, merged with what the node reports. */
  function Evaluated(snap: Invoice, utxos: seq<Utxo>, dust: int, now: Time): seq<Output> {
    Merge(snap.txids, Reported(utxos, dust, now))
  }

  function DecideFor(snap: Invoice, utxos: seq<Utxo>, dust: int, now: Time): Decision {
    Decide(snap.state, now, snap.terms, Evaluated(snap, utxos, dust, now), snap.state == Canceled)
  }

  /** The states in which _persist lets a decision made from `prev` overwrite the stored document. */
  function Allowed(prev: InvoiceState, decided: InvoiceState): set<InvoiceState> {
    if decided in {Expired, Canceled} && prev in {Expired, Canceled} then {prev}
    else if decided in {Settled, Overpaid, Underpaid, Detected} then {Open, Detected}
    else if decided == Expired then {Open}
    else {prev}
  }

  function Written(inv: Invoice, d: Decision, now: Time): Invoice {
    inv.(
      state := d.state,
      firstSeenAt := d.firstSeenAt,
      detectedAt := d.detectedAt,
      settledAt := d.settledAt,
      duffsReceived := d.duffsReceived,
      satsCredited := d.satsCredited,
      latePayment := d.latePayment,
      txids := d.txids,
      updatedAt := now)
  }

  /** The compare-and-set of _persist. */
  function Persisted(docs: Docs, snap: Invoice, d: Decision, now: Time): Docs {
    if snap.id in docs && docs[snap.id].state in Allowed(snap.state, d.state)
    then docs[snap.id := Written(docs[snap.id], d, now)]
    else docs
  }

  predicate Cancelable(docs: Docs, id: Id) {
    id in docs && docs[id].state == Open && docs[id].firstSeenAt.None?
  }

  /** The compare-and-set of the cancel endpoint. */
  function CanceledIn(docs: Docs, id: Id, now: Time): Docs {
    if Cancelable(docs, id)
    then docs[id := docs[id].(state := Canceled, canceledAt := Some(now), updatedAt := now)]
    else docs
  }

  /** A write of the watcher sets what a decision says and the update time, and no other field. */
  lemma WriteSetsOnly(inv: Invoice, d: Decision, now: Time)
    ensures var w := Written(inv, d, now);
      && w.state == d.state && w.firstSeenAt == d.firstSeenAt && w.detectedAt == d.detectedAt
      && w.settledAt == d.settledAt && w.duffsReceived == d.duffsReceived && w.satsCredited == d.satsCredited
      && w.latePayment == d.latePayment && w.txids == d.txids && w.updatedAt == now
      && w.id == inv.id && w.externalId == inv.externalId && w.custId == inv.custId && w.address == inv.address
      && w.expiresInS == inv.expiresInS && w.dashQuoted == inv.dashQuoted && w.createdAt == inv.createdAt
      && w.terms == inv.terms && w.canceledAt == inv.canceledAt && w.sweptAt == inv.sweptAt
  {
  }

  /** A cancel sets the state, the time of it and the update time, on one document. */
  lemma CancelSetsOnly(docs: Docs, id: Id, now: Time)
    requires Cancelable(docs, id)
    ensures CanceledIn(docs, id, now).Keys == docs.Keys
    ensures forall k :: k in docs && k != id ==> CanceledIn(docs, id, now)[k] == docs[k]
    ensures var inv, w := docs[id], CanceledIn(docs, id, now)[id];
      && w.state == Canceled && w.canceledAt == Some(now) && w.updatedAt == now
      && w.firstSeenAt == inv.firstSeenAt && w.detectedAt == inv.detectedAt && w.settledAt == inv.settledAt
      && w.duffsReceived == inv.duffsReceived && w.satsCredited == inv.satsCredited
      && w.latePayment == inv.latePayment && w.txids == inv.txids
      && w.id == inv.id && w.externalId == inv.externalId && w.custId == inv.custId && w.address == inv.address
      && w.expiresInS == inv.expiresInS && w.dashQuoted == inv.dashQuoted && w.createdAt == inv.createdAt
      && w.terms == inv.terms && w.sweptAt == inv.sweptAt
  {
  }
}
