/** Creating an invoice: db/wallet_state.py and create_invoice, each run without interruption. */
module Creation {
  import opened Base
  import opened Decimal
  import opened Amounts
  import opened Quotes
  import opened Settlement
  import opened Sorting
  import opened Invoices
  import opened Collection
  import opened HiveConfig
  import opened RateLimit

  // ---------- the wallet row ----------

  /** The dash_wallet_state row of a network. */
  datatype Wallet = Wallet(network: Network, fingerprint: string, accountXpub: string, nextReceiveIndex: nat)

  type Wallets = map<Network, Wallet>

  function LowerChar(c: char): char { if 'A' <= c <= 'Z' then c + 32 as char else c }

  function Lower(s: string): string { MapSeq(s, LowerChar) }

  datatype EnsureResult = Locked(wallet: Wallet) | Mismatch

  /** The configured key is usable at all. */
  predicate KeyComplete(accountXpub: string, fingerprint: string) { accountXpub != "" && |fingerprint| == 8 }

  predicate KeyMatches(wallet: Wallet, network: Network, accountXpub: string, fingerprint: string) {
    wallet.accountXpub == accountXpub && Lower(wallet.fingerprint) == Lower(fingerprint) && wallet.network == network
  }

  function FirstWallet(network: Network, accountXpub: string, fingerprint: string): Wallet {
    Wallet(network, Lower(fingerprint), accountXpub, 0)
  }

  /** insert_one keyed by network: an existing row stays. */
  function RowInserted(wallets: Wallets, w: Wallet): Wallets {
    if w.network in wallets then wallets else wallets[w.network := w]
  }

  /** The $inc of allocate_receive_index. */
  function AllocatedIn(wallets: Wallets, network: Network): Wallets {
    if network in wallets
    then wallets[network := wallets[network].(nextReceiveIndex := wallets[network].nextReceiveIndex + 1)]
    else wallets
  }

  class WalletStore {
    var wallets: Wallets

    constructor ()
      ensures wallets == map[]
    {
      wallets := map[];
    }

    /** ensure_wallet_state: the first boot locks the key of a network, every later one must bring the same. */
    method EnsureWalletState(network: Network, accountXpub: string, fingerprint: string) returns (result: EnsureResult)
      modifies this
      ensures if KeyComplete(accountXpub, fingerprint)
              then wallets == RowInserted(old(wallets), FirstWallet(network, accountXpub, fingerprint))
              else wallets == old(wallets)
      ensures result.Locked? <==> (&& KeyComplete(accountXpub, fingerprint)
                                   && (network in old(wallets) ==>
                                         KeyMatches(old(wallets)[network], network, accountXpub, fingerprint)))
      ensures result.Locked? ==> network in wallets && result.wallet == wallets[network]
    {
      if accountXpub == "" || |fingerprint| != 8 {
        return Mismatch;
      }
      if network !in wallets {
        var row := FirstWallet(network, accountXpub, fingerprint);
        wallets := wallets[network := row];
        return Locked(row);
      }
      var existing := wallets[network];
      if existing.accountXpub != accountXpub || Lower(existing.fingerprint) != Lower(fingerprint) {
        return Mismatch;
      }
      if existing.network != network {
        return Mismatch;
      }
      return Locked(existing);
    }

    /** allocate_receive_index: takes the next index; None stands for a missing row. */
    method AllocateReceiveIndex(network: Network) returns (index: Option<nat>)
      modifies this
      ensures wallets == AllocatedIn(old(wallets), network)
      ensures index == if network in old(wallets) then Some(old(wallets)[network].nextReceiveIndex) else None
    {
      if network !in wallets {
        return None;
      }
      index := Some(wallets[network].nextReceiveIndex);
      wallets := wallets[network := wallets[network].(nextReceiveIndex := wallets[network].nextReceiveIndex + 1)];
    }
  }

  lemma LowerIsIdempotent(s: string)
    ensures Lower(Lower(s)) == Lower(s)
  {
  }

  /** The same letter, but perhaps one of them a capital. */
  predicate SameLetter(a: char, b: char) {
    || a == b
    || ('A' <= a <= 'Z' && 'a' <= b <= 'z' && a as int - 'A' as int == b as int - 'a' as int)
    || ('A' <= b <= 'Z' && 'a' <= a <= 'z' && b as int - 'A' as int == a as int - 'a' as int)
  }

  predicate SameUpToCase(a: string, b: string) { |a| == |b| && forall i :: 0 <= i < |a| ==> SameLetter(a[i], b[i]) }

  lemma LowerExactly(a: string, b: string)
    ensures Lower(a) == Lower(b) <==> SameUpToCase(a, b)
  {
    forall c, d ensures LowerChar(c) == LowerChar(d) <==> SameLetter(c, d) {
    }
    if Lower(a) == Lower(b) {
      assert forall i :: 0 <= i < |a| ==> Lower(a)[i] == LowerChar(a[i]) && Lower(b)[i] == LowerChar(b[i]);
    }
  }

  /** The key that locked a network is accepted again, in any letter case of its fingerprint, and no other is. */
  lemma KeyLockExactly(network: Network, xpub: string, fingerprint: string, otherXpub: string, otherFingerprint: string)
    ensures KeyMatches(FirstWallet(network, xpub, fingerprint), network, otherXpub, otherFingerprint)
        <==> xpub == otherXpub && SameUpToCase(fingerprint, otherFingerprint)
  {
    LowerIsIdempotent(fingerprint);
    LowerExactly(fingerprint, otherFingerprint);
  }

  // ---------- the request and the document ----------

  datatype Request = Request(
    externalId: string,
    sats: nat,
    expiresInS: int,
    custId: Option<string>,
    minConfirmations: Option<int>)

  /** The settings create_invoice reads. */
  datatype Config = Config(
    network: Network,
    settlePolicy: SettlePolicy,
    minConf: int,
    graceS: int,
    underpayBps: int,
    underpayDuffs: int,
    rangeEnd: int)

  /** The live configuration and price: what fetch_hive_config, fetch_rate_windows and fetch_quote return. */
  datatype Market = Market(minSats: int, maxSats: int, fees: FeeConfig, windows: seq<RateWindow>, dashBtc: Option<Dec>)

  function DefaultMinConf(network: Network): int {
    match network
    case Regtest => 1
    case Testnet => 2
    case Mainnet => 6
  }

  /** _policy. */
  function PolicyFor(c: Config, minConfirmations: Option<int>): Policy {
    Policy(Some(c.settlePolicy), Some(c.underpayBps), Some(c.underpayDuffs),
      Some(if c.settlePolicy == InstantSendOrChainLock then DefaultMinConf(c.network)
           else if minConfirmations.Some? then minConfirmations.value else c.minConf))
  }

  function PriceOf(req: Request, market: Market): Option<nat>
  {
    if market.dashBtc.None? then None
    else match DuffsFromSats(CollectDecimal(req.sats, market.fees), market.dashBtc.value)
      case Duffs(duffs) => Some(duffs)
      case Refused(_) => None
  }

  /** What a new invoice fixes: it expires expires_in_s after creation and is overdue a grace period later. */
  function TermsFor(req: Request, c: Config, duffs: nat, now: Time): Terms {
    Terms(now + req.expiresInS, now + req.expiresInS + c.graceS, duffs, req.sats, PolicyFor(c, req.minConfirmations))
  }

  /** The document create_invoice inserts, given the text of the amount. Times are in seconds. */
  function Document(id: Id, req: Request, address: Address, terms: Terms, dashQuoted: string, now: Time): (inv: Invoice)
    ensures IsNew(inv) && inv.id == id && inv.externalId == req.externalId && inv.custId == req.custId
    ensures inv.address == address && inv.terms == terms && inv.dashQuoted == dashQuoted
    ensures inv.createdAt == inv.updatedAt == now && inv.expiresInS == req.expiresInS
  {
    Invoice(
      id := id,
      externalId := req.externalId,
      custId := req.custId,
      address := address,
      expiresInS := req.expiresInS,
      dashQuoted := dashQuoted,
      createdAt := now,
      terms := terms,
      state := Open,
      firstSeenAt := None,
      detectedAt := None,
      settledAt := None,
      canceledAt := None,
      duffsReceived := 0,
      satsCredited := None,
      latePayment := false,
      txids := [],
      sweptAt := None,
      updatedAt := now)
  }

  function NewInvoice(id: Id, req: Request, c: Config, xpub: string, index: nat, duffs: nat, now: Time): Invoice {
    Document(id, req, Address(c.network, xpub, index), TermsFor(req, c, duffs, now), DashAmountString(duffs), now)
  }

  /**
   * The inserted document: untouched, the request's own, at the address of its index, quoting an amount whose text
   * reads back as the duffs it is judged by, and expiring expires_in_s after its creation.
   */
  lemma NewInvoiceFixes(id: Id, req: Request, c: Config, xpub: string, index: nat, duffs: nat, now: Time, inv: Invoice)
    requires duffs < LIMIT && inv == NewInvoice(id, req, c, xpub, index, duffs, now)
    ensures IsNew(inv) && inv.id == id && inv.externalId == req.externalId && inv.custId == req.custId
    ensures SameRequest(inv, req) && inv.address == Address(c.network, xpub, index)
    ensures RpcDashToDuffs(inv.dashQuoted) == Some(inv.terms.duffsQuoted) && inv.terms.duffsQuoted == duffs
    ensures inv.terms.expiresAt == inv.createdAt + inv.expiresInS
    ensures inv.terms.settleDeadlineAt - inv.terms.expiresAt == c.graceS
  {
    AmountRoundTrip(duffs);
  }

  // ---------- looking an invoice up ----------

  predicate HasExternalId(docs: Docs, externalId: string) {
    exists id :: id in docs && docs[id].externalId == externalId
  }

  ghost predicate UniqueExternalIds(docs: Docs) {
    forall a, b :: a in docs && b in docs && docs[a].externalId == docs[b].externalId ==> a == b
  }

  /** Whether a repeated request is the one that created this document. */
  predicate SameRequest(inv: Invoice, req: Request) {
    inv.terms.satsRequested == req.sats && inv.expiresInS == req.expiresInS
  }

  /** find_one by external_id. */
  method FindByExternalId(mongo: InvoiceCollection, externalId: string) returns (found: Option<Invoice>)
    requires mongo.Valid()
    ensures found.Some? <==> HasExternalId(mongo.docs, externalId)
    ensures found.Some? ==>
      found.value.id in mongo.docs && mongo.docs[found.value.id] == found.value && found.value.externalId == externalId
  {
    var ids := Sorted(mongo.docs.Keys, ById());
    for i := 0 to |ids|
      invariant forall k :: 0 <= k < i ==> ids[k] in mongo.docs && mongo.docs[ids[k]].externalId != externalId
    {
      assert ids[i] in ids;
      if mongo.docs[ids[i]].externalId == externalId {
        return Some(mongo.docs[ids[i]]);
      }
    }
    NoneListed(mongo.docs, ids, externalId);
    return None;
  }

  lemma NoneListed(docs: Docs, ids: seq<Id>, externalId: string)
    requires ids == Sorted(docs.Keys, ById())
    requires forall k :: 0 <= k < |ids| ==> ids[k] in docs && docs[ids[k]].externalId != externalId
    ensures !HasExternalId(docs, externalId)
  {
    forall id | id in docs ensures docs[id].externalId != externalId {
      assert id in ids;
    }
  }

  // ---------- create ----------

  datatype CreateResult =
    | Created(inv: Invoice)
    | Existing(inv: Invoice)
    | DuplicateExternalId
    | AmountTooSmall
    | AmountTooLarge
    | QuoteUnavailable
    | RateLimited(check: Check)
    | WalletUnavailable
    | IndexExhausted

  predicate InRange(req: Request, market: Market) { market.minSats <= req.sats <= market.maxSats }

  /** The customer, if one is named, is within every rate window. */
  predicate RateOk(docs: Docs, req: Request, market: Market, now: Time) {
    req.custId.Some? && req.custId.value != "" ==>
      forall w :: w in market.windows ==> !Over(Payments(AllInvoices(docs), req.custId.value), w, req.sats, now)
  }

  /** A request that finds no earlier invoice gets as far as taking an index. */
  predicate Acceptable(docs: Docs, req: Request, market: Market, now: Time)
  {
    InRange(req, market) && PriceOf(req, market).Some? && RateOk(docs, req, market, now)
  }

  /** This refusal is the first of the checks to fail. A rate check that crashes refuses as well. */
  ghost predicate RefusedFor(result: CreateResult, docs: Docs, req: Request, market: Market, now: Time)
  {
    match result
    case AmountTooSmall => req.sats < market.minSats
    case AmountTooLarge => req.sats >= market.minSats && req.sats > market.maxSats
    case QuoteUnavailable => InRange(req, market) && PriceOf(req, market).None?
    case RateLimited(check) =>
      && InRange(req, market) && PriceOf(req, market).Some? && !RateOk(docs, req, market, now) && !check.Accepted?
      && Outcome(check, Payments(AllInvoices(docs), req.custId.value), req.sats, now, market.windows)
    case _ => false
  }

  /** Everything create_invoice checks after finding no such invoice and before it takes an index. */
  method Screen(mongo: InvoiceCollection, req: Request, market: Market, now: Time)
      returns (refusal: Option<CreateResult>, duffs: nat)
    ensures refusal.None? <==> Acceptable(mongo.docs, req, market, now)
    ensures refusal.None? ==> PriceOf(req, market) == Some(duffs)
    ensures refusal.Some? ==> RefusedFor(refusal.value, mongo.docs, req, market, now)
  {
    if req.sats < market.minSats {
      return Some(AmountTooSmall), 0;
    }
    if req.sats > market.maxSats {
      return Some(AmountTooLarge), 0;
    }
    var price := PriceOf(req, market);
    if price.None? {
      return Some(QuoteUnavailable), 0;
    }
    if req.custId.Some? && req.custId.value != "" {
      var check := CheckCustRateLimit(AllInvoices(mongo.docs), req.custId.value, req.sats, now, market.windows);
      if !check.Accepted? {
        return Some(RateLimited(check)), 0;
      }
    }
    return None, price.value;
  }

  /** The collection and the wallet row together. */
  datatype Stores = Stores(docs: Docs, wallets: Wallets)

  /**
   * What taking an index and inserting the document comes to: an index is spent if there is a row at all; nothing is
   * inserted past the range end, or when a unique key is taken.
   */
  predicate IndexTaken(before: Stores, after: Stores, req: Request, c: Config, xpub: string, duffs: nat, id: Id,
                       now: Time, result: CreateResult)
  {
    && after.wallets == AllocatedIn(before.wallets, c.network)
    && if c.network !in before.wallets then
         result == WalletUnavailable && after.docs == before.docs
       else
         var index := before.wallets[c.network].nextReceiveIndex;
         var doc := NewInvoice(id, req, c, xpub, index, duffs, now);
         if index >= c.rangeEnd then
           result == IndexExhausted && after.docs == before.docs
         else
           && after.docs == Inserted(before.docs, doc)
           && result == if Clashes(before.docs, doc) then DuplicateExternalId else Created(doc)
  }

  /** What create_invoice does once it has found no earlier invoice and screened the request. */
  method TakeIndexAndInsert(mongo: InvoiceCollection, store: WalletStore, req: Request, c: Config,
                            xpub: string, duffs: nat, id: Id, now: Time)
      returns (result: CreateResult)
    requires mongo.Valid() && id !in mongo.docs
    modifies mongo, store
    ensures mongo.Valid()
    ensures IndexTaken(old(Stores(mongo.docs, store.wallets)), Stores(mongo.docs, store.wallets),
              req, c, xpub, duffs, id, now, result)
  {
    var index := store.AllocateReceiveIndex(c.network);
    if index.None? {
      return WalletUnavailable;
    }
    if index.value >= c.rangeEnd {
      return IndexExhausted;
    }
    var doc := NewInvoice(id, req, c, xpub, index.value, duffs, now);
    var inserted := mongo.InsertOne(doc);
    if !inserted {
      return DuplicateExternalId;
    }
    return Created(doc);
  }

  /** The answer to a request whose external id is taken: the invoice, if the request is the same. */
  ghost predicate AnsweredFrom(docs: Docs, req: Request, result: CreateResult) {
    exists id :: id in docs && docs[id].externalId == req.externalId
      && result == if SameRequest(docs[id], req) then Existing(docs[id]) else DuplicateExternalId
  }

  /** The request gets past the lookup and the checks. */
  ghost predicate Proceeds(docs: Docs, req: Request, market: Market, xpub: Option<string>, now: Time)
  {
    xpub.Some? && !HasExternalId(docs, req.externalId) && Acceptable(docs, req, market, now)
  }

  /** create_invoice, from the lookup to the insert. `id` is the ObjectId a new document would get. */
  method CreateInvoice(mongo: InvoiceCollection, store: WalletStore, req: Request, c: Config, market: Market,
                       xpub: Option<string>, id: Id, now: Time)
      returns (result: CreateResult)
    requires mongo.Valid() && id !in mongo.docs
    modifies mongo, store
    ensures mongo.Valid()
    ensures xpub.None? ==> result == WalletUnavailable
    ensures xpub.Some? && HasExternalId(old(mongo.docs), req.externalId) ==> AnsweredFrom(old(mongo.docs), req, result)
    ensures xpub.Some? && !HasExternalId(old(mongo.docs), req.externalId) ==>
      Acceptable(old(mongo.docs), req, market, now) || RefusedFor(result, old(mongo.docs), req, market, now)
    ensures !Proceeds(old(mongo.docs), req, market, xpub, now) ==>
      mongo.docs == old(mongo.docs) && store.wallets == old(store.wallets)
    ensures Proceeds(old(mongo.docs), req, market, xpub, now) ==>
      IndexTaken(old(Stores(mongo.docs, store.wallets)), Stores(mongo.docs, store.wallets),
        req, c, xpub.value, PriceOf(req, market).value, id, now, result)
  {
    if xpub.None? {
      return WalletUnavailable;
    }
    var existing := FindByExternalId(mongo, req.externalId);
    if existing.Some? {
      if SameRequest(existing.value, req) {
        return Existing(existing.value);
      }
      return DuplicateExternalId;
    }
    var refusal, duffs := Screen(mongo, req, market, now);
    if refusal.Some? {
      return refusal.value;
    }
    result := TakeIndexAndInsert(mongo, store, req, c, xpub.value, duffs, id, now);
  }
}
