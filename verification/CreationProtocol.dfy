/** Creates and boots under every interleaving: each lookup, allocation and insert is its own atomic step. */
module CreationProtocol {
  import opened Settlement
  import opened Invoices
  import opened Collection
  import opened Creation

  /** A request or a boot between two of its steps. A crash drops it. */
  datatype Task =
    | Screened(req: Request, network: Network, xpub: string)
    | Holding(req: Request, network: Network, xpub: string, index: nat)
    | Booting(row: Wallet)

  datatype World = World(docs: Docs, wallets: Wallets, tasks: map<nat, Task>)

  /** Touch stands for the writes of the watcher and of cancel. */
  datatype Action =
    | Begin(task: nat, req: Request, network: Network, xpub: string)
    | Allocate(task: nat)
    | Insert(task: nat, inv: Invoice)
    | Boot(task: nat, network: Network, xpub: string, fingerprint: string)
    | BootInsert(task: nat)
    | Touch(id: Id, inv: Invoice)
    | Drop(task: nat)

  /** What no write changes in a document once it is inserted. */
  predicate SameIdentity(a: Invoice, b: Invoice) {
    && b.id == a.id && b.externalId == a.externalId && b.address == a.address
    && b.expiresInS == a.expiresInS && b.terms == a.terms
  }

  /** The document a task holding an index inserts. */
  predicate DocumentOf(t: Task, inv: Invoice)
    requires t.Holding?
  {
    && IsNew(inv) && inv.externalId == t.req.externalId && SameRequest(inv, t.req)
    && inv.address == Address(t.network, t.xpub, t.index)
  }

  ghost predicate Enabled(w: World, a: Action) {
    match a
    case Begin(task, req, _, _) => task !in w.tasks && !HasExternalId(w.docs, req.externalId)
    case Allocate(task) => task in w.tasks && w.tasks[task].Screened? && w.tasks[task].network in w.wallets
    case Insert(task, inv) =>
      task in w.tasks && w.tasks[task].Holding? && inv.id !in w.docs && DocumentOf(w.tasks[task], inv)
    case Boot(task, network, xpub, fingerprint) =>
      task !in w.tasks && network !in w.wallets && KeyComplete(xpub, fingerprint)
    case BootInsert(task) => task in w.tasks && w.tasks[task].Booting?
    case Touch(id, inv) => id in w.docs && SameIdentity(w.docs[id], inv)
    case Drop(task) => task in w.tasks
  }

  /** The range check sits between allocation and insert: past the end nothing is inserted and the index is lost. */
  ghost function After(w: World, a: Action, rangeEnd: int): World
    requires Enabled(w, a)
  {
    match a
    case Begin(task, req, network, xpub) => w.(tasks := w.tasks[task := Screened(req, network, xpub)])
    case Allocate(task) =>
      var t := w.tasks[task];
      w.(wallets := AllocatedIn(w.wallets, t.network),
         tasks := w.tasks[task := Holding(t.req, t.network, t.xpub, w.wallets[t.network].nextReceiveIndex)])
    case Insert(task, inv) =>
      w.(docs := if w.tasks[task].index >= rangeEnd then w.docs else Inserted(w.docs, inv), tasks := w.tasks - {task})
    case Boot(task, network, xpub, fingerprint) =>
      w.(tasks := w.tasks[task := Booting(FirstWallet(network, xpub, fingerprint))])
    case BootInsert(task) => w.(wallets := RowInserted(w.wallets, w.tasks[task].row), tasks := w.tasks - {task})
    case Touch(id, inv) => w.(docs := w.docs[id := inv])
    case Drop(task) => w.(tasks := w.tasks - {task})
  }

  ghost predicate Taken(trace: seq<World>, acts: seq<Action>, rangeEnd: int, i: nat)
    requires i < |acts| && |trace| == |acts| + 1
  {
    Enabled(trace[i], acts[i]) && trace[i + 1] == After(trace[i], acts[i], rangeEnd)
  }

  ghost predicate Run(trace: seq<World>, acts: seq<Action>, rangeEnd: int) {
    && |trace| == |acts| + 1
    && trace[0] == World(map[], map[], map[])
    && forall i :: 0 <= i < |acts| ==> Taken(trace, acts, rangeEnd, i)
  }

  /** Persisting a decision and canceling are such writes. */
  lemma WritesKeepIdentity(docs: Docs, snap: Invoice, d: Decision, id: Id, now: Time)
    ensures forall k :: k in docs ==>
      k in Persisted(docs, snap, d, now) && SameIdentity(docs[k], Persisted(docs, snap, d, now)[k])
    ensures forall k :: k in docs ==>
      k in CanceledIn(docs, id, now) && SameIdentity(docs[k], CanceledIn(docs, id, now)[k])
  {
  }

  // ---------- the invariant ----------

  /** The index lies below what the network's row would hand out next. */
  predicate Issued(wallets: Wallets, network: Network, index: nat) {
    network in wallets && index < wallets[network].nextReceiveIndex
  }

  ghost predicate StoredOk(w: World, rangeEnd: int) {
    && (forall id :: id in w.docs ==>
      && w.docs[id].id == id
      && Issued(w.wallets, w.docs[id].address.network, w.docs[id].address.index)
      && w.docs[id].address.index < rangeEnd)
    && UniqueExternalIds(w.docs)
  }

  predicate SameIndex(a: Address, network: Network, index: nat) { a.network == network && a.index == index }

  ghost predicate StoredDistinct(docs: Docs) {
    forall a, b ::
      a in docs && b in docs && SameIndex(docs[a].address, docs[b].address.network, docs[b].address.index) ==> a == b
  }

  ghost predicate HeldOk(w: World, t: nat)
    requires t in w.tasks
  {
    w.tasks[t].Holding? ==>
      && Issued(w.wallets, w.tasks[t].network, w.tasks[t].index)
      && forall id :: id in w.docs ==> !SameIndex(w.docs[id].address, w.tasks[t].network, w.tasks[t].index)
  }

  predicate SameHolding(a: Task, b: Task) {
    a.Holding? && b.Holding? && a.network == b.network && a.index == b.index
  }

  ghost predicate HeldDistinct(tasks: map<nat, Task>) {
    forall t, u :: t in tasks && u in tasks && SameHolding(tasks[t], tasks[u]) ==> t == u
  }

  ghost predicate Inv(w: World, rangeEnd: int) {
    && StoredOk(w, rangeEnd) && StoredDistinct(w.docs)
    && (forall t :: t in w.tasks ==> HeldOk(w, t)) && HeldDistinct(w.tasks)
  }

  /** How one state relates to any later one. */
  ghost predicate Later(a: World, b: World) {
    && (forall n :: n in a.wallets ==> n in b.wallets && RowKept(a.wallets[n], b.wallets[n]))
    && (forall id :: id in a.docs ==> id in b.docs && SameIdentity(a.docs[id], b.docs[id]))
  }

  /** A row keeps its key; its counter never goes back. */
  predicate RowKept(a: Wallet, b: Wallet) {
    b.accountXpub == a.accountXpub && b.fingerprint == a.fingerprint && a.nextReceiveIndex <= b.nextReceiveIndex
  }

  // ---------- steps ----------

  lemma AllocateKeeps(w: World, task: nat, rangeEnd: int)
    requires Inv(w, rangeEnd) && Enabled(w, Allocate(task))
    ensures Inv(After(w, Allocate(task), rangeEnd), rangeEnd)
  {
    var w' := After(w, Allocate(task), rangeEnd);
    var fresh' := w'.tasks[task];
    assert !Issued(w.wallets, fresh'.network, fresh'.index);
    forall t | t in w.tasks && t != task ensures HeldOk(w', t) && !SameHolding(w.tasks[t], fresh') {
      assert HeldOk(w, t);
    }
    forall t, u | t in w'.tasks && u in w'.tasks && SameHolding(w'.tasks[t], w'.tasks[u]) ensures t == u {
      if t != task && u != task {
        assert SameHolding(w.tasks[t], w.tasks[u]);
      }
    }
  }

  /** An insert can only be refused because of the external id. */
  lemma OnlyExternalIdClashes(w: World, task: nat, inv: Invoice, rangeEnd: int)
    requires Inv(w, rangeEnd) && Enabled(w, Insert(task, inv))
    ensures Clashes(w.docs, inv) <==> HasExternalId(w.docs, inv.externalId)
  {
    var held := w.tasks[task];
    assert HeldOk(w, task);
    forall id | id in w.docs ensures w.docs[id].address != inv.address {
      assert !SameIndex(w.docs[id].address, held.network, held.index);
    }
  }

  lemma InsertKeeps(w: World, task: nat, inv: Invoice, rangeEnd: int)
    requires Inv(w, rangeEnd) && Enabled(w, Insert(task, inv))
    ensures Inv(After(w, Insert(task, inv), rangeEnd), rangeEnd)
  {
    var w' := After(w, Insert(task, inv), rangeEnd);
    var held := w.tasks[task];
    assert HeldOk(w, task);
    forall t | t in w'.tasks ensures HeldOk(w', t) {
      assert HeldOk(w, t);
      assert !SameHolding(w.tasks[t], held);
    }
    forall t, u | t in w'.tasks && u in w'.tasks && SameHolding(w'.tasks[t], w'.tasks[u]) ensures t == u {
      assert SameHolding(w.tasks[t], w.tasks[u]);
    }
  }

  lemma QuietKeeps(w: World, a: Action, rangeEnd: int)
    requires Inv(w, rangeEnd) && Enabled(w, a) && !a.Allocate? && !a.Insert?
    ensures Inv(After(w, a, rangeEnd), rangeEnd)
  {
    var w' := After(w, a, rangeEnd);
    forall t | t in w'.tasks ensures HeldOk(w', t) {
      if t in w.tasks {
        assert HeldOk(w, t);
      }
    }
    forall t, u | t in w'.tasks && u in w'.tasks && SameHolding(w'.tasks[t], w'.tasks[u]) ensures t == u {
      assert SameHolding(w.tasks[t], w.tasks[u]);
    }
  }

  lemma StepGoesLater(w: World, a: Action, rangeEnd: int)
    requires Enabled(w, a)
    ensures Later(w, After(w, a, rangeEnd))
  {
  }

  lemma StepKeeps(w: World, a: Action, rangeEnd: int)
    requires Inv(w, rangeEnd) && Enabled(w, a)
    ensures Inv(After(w, a, rangeEnd), rangeEnd)
  {
    match a
    case Allocate(task) => AllocateKeeps(w, task, rangeEnd);
    case Insert(task, inv) => InsertKeeps(w, task, inv, rangeEnd);
    case _ => QuietKeeps(w, a, rangeEnd);
  }

  // ---------- whole runs ----------

  /**
   * In every reachable state: stored and held indices of a network are pairwise distinct and already issued, stored
   * ones lie below the end of the descriptor range, and no two invoices share an external id.
   */
  lemma {:induction false} CreationInvariant(trace: seq<World>, acts: seq<Action>, rangeEnd: int, i: nat)
    requires Run(trace, acts, rangeEnd) && i < |trace|
    ensures Inv(trace[i], rangeEnd)
  {
    if i > 0 {
      CreationInvariant(trace, acts, rangeEnd, i - 1);
      assert Taken(trace, acts, rangeEnd, i - 1);
      StepKeeps(trace[i - 1], acts[i - 1], rangeEnd);
    }
  }

  /** Invoices never share an address, so the unique index on addresses never refuses an insert. */
  lemma AddressesUnique(trace: seq<World>, acts: seq<Action>, rangeEnd: int, i: nat, a: Id, b: Id)
    requires Run(trace, acts, rangeEnd) && i < |trace| && a in trace[i].docs && b in trace[i].docs
    ensures trace[i].docs[a].address == trace[i].docs[b].address ==> a == b
    ensures trace[i].docs[a].externalId == trace[i].docs[b].externalId ==> a == b
  {
    CreationInvariant(trace, acts, rangeEnd, i);
  }

  /** A refused insert of a run was refused because of the external id, never because of the address. */
  lemma RefusalsAreDuplicates(trace: seq<World>, acts: seq<Action>, rangeEnd: int, i: nat)
    requires Run(trace, acts, rangeEnd) && i < |acts| && acts[i].Insert? && trace[i + 1].docs == trace[i].docs
    requires acts[i].task in trace[i].tasks && trace[i].tasks[acts[i].task].Holding?
    requires trace[i].tasks[acts[i].task].index < rangeEnd
    ensures HasExternalId(trace[i].docs, acts[i].inv.externalId)
  {
    CreationInvariant(trace, acts, rangeEnd, i);
    assert Taken(trace, acts, rangeEnd, i);
    OnlyExternalIdClashes(trace[i], acts[i].task, acts[i].inv, rangeEnd);
  }

  /** Rows keep their key and only count up; documents stay and keep their identity. */
  lemma {:induction false} LaterInRun(trace: seq<World>, acts: seq<Action>, rangeEnd: int, i: nat, j: nat)
    requires Run(trace, acts, rangeEnd) && i <= j < |trace|
    ensures Later(trace[i], trace[j])
    decreases j
  {
    if i < j {
      LaterInRun(trace, acts, rangeEnd, i, j - 1);
      assert Taken(trace, acts, rangeEnd, j - 1);
      StepGoesLater(trace[j - 1], acts[j - 1], rangeEnd);
    }
  }

  /** Once a network has been booted, only the same key boots it, at any later time and after any number of crashes. */
  lemma KeyStaysLocked(trace: seq<World>, acts: seq<Action>, rangeEnd: int, i: nat, j: nat, network: Network,
                       xpub: string, fingerprint: string)
    requires Run(trace, acts, rangeEnd) && i <= j < |trace| && network in trace[i].wallets
    ensures network in trace[j].wallets
    ensures KeyMatches(trace[j].wallets[network], network, xpub, fingerprint)
        <==> KeyMatches(trace[i].wallets[network], network, xpub, fingerprint)
  {
    LaterInRun(trace, acts, rangeEnd, i, j);
    RowsNamed(trace, acts, rangeEnd, i);
    RowsNamed(trace, acts, rangeEnd, j);
  }

  lemma {:induction false} RowsNamed(trace: seq<World>, acts: seq<Action>, rangeEnd: int, i: nat)
    requires Run(trace, acts, rangeEnd) && i < |trace|
    ensures forall n :: n in trace[i].wallets ==> trace[i].wallets[n].network == n
  {
    if i > 0 {
      RowsNamed(trace, acts, rangeEnd, i - 1);
      assert Taken(trace, acts, rangeEnd, i - 1);
    }
  }

  /**
   * Repeating a create that committed, at any later time: whatever the market and the configured key, the request
   * gets no further than the lookup, so that CreateInvoice allocates and inserts nothing, and its one answer is the
   * stored invoice.
   */
  lemma RetryReturnsCommitted(trace: seq<World>, acts: seq<Action>, rangeEnd: int, i: nat, j: nat, id: Id, req: Request)
    requires Run(trace, acts, rangeEnd) && i <= j < |trace| && id in trace[i].docs
    requires trace[i].docs[id].externalId == req.externalId
    requires trace[i].docs[id].terms.satsRequested == req.sats && trace[i].docs[id].expiresInS == req.expiresInS
    ensures id in trace[j].docs && HasExternalId(trace[j].docs, req.externalId)
    ensures forall market, xpub, now :: !Proceeds(trace[j].docs, req, market, xpub, now)
    ensures forall result :: AnsweredFrom(trace[j].docs, req, result) <==> result == Existing(trace[j].docs[id])
  {
    LaterInRun(trace, acts, rangeEnd, i, j);
    CreationInvariant(trace, acts, rangeEnd, j);
    assert trace[j].docs[id].externalId == req.externalId;
  }

  /** Each allocation of a run hands out an index that no earlier state of the run had issued. */
  lemma AllocationsAreNew(trace: seq<World>, acts: seq<Action>, rangeEnd: int, i: nat, j: nat)
    requires Run(trace, acts, rangeEnd) && i <= j < |acts| && acts[j].Allocate?
    ensures acts[j].task in trace[j + 1].tasks && trace[j + 1].tasks[acts[j].task].Holding?
    ensures var t := trace[j + 1].tasks[acts[j].task];
      !Issued(trace[i].wallets, t.network, t.index) && Issued(trace[j + 1].wallets, t.network, t.index)
  {
    LaterInRun(trace, acts, rangeEnd, i, j);
    assert Taken(trace, acts, rangeEnd, j);
  }

  /** A request that reuses the external id with other satoshis or another expiry is always refused as a duplicate. */
  lemma OtherRequestIsDuplicate(trace: seq<World>, acts: seq<Action>, rangeEnd: int, i: nat, j: nat, id: Id,
                                req: Request)
    requires Run(trace, acts, rangeEnd) && i <= j < |trace| && id in trace[i].docs
    requires trace[i].docs[id].externalId == req.externalId
    requires trace[i].docs[id].terms.satsRequested != req.sats || trace[i].docs[id].expiresInS != req.expiresInS
    ensures forall market, xpub, now :: !Proceeds(trace[j].docs, req, market, xpub, now)
    ensures forall result :: AnsweredFrom(trace[j].docs, req, result) <==> result == DuplicateExternalId
  {
    LaterInRun(trace, acts, rangeEnd, i, j);
    CreationInvariant(trace, acts, rangeEnd, j);
    assert trace[j].docs[id].externalId == req.externalId;
  }

  // ---------- what the counters count ----------

  /** The i-th step allocates on this network. */
  predicate AllocatesOn(trace: seq<World>, acts: seq<Action>, i: nat, network: Network)
    requires i < |acts| && |trace| == |acts| + 1
  {
    acts[i].Allocate? && acts[i].task in trace[i].tasks && trace[i].tasks[acts[i].task].Screened?
    && trace[i].tasks[acts[i].task].network == network
  }

  function Allocations(trace: seq<World>, acts: seq<Action>, i: nat, network: Network): nat
    requires i <= |acts| && |trace| == |acts| + 1
  {
    if i == 0 then 0
    else Allocations(trace, acts, i - 1, network) + if AllocatesOn(trace, acts, i - 1, network) then 1 else 0
  }

  ghost predicate RowsBootAtZero(tasks: map<nat, Task>) {
    forall t :: t in tasks && tasks[t].Booting? ==> tasks[t].row.nextReceiveIndex == 0
  }

  lemma {:induction false} BootsAtZero(trace: seq<World>, acts: seq<Action>, rangeEnd: int, i: nat)
    requires Run(trace, acts, rangeEnd) && i < |trace|
    ensures RowsBootAtZero(trace[i].tasks)
  {
    if i > 0 {
      BootsAtZero(trace, acts, rangeEnd, i - 1);
      assert Taken(trace, acts, rangeEnd, i - 1);
    }
  }

  /** The next index of a network is the number of allocations it has seen: indices count from 0 without a gap. */
  lemma {:induction false} CountersCount(trace: seq<World>, acts: seq<Action>, rangeEnd: int, i: nat, network: Network)
    requires Run(trace, acts, rangeEnd) && i < |trace|
    ensures Allocations(trace, acts, i, network)
         == if network in trace[i].wallets then trace[i].wallets[network].nextReceiveIndex else 0
  {
    if i > 0 {
      CountersCount(trace, acts, rangeEnd, i - 1, network);
      BootsAtZero(trace, acts, rangeEnd, i - 1);
      assert Taken(trace, acts, rangeEnd, i - 1);
    }
  }
}
