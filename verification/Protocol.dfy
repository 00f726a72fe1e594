/**
 * The settlement protocol under every interleaving: any number of watcher tasks read, decide and
 * write back, while invoices are created and canceled in between.
 */
module Protocol {
  import opened Base
  import opened Settlement
  import opened SettlementLaws
  import opened Invoices

  /** A watcher task in flight: it has read a snapshot, and perhaps also heard from the node. */
  datatype Pending =
    | Loaded(snap: Invoice)
    | Decided(snap: Invoice, utxos: seq<Utxo>, dust: int, now: Time)

  function DecisionOf(p: Pending): Decision
    requires p.Decided?
  {
    DecideFor(p.snap, p.utxos, p.dust, p.now)
  }

  /** The collection, the tasks in flight, and the latest time any task has read from the clock. */
  datatype System = System(docs: Docs, pending: map<nat, Pending>, clock: Time)

  datatype Action =
    | Create(inv: Invoice)
    | Load(task: nat, id: Id)
    | Judge(task: nat, utxos: seq<Utxo>, dust: int, now: Time)
    | Persist(task: nat)
    | Cancel(id: Id, now: Time)
    | Drop(task: nat)

  /** The node may answer anything, as long as it lists each outpoint once. */
  ghost predicate Enabled(s: System, a: Action) {
    match a
    case Create(inv) => inv.id !in s.docs && IsNew(inv)
    case Load(task, id) =>
      task !in s.pending && id in s.docs && s.docs[id].state in WATCH_STATES && s.docs[id].sweptAt.None?
    case Judge(task, utxos, _, _) => task in s.pending && s.pending[task].Loaded? && DistinctOutpoints(utxos)
    case Persist(task) => task in s.pending && s.pending[task].Decided?
    case Cancel(_, _) => true
    case Drop(task) => task in s.pending
  }

  ghost function After(s: System, a: Action): System
    requires Enabled(s, a)
  {
    match a
    case Create(inv) => s.(docs := s.docs[inv.id := inv])
    case Load(task, id) => s.(pending := s.pending[task := Loaded(s.docs[id])])
    case Judge(task, utxos, dust, now) =>
      s.(pending := s.pending[task := Decided(s.pending[task].snap, utxos, dust, now)], clock := Max(s.clock, now))
    case Persist(task) =>
      var p := s.pending[task];
      s.(docs := Persisted(s.docs, p.snap, DecisionOf(p), p.now), pending := s.pending - {task})
    case Cancel(id, now) => s.(docs := CanceledIn(s.docs, id, now))
    case Drop(task) => s.(pending := s.pending - {task})
  }

  ghost predicate Taken(trace: seq<System>, acts: seq<Action>, i: nat)
    requires i < |acts| && |trace| == |acts| + 1
  {
    Enabled(trace[i], acts[i]) && trace[i + 1] == After(trace[i], acts[i])
  }

  ghost predicate Run(trace: seq<System>, acts: seq<Action>) {
    && |trace| == |acts| + 1
    && trace[0].docs == map[] && trace[0].pending == map[]
    && forall i :: 0 <= i < |acts| ==> Taken(trace, acts, i)
  }

  // ---------- the state graph ----------

  /** One step of an invoice's history, or none. */
  predicate Edge(a: InvoiceState, b: InvoiceState) {
    || a == b
    || (a == Open && b in {Detected, Settled, Overpaid, Expired, Canceled})
    || (a == Detected && b in {Settled, Overpaid, Underpaid})
  }

  /** Any number of steps. */
  predicate Path(a: InvoiceState, b: InvoiceState) {
    a == b || a == Open || (a == Detected && b in {Settled, Overpaid, Underpaid})
  }

  function Rank(s: InvoiceState): nat { if s == Open then 0 else if s == Detected then 1 else 2 }

  // ---------- the invariant ----------

  /** What every stored document satisfies, whatever the interleaving. */
  ghost predicate Consistent(d: Invoice) {
    && DistinctKeys(d.txids)
    && d.duffsReceived == Total(d.txids)
    && d.detectedAt == d.firstSeenAt
    && (d.satsCredited == if d.state in {Settled, Overpaid} then Some(d.terms.satsRequested) else None)
    && (d.settledAt.Some? <==> d.state in {Settled, Overpaid})
    && match d.state
       case Open => d.txids == [] && d.firstSeenAt.None? && !d.latePayment && d.canceledAt.None?
       case Expired => d.firstSeenAt.None?
       case Canceled => d.firstSeenAt.None?
       case _ =>
         && d.firstSeenAt == FirstSeen(Pre(d.txids, d.terms.expiresAt)) && d.firstSeenAt.Some?
         && (d.satsCredited.Some? <==> QualSum(d.txids, d.terms) >= Threshold(d.terms))
         && (d.state == Overpaid <==> d.satsCredited.Some? && QualSum(d.txids, d.terms) > d.terms.duffsQuoted)
  }

  /** A task's snapshot is an earlier version of its document. */
  ghost predicate Follows(p: Pending, docs: Docs) {
    && p.snap.state in WATCH_STATES
    && Consistent(p.snap)
    && p.snap.id in docs
    && docs[p.snap.id].terms == p.snap.terms
    && Path(p.snap.state, docs[p.snap.id].state)
    && (p.Decided? ==> DistinctOutpoints(p.utxos))
  }

  ghost predicate AllConsistent(docs: Docs) {
    forall id :: id in docs ==> docs[id].id == id && Consistent(docs[id])
  }

  ghost predicate Inv(s: System) {
    && AllConsistent(s.docs)
    && (forall task :: task in s.pending ==> Follows(s.pending[task], s.docs))
  }

  // ---------- what a decision can do ----------

  lemma ReportedFacts(utxos: seq<Utxo>, dust: int, now: Time)
    requires DistinctOutpoints(utxos)
    ensures DistinctKeys(Reported(utxos, dust, now))
    ensures forall o :: o in Reported(utxos, dust, now) ==> o.detectedAt == now && o.duffs >= 0 && o.duffs >= dust
  {
    var worth := Filter(utxos, Worth(dust));
    FilterKeepsDistinctOutpoints(utxos, Worth(dust));
    var r := Reported(utxos, dust, now);
    forall o | o in r ensures o.detectedAt == now && o.duffs >= 0 && o.duffs >= dust {
      var i :| 0 <= i < |r| && r[i] == o;
      assert worth[i] in worth && Worth(dust)(worth[i]);
    }
  }

  lemma {:induction false} FilterKeepsDistinctOutpoints(utxos: seq<Utxo>, p: Utxo -> bool)
    requires DistinctOutpoints(utxos)
    ensures DistinctOutpoints(Filter(utxos, p))
  {
    if utxos != [] {
      assert DistinctOutpoints(utxos[1..]);
      FilterKeepsDistinctOutpoints(utxos[1..], p);
      var rest := Filter(utxos[1..], p);
      assert forall j :: 0 <= j < |rest| ==> rest[j] in utxos[1..] && rest[j].key != utxos[0].key;
    }
  }

  /** With nothing recorded, everything a tick sees is first seen at that tick. */
  lemma NothingRecorded(utxos: seq<Utxo>, dust: int, now: Time)
    requires DistinctOutpoints(utxos)
    ensures forall o :: o in Merge([], Reported(utxos, dust, now)) ==> o.detectedAt == now
  {
    ReportedFacts(utxos, dust, now);
    var r := Reported(utxos, dust, now);
    forall o | o in Merge([], r) ensures o.detectedAt == now {
      MergeOrigin([], r, o);
    }
  }

  /** With every output first seen now, time up means EXPIRED; before that, OPEN means nothing was seen. */
  lemma DecisionOnFresh(now: Time, t: Terms, outputs: seq<Output>)
    requires forall o :: o in outputs ==> o.detectedAt == now
    ensures var d := DecideActive(now, t, EvidenceOf(t, outputs), outputs);
      && d.state in {Open, Detected, Settled, Overpaid, Expired}
      && (d.state == Expired <==> now >= t.expiresAt)
      && (d.state == Open <==> now < t.expiresAt && outputs == [])
  {
    if now < t.expiresAt {
      FilterAll(outputs, SeenBefore(t.expiresAt));
    } else {
      FilterNone(outputs, SeenBefore(t.expiresAt));
    }
    ActiveDecision(now, t, EvidenceOf(t, outputs), outputs);
  }

  /** Facts every decision for an OPEN or DETECTED invoice has, whatever its evidence. */
  lemma ActiveDecision(now: Time, t: Terms, e: Evidence, outputs: seq<Output>)
    ensures var d := DecideActive(now, t, e, outputs);
      && d.txids == outputs && d.duffsReceived == e.total && d.detectedAt == d.firstSeenAt == e.firstSeen
      && (d.settledAt.Some? <==> d.satsCredited.Some?)
      && d.state != Canceled
      && (d.state in {Open, Expired} <==> e.firstSeen.None?)
      && (d.state == Overpaid <==> d.satsCredited.Some? && e.qualSum > t.duffsQuoted)
      && (d.state == Open ==> !d.latePayment && now < t.expiresAt)
      && (d.state == Expired ==> now >= t.expiresAt)
      && (d.state == Underpaid ==> now >= t.expiresAt)
  {
  }

  /** What an in-flight decision may be, given the snapshot it was made from. */
  predicate Decidable(prev: InvoiceState, expiresAt: Time, now: Time, d: Decision) {
    match prev
    case Open =>
      && d.state in {Open, Detected, Settled, Overpaid, Expired}
      && (d.state == Expired <==> now >= expiresAt)
      && (d.state == Open ==> d.txids == [])
    case Detected => d.state in {Detected, Settled, Overpaid, Underpaid}
    case _ => d.state == prev
  }

  /** A document with these terms is consistent once this decision is written to it. */
  ghost predicate Sound(t: Terms, d: Decision, now: Time) {
    forall inv: Invoice :: inv.terms == t && (d.state == Open ==> inv.canceledAt.None?) ==>
      Consistent(Written(inv, d, now))
  }

  lemma SoundFromActive(prev: InvoiceState, now: Time, t: Terms, outputs: seq<Output>)
    requires Active(prev) && DistinctKeys(outputs)
    requires DecideActive(now, t, EvidenceOf(t, outputs), outputs).state == Open ==> outputs == []
    ensures Sound(t, Decide(prev, now, t, outputs, false), now)
  {
    CreditExactly(now, t, EvidenceOf(t, outputs), outputs);
    ActiveDecision(now, t, EvidenceOf(t, outputs), outputs);
  }

  lemma DecisionSound(snap: Invoice, utxos: seq<Utxo>, dust: int, now: Time)
    requires snap.state in WATCH_STATES && Consistent(snap) && DistinctOutpoints(utxos)
    ensures Decidable(snap.state, snap.terms.expiresAt, now, DecideFor(snap, utxos, dust, now))
    ensures Sound(snap.terms, DecideFor(snap, utxos, dust, now), now)
  {
    var outputs := Evaluated(snap, utxos, dust, now);
    EvaluatedDistinct(snap, utxos, dust, now);
    if snap.state == Open {
      NothingRecorded(utxos, dust, now);
    } else if snap.state == Detected {
      TimelyStays(snap, utxos, dust, now);
    }
    SoundFrom(snap.state, now, snap.terms, outputs);
  }

  lemma SoundFrom(prev: InvoiceState, now: Time, t: Terms, outputs: seq<Output>)
    requires prev in WATCH_STATES && DistinctKeys(outputs)
    requires prev == Open ==> forall o :: o in outputs ==> o.detectedAt == now
    requires prev == Detected ==> Pre(outputs, t.expiresAt) != []
    ensures Decidable(prev, t.expiresAt, now, Decide(prev, now, t, outputs, prev == Canceled))
    ensures Sound(t, Decide(prev, now, t, outputs, prev == Canceled), now)
  {
    if prev == Open {
      SoundFromOpen(now, t, outputs);
    } else if prev == Detected {
      SoundFromDetected(now, t, outputs);
    } else {
      SoundFromClosed(prev, now, t, outputs);
    }
  }

  lemma EvaluatedDistinct(snap: Invoice, utxos: seq<Utxo>, dust: int, now: Time)
    requires DistinctKeys(snap.txids) && DistinctOutpoints(utxos)
    ensures DistinctKeys(Evaluated(snap, utxos, dust, now))
    ensures Keys(Evaluated(snap, utxos, dust, now)) == Keys(snap.txids) + Keys(Reported(utxos, dust, now))
  {
    ReportedFacts(utxos, dust, now);
    MergeKeys(snap.txids, Reported(utxos, dust, now));
  }

  lemma SoundFromClosed(prev: InvoiceState, now: Time, t: Terms, outputs: seq<Output>)
    requires prev in {Expired, Canceled} && DistinctKeys(outputs)
    ensures Decidable(prev, t.expiresAt, now, Decide(prev, now, t, outputs, prev == Canceled))
    ensures Sound(t, Decide(prev, now, t, outputs, prev == Canceled), now)
  {
  }

  lemma SoundFromOpen(now: Time, t: Terms, outputs: seq<Output>)
    requires DistinctKeys(outputs)
    requires forall o :: o in outputs ==> o.detectedAt == now
    ensures Decidable(Open, t.expiresAt, now, Decide(Open, now, t, outputs, false))
    ensures Sound(t, Decide(Open, now, t, outputs, false), now)
  {
    DecisionOnFresh(now, t, outputs);
    SoundFromActive(Open, now, t, outputs);
  }

  lemma SoundFromDetected(now: Time, t: Terms, outputs: seq<Output>)
    requires DistinctKeys(outputs) && Pre(outputs, t.expiresAt) != []
    ensures Decidable(Detected, t.expiresAt, now, Decide(Detected, now, t, outputs, false))
    ensures Sound(t, Decide(Detected, now, t, outputs, false), now)
  {
    ActiveDecision(now, t, EvidenceOf(t, outputs), outputs);
    SoundFromActive(Detected, now, t, outputs);
  }

  /** A recorded timely output is still there when the next tick decides. */
  lemma TimelyStays(snap: Invoice, utxos: seq<Utxo>, dust: int, now: Time)
    requires snap.state == Detected && Consistent(snap)
    ensures Pre(Evaluated(snap, utxos, dust, now), snap.terms.expiresAt) != []
  {
    var e := snap.terms.expiresAt;
    var first := FirstSeenIsLeast(Pre(snap.txids, e));
    assert SeenBefore(e)(first);
    var kept := MergeRetains(snap.txids, Reported(utxos, dust, now), first);
    PreNonEmpty(Evaluated(snap, utxos, dust, now), e, kept);
  }

  lemma PreNonEmpty(outputs: seq<Output>, at: Time, o: Output)
    requires o in outputs && o.detectedAt < at
    ensures Pre(outputs, at) != []
  {
    assert SeenBefore(at)(o);
  }

  // ---------- one step ----------

  /** What no step changes in a document: identity, terms, and everything once it is paid or underpaid. */
  ghost predicate Advances(a: Invoice, b: Invoice) {
    && b.id == a.id && b.terms == a.terms && b.address == a.address && b.createdAt == a.createdAt
    && Edge(a.state, b.state)
    && (a.state in {Settled, Overpaid, Underpaid} ==> b == a)
  }

  /** A write that the compare-and-set lets through follows an edge from the state it overwrites. */
  lemma WriteFollowsEdge(prev: InvoiceState, current: InvoiceState, expiresAt: Time, now: Time, d: Decision)
    requires prev in WATCH_STATES && Path(prev, current) && Decidable(prev, expiresAt, now, d)
    requires current in Allowed(prev, d.state)
    ensures Edge(current, d.state) && current !in {Settled, Overpaid, Underpaid}
    ensures current == Open ==> prev == Open
    ensures d.state == Open ==> current == Open
  {
  }

  /** The write of a task in flight, seen from the document it overwrites. */
  lemma PersistStep(p: Pending, inv: Invoice)
    requires p.Decided? && p.snap.state in WATCH_STATES && Consistent(p.snap) && DistinctOutpoints(p.utxos)
    requires inv.terms == p.snap.terms && Path(p.snap.state, inv.state) && Consistent(inv)
    requires inv.state in Allowed(p.snap.state, DecisionOf(p).state)
    ensures Consistent(Written(inv, DecisionOf(p), p.now))
    ensures Advances(inv, Written(inv, DecisionOf(p), p.now))
    ensures inv.state == Open ==> p.snap.state == Open
  {
    DecisionSound(p.snap, p.utxos, p.dust, p.now);
    WriteFollowsEdge(p.snap.state, inv.state, inv.terms.expiresAt, p.now, DecisionOf(p));
  }

  ghost predicate AllAdvance(before: Docs, after: Docs) {
    forall id :: id in before ==> id in after && Advances(before[id], after[id])
  }

  lemma FollowsAfter(q: Pending, before: Docs, after: Docs)
    requires Follows(q, before) && AllAdvance(before, after)
    ensures Follows(q, after)
  {
  }

  lemma PersistedStep(docs: Docs, p: Pending)
    requires AllConsistent(docs) && Follows(p, docs) && p.Decided?
    ensures var after := Persisted(docs, p.snap, DecisionOf(p), p.now);
      AllConsistent(after) && AllAdvance(docs, after)
  {
    if docs[p.snap.id].state in Allowed(p.snap.state, DecisionOf(p).state) {
      PersistStep(p, docs[p.snap.id]);
    }
  }

  /** The collection after any action: still consistent, every document advanced by at most one step. */
  lemma DocsStep(s: System, a: Action)
    requires Inv(s) && Enabled(s, a)
    ensures AllConsistent(After(s, a).docs) && AllAdvance(s.docs, After(s, a).docs)
  {
    match a
    case Create(inv) =>
    case Load(task, id) =>
    case Judge(task, utxos, dust, now) =>
    case Persist(task) => PersistedStep(s.docs, s.pending[task]);
    case Cancel(id, now) =>
    case Drop(task) =>
  }

  lemma StepKeeps(s: System, a: Action)
    requires Inv(s) && Enabled(s, a)
    ensures Inv(After(s, a)) && AllAdvance(s.docs, After(s, a).docs)
  {
    var s' := After(s, a);
    DocsStep(s, a);
    forall t | t in s'.pending ensures Follows(s'.pending[t], s'.docs) {
      if t in s.pending {
        FollowsAfter(s.pending[t], s.docs, s'.docs);
      }
    }
  }

  // ---------- whole runs ----------

  lemma {:induction false} RunKeeps(trace: seq<System>, acts: seq<Action>, i: nat)
    requires Run(trace, acts) && i < |trace|
    ensures Inv(trace[i])
  {
    if i > 0 {
      RunKeeps(trace, acts, i - 1);
      assert Taken(trace, acts, i - 1);
      StepKeeps(trace[i - 1], acts[i - 1]);
    }
  }

  /** A run goes on by any action its last state enables. */
  lemma ExtendRun(trace: seq<System>, acts: seq<Action>, a: Action) returns (longer: seq<System>)
    requires Run(trace, acts) && Enabled(trace[|acts|], a)
    ensures Run(longer, acts + [a])
    ensures longer == trace + [After(trace[|acts|], a)]
  {
    longer := trace + [After(trace[|acts|], a)];
    forall i | 0 <= i < |acts + [a]| ensures Taken(longer, acts + [a], i) {
      if i < |acts| {
        assert Taken(trace, acts, i);
      }
    }
  }

  /** How a document at one time relates to the same document at any later time. */
  ghost predicate Precedes(a: Invoice, b: Invoice) {
    && b.id == a.id && b.terms == a.terms && b.address == a.address && b.createdAt == a.createdAt
    && Path(a.state, b.state)
    && (a.state in {Settled, Overpaid, Underpaid} ==> b == a)
    && (a.settledAt.Some? ==> b.settledAt == a.settledAt)
    && (a.satsCredited.Some? ==> b.satsCredited == a.satsCredited)
  }

  /** One step of a run, seen from one invoice. */
  lemma StepAt(trace: seq<System>, acts: seq<Action>, i: nat, id: Id)
    requires Run(trace, acts) && i < |acts| && id in trace[i].docs
    ensures id in trace[i + 1].docs && Advances(trace[i].docs[id], trace[i + 1].docs[id])
    ensures Consistent(trace[i].docs[id])
  {
    RunKeeps(trace, acts, i);
    assert Taken(trace, acts, i);
    StepKeeps(trace[i], acts[i]);
  }

  lemma PrecedesThenAdvances(a: Invoice, b: Invoice, c: Invoice)
    requires Precedes(a, b) && Consistent(b) && Advances(b, c)
    ensures Precedes(a, c)
  {
  }

  /** Every invoice's history is a path of the state graph; credit and settlement time are set once and stay. */
  lemma {:induction false} HistoryIsAPath(trace: seq<System>, acts: seq<Action>, i: nat, j: nat, id: Id)
    requires Run(trace, acts) && i <= j < |trace| && id in trace[i].docs
    ensures id in trace[j].docs && Precedes(trace[i].docs[id], trace[j].docs[id])
    decreases j
  {
    if i < j {
      HistoryIsAPath(trace, acts, i, j - 1, id);
      StepAt(trace, acts, j - 1, id);
      PrecedesThenAdvances(trace[i].docs[id], trace[j - 1].docs[id], trace[j].docs[id]);
    }
  }

  /** How many of the steps from i to j change the state of this invoice. */
  ghost function Changes(trace: seq<System>, id: Id, i: nat, j: nat): nat
    requires i <= j < |trace|
    requires forall k :: i <= k <= j ==> id in trace[k].docs
    decreases j
  {
    if i == j then 0
    else Changes(trace, id, i, j - 1) + if trace[j - 1].docs[id].state != trace[j].docs[id].state then 1 else 0
  }

  lemma StaysPresent(trace: seq<System>, acts: seq<Action>, i: nat, j: nat, id: Id)
    requires Run(trace, acts) && i <= j < |trace| && id in trace[i].docs
    ensures forall k :: i <= k <= j ==> id in trace[k].docs
  {
    forall k | i <= k <= j ensures id in trace[k].docs {
      HistoryIsAPath(trace, acts, i, k, id);
    }
  }

  lemma EdgeRaisesRank(a: InvoiceState, b: InvoiceState)
    requires Edge(a, b)
    ensures a == b || Rank(a) < Rank(b)
  {
  }

  /** No invoice changes state more than twice. */
  lemma {:induction false} AtMostTwoChanges(trace: seq<System>, acts: seq<Action>, i: nat, j: nat, id: Id)
    requires Run(trace, acts) && i <= j < |trace| && id in trace[i].docs
    ensures forall k :: i <= k <= j ==> id in trace[k].docs
    ensures Changes(trace, id, i, j) <= Rank(trace[j].docs[id].state) - Rank(trace[i].docs[id].state) <= 2
    decreases j
  {
    StaysPresent(trace, acts, i, j, id);
    if i < j {
      AtMostTwoChanges(trace, acts, i, j - 1, id);
      StepAt(trace, acts, j - 1, id);
      EdgeRaisesRank(trace[j - 1].docs[id].state, trace[j].docs[id].state);
    }
  }

  /** An invoice that leaves OPEN by the write of a tick at or after its expiry becomes EXPIRED. */
  lemma LeavingOpenLate(trace: seq<System>, acts: seq<Action>, i: nat, id: Id)
    requires Run(trace, acts) && i < |acts| && Taken(trace, acts, i)
    requires id in trace[i].docs && trace[i].docs[id].state == Open
    requires id in trace[i + 1].docs && trace[i + 1].docs[id].state != Open
    requires acts[i].Persist? && trace[i].pending[acts[i].task].now >= trace[i].docs[id].terms.expiresAt
    ensures trace[i + 1].docs[id].state == Expired
  {
    RunKeeps(trace, acts, i);
    var p := trace[i].pending[acts[i].task];
    var inv := trace[i].docs[p.snap.id];
    PersistStep(p, inv);
    DecisionSound(p.snap, p.utxos, p.dust, p.now);
  }

  /** In any reachable state a cancel succeeds exactly on OPEN invoices, and then no output was recorded. */
  lemma CancelOnlyUntouched(trace: seq<System>, acts: seq<Action>, i: nat, id: Id)
    requires Run(trace, acts) && i < |trace| && id in trace[i].docs
    ensures Cancelable(trace[i].docs, id) <==> trace[i].docs[id].state == Open
    ensures Cancelable(trace[i].docs, id) ==> trace[i].docs[id].txids == [] && trace[i].docs[id].duffsReceived == 0
  {
    RunKeeps(trace, acts, i);
  }

  /** What is stored about every reachable invoice, state by state. */
  lemma ReachableDocuments(trace: seq<System>, acts: seq<Action>, i: nat, id: Id)
    requires Run(trace, acts) && i < |trace| && id in trace[i].docs
    ensures var d := trace[i].docs[id];
      && (d.state == Open ==> d.txids == [] && d.duffsReceived == 0 && d.firstSeenAt.None?)
      && (d.state == Detected ==> exists o :: o in d.txids && o.detectedAt < d.terms.expiresAt)
      && (d.firstSeenAt.Some? ==>
        exists o :: o in d.txids && d.firstSeenAt == Some(o.detectedAt) && o.detectedAt < d.terms.expiresAt)
  {
    RunKeeps(trace, acts, i);
    var d := trace[i].docs[id];
    if d.firstSeenAt.Some? {
      var first := FirstSeenIsLeast(Pre(d.txids, d.terms.expiresAt));
      assert first in d.txids && SeenBefore(d.terms.expiresAt)(first);
    }
  }

  /** Credits are sound: the paid states carry one, for the requested amount, on enough timely qualifying duffs. */
  lemma CreditsAreSound(trace: seq<System>, acts: seq<Action>, i: nat, id: Id)
    requires Run(trace, acts) && i < |trace| && id in trace[i].docs
    ensures var d := trace[i].docs[id];
      && (d.satsCredited.Some? <==> d.state in {Settled, Overpaid})
      && (d.satsCredited.Some? ==>
        && d.satsCredited == Some(d.terms.satsRequested)
        && QualSum(d.txids, d.terms) >= d.terms.duffsQuoted - Max(0, Tolerance(d.terms))
        && (d.state == Overpaid <==> QualSum(d.txids, d.terms) > d.terms.duffsQuoted))
      && (d.state in {Detected, Underpaid} ==> QualSum(d.txids, d.terms) < Threshold(d.terms))
      && (d.satsCredited.Some? && d.terms.duffsQuoted > 0 && Tolerance(d.terms) < d.terms.duffsQuoted ==>
        exists o :: o in d.txids && o.detectedAt < d.terms.expiresAt && Qualifies(o, d.terms.policy))
  {
    RunKeeps(trace, acts, i);
    var d := trace[i].docs[id];
    if d.satsCredited.Some? && d.terms.duffsQuoted > 0 && Tolerance(d.terms) < d.terms.duffsQuoted {
      PositiveSumHasOutput(d.txids, d.terms);
    }
  }

  lemma PositiveSumHasOutput(outputs: seq<Output>, t: Terms)
    requires QualSum(outputs, t) > 0
    ensures exists o :: o in outputs && o.detectedAt < t.expiresAt && Qualifies(o, t.policy)
  {
    var good := Qualifying(outputs, t);
    assert good != [];
    assert MeetsPolicy(t.policy)(good[0]) && good[0] in Pre(outputs, t.expiresAt);
    assert SeenBefore(t.expiresAt)(good[0]);
  }
}
