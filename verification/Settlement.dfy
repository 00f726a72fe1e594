/** watcher/settlement.py: the settlement decision and the first-seen-preserving merge. */
module Settlement {
  import opened Base

  type Time = int

  datatype InvoiceState = Open | Detected | Settled | Underpaid | Overpaid | Expired | Canceled

  /** The states the watcher keeps loading. */
  const WATCH_STATES: set<InvoiceState> := {Open, Detected, Expired, Canceled}

  /** Identity of a transaction output on the chain. */
  datatype Outpoint = Outpoint(txid: string, vout: nat)

  /** One recorded output: a row of the stored `txids` list, and the value of a WatchedOutput. */
  datatype Output = Output(
    key: Outpoint,
    duffs: int,
    confirmations: int,
    instantlock: bool,
    chainlock: bool,
    detectedAt: Time)

  /** A stored settle_policy; a null or any other value is judged as conf_n is. */
  datatype SettlePolicy = InstantSendOrChainLock | ConfN | OtherValue

  /**
   * The policy dictionary. None stands for a missing settle_policy, and for a numeric entry that is missing or null.
   */
  datatype Policy = Policy(
    settle: Option<SettlePolicy>,
    toleranceBps: Option<int>,
    toleranceDuffs: Option<int>,
    minConfirmations: Option<int>)

  /** What an invoice fixes at creation and no later step changes. */
  datatype Terms = Terms(
    expiresAt: Time,
    settleDeadlineAt: Time,
    duffsQuoted: int,
    satsRequested: int,
    policy: Policy)

  datatype Decision = Decision(
    state: InvoiceState,
    firstSeenAt: Option<Time>,
    detectedAt: Option<Time>,
    settledAt: Option<Time>,
    duffsReceived: int,
    satsCredited: Option<int>,
    latePayment: bool,
    txids: seq<Output>,
    stuck: bool)

  // ---------- policy ----------

  function OrDefault(value: Option<int>, default: int): int {
    if value.Some? && value.value != 0 then value.value else default
  }

  /** Python's floor division agrees with `/` because the divisor is positive. */
  function UnderpayTolerance(duffsQuoted: int, bps: int, floorDuffs: int): int {
    Max(floorDuffs, duffsQuoted * bps / 10_000)
  }

  function Tolerance(t: Terms): int {
    UnderpayTolerance(t.duffsQuoted, OrDefault(t.policy.toleranceBps, 0), OrDefault(t.policy.toleranceDuffs, 0))
  }

  predicate Qualifies(o: Output, policy: Policy) {
    if policy.settle.None? || policy.settle.value == InstantSendOrChainLock then o.instantlock || o.chainlock
    else o.confirmations >= OrDefault(policy.minConfirmations, 1)
  }

  // ---------- evidence ----------

  function DuffsOf(o: Output): int { o.duffs }

  function KeyOf(o: Output): Outpoint { o.key }

  function SeenBefore(at: Time): Output -> bool { (o: Output) => o.detectedAt < at }

  function SeenFrom(at: Time): Output -> bool { (o: Output) => o.detectedAt >= at }

  function MeetsPolicy(policy: Policy): Output -> bool { (o: Output) => Qualifies(o, policy) }

  function Pre(outputs: seq<Output>, at: Time): seq<Output> { Filter(outputs, SeenBefore(at)) }

  function Late(outputs: seq<Output>, at: Time): seq<Output> { Filter(outputs, SeenFrom(at)) }

  /** The outputs that may be credited: first seen in time and final enough for the policy. */
  function Qualifying(outputs: seq<Output>, t: Terms): seq<Output> {
    Filter(Pre(outputs, t.expiresAt), MeetsPolicy(t.policy))
  }

  function QualSum(outputs: seq<Output>, t: Terms): int { SumBy(Qualifying(outputs, t), DuffsOf) }

  function Total(outputs: seq<Output>): int { SumBy(outputs, DuffsOf) }

  function FirstSeen(outputs: seq<Output>): (r: Option<Time>)
    ensures r.None? <==> outputs == []
  {
    if outputs == [] then None
    else
      var rest := FirstSeen(outputs[1..]);
      if rest.Some? && rest.value < outputs[0].detectedAt then rest else Some(outputs[0].detectedAt)
  }

  /** FirstSeen is the minimum: attained, and a lower bound. */
  lemma {:induction false} FirstSeenIsLeast(outputs: seq<Output>) returns (first: Output)
    requires outputs != []
    ensures first in outputs && FirstSeen(outputs) == Some(first.detectedAt)
    ensures forall o :: o in outputs ==> first.detectedAt <= o.detectedAt
  {
    first := outputs[0];
    if |outputs| > 1 {
      var rest := FirstSeenIsLeast(outputs[1..]);
      if rest.detectedAt < first.detectedAt {
        first := rest;
      }
    }
    assert outputs == [outputs[0]] + outputs[1..];
  }

  // ---------- decision ----------

  function WithoutCredit(state: InvoiceState, outputs: seq<Output>, late: bool): Decision {
    Decision(state, None, None, None, Total(outputs), None, late, outputs, false)
  }

  /** Some output seen in time still fails the policy. */
  predicate WaitingOnPolicy(outputs: seq<Output>, t: Terms) {
    exists o :: o in Pre(outputs, t.expiresAt) && !Qualifies(o, t.policy)
  }

  /** The quantities apply_settlement reads off the outputs before it branches. */
  datatype Evidence = Evidence(
    firstSeen: Option<Time>,
    qualSum: int,
    total: int,
    tolerance: int,
    late: bool,
    waiting: bool)

  function EvidenceOf(t: Terms, outputs: seq<Output>): Evidence {
    Evidence(
      FirstSeen(Pre(outputs, t.expiresAt)),
      QualSum(outputs, t),
      Total(outputs),
      Tolerance(t),
      Late(outputs, t.expiresAt) != [],
      WaitingOnPolicy(outputs, t))
  }

  /** apply_settlement. */
  function Decide(state: InvoiceState, now: Time, t: Terms, outputs: seq<Output>, canceled: bool): Decision {
    if canceled || state == Canceled then WithoutCredit(Canceled, outputs, outputs != [])
    else if state == Expired then WithoutCredit(Expired, outputs, Late(outputs, t.expiresAt) != [])
    else DecideActive(now, t, EvidenceOf(t, outputs), outputs)
  }

  /** The decision for an invoice that is OPEN or DETECTED. */
  function DecideActive(now: Time, t: Terms, e: Evidence, outputs: seq<Output>): Decision {
    if e.firstSeen.None? then
      if now >= t.expiresAt then Decision(Expired, None, None, None, e.total, None, e.late, outputs, false)
      else Decision(Open, None, None, None, e.total, None, false, outputs, false)
    else if e.qualSum >= t.duffsQuoted then
      Decision(if e.qualSum > t.duffsQuoted then Overpaid else Settled,
        e.firstSeen, e.firstSeen, Some(now), e.total, Some(t.satsRequested), e.late, outputs, false)
    else if e.qualSum >= t.duffsQuoted - e.tolerance then
      Decision(Settled, e.firstSeen, e.firstSeen, Some(now), e.total, Some(t.satsRequested), e.late, outputs, false)
    else if now < t.expiresAt || e.waiting then
      Decision(Detected, e.firstSeen, e.firstSeen, None, e.total, None, e.late, outputs,
        e.waiting && now >= t.settleDeadlineAt)
    else
      Decision(Underpaid, e.firstSeen, e.firstSeen, None, e.total, None, e.late, outputs, false)
  }

  // ---------- merge ----------

  ghost predicate DistinctKeys(rows: seq<Output>) {
    forall i, j :: 0 <= i < j < |rows| ==> rows[i].key != rows[j].key
  }

  function Keys(rows: seq<Output>): set<Outpoint> { set o | o in rows :: o.key }

  lemma KeysOfConcat(a: seq<Output>, b: seq<Output>)
    ensures Keys(a + b) == Keys(a) + Keys(b)
  {
    forall k | k in Keys(a) + Keys(b) ensures k in Keys(a + b) {
      var o :| (o in a || o in b) && o.key == k;
      assert o in a + b;
    }
  }

  lemma KeysOfPrefix(rows: seq<Output>, i: nat)
    requires i < |rows|
    ensures Keys(rows[..i + 1]) == Keys(rows[..i]) + {rows[i].key}
  {
    assert rows[..i + 1] == rows[..i] + [rows[i]];
    KeysOfConcat(rows[..i], [rows[i]]);
    assert Keys([rows[i]]) == {rows[i].key};
  }

  lemma KeysOfUpdate(d: seq<Output>, i: nat, o: Output)
    requires i < |d| && d[i].key == o.key
    ensures Keys(d[i := o]) == Keys(d)
  {
    assert d == d[..i] + ([d[i]] + d[i + 1..]);
    assert d[i := o] == d[..i] + ([o] + d[i + 1..]);
    KeysOfConcat(d[..i], [d[i]] + d[i + 1..]);
    KeysOfConcat([d[i]], d[i + 1..]);
    KeysOfConcat(d[..i], [o] + d[i + 1..]);
    KeysOfConcat([o], d[i + 1..]);
    assert Keys([d[i]]) == Keys([o]);
  }

  /** Index of the row with this key, or |rows|. */
  function IndexOf(rows: seq<Output>, key: Outpoint): (i: nat)
    ensures i <= |rows|
    ensures i < |rows| ==> rows[i].key == key
    ensures forall j :: 0 <= j < i ==> rows[j].key != key
  {
    if rows == [] || rows[0].key == key then 0 else 1 + IndexOf(rows[1..], key)
  }

  /** Putting a row whose key is there already changes neither the keys nor that they are distinct. */
  lemma PutRepeated(front: seq<Output>, d: seq<Output>, last: Output, i: nat)
    requires DistinctKeys(d) && Keys(d) == Keys(front) && i < |d| && d[i].key == last.key
    ensures DistinctKeys(d[i := last]) && Keys(d[i := last]) == Keys(front + [last]) && !DistinctKeys(front + [last])
  {
    KeysOfUpdate(d, i, last);
    KeysOfConcat(front, [last]);
    assert d[i] in d && last.key in Keys(front);
    var o :| o in front && o.key == last.key;
    var k :| 0 <= k < |front| && front[k] == o;
    assert (front + [last])[k] == o && (front + [last])[|front|] == last;
  }

  lemma PutNew(front: seq<Output>, d: seq<Output>, last: Output)
    requires DistinctKeys(d) && Keys(d) == Keys(front) && forall j :: 0 <= j < |d| ==> d[j].key != last.key
    requires DistinctKeys(front) ==> d == front
    ensures DistinctKeys(d + [last]) && Keys(d + [last]) == Keys(front + [last])
    ensures DistinctKeys(front + [last]) ==> d + [last] == front + [last]
  {
    KeysOfConcat(front, [last]);
    KeysOfConcat(d, [last]);
    if DistinctKeys(front + [last]) {
      assert forall i :: 0 <= i < |front| ==> (front + [last])[i] == front[i];
      assert DistinctKeys(front);
    }
  }

  /** A dictionary keyed by outpoint built from rows: a repeated key keeps its place and takes the last row. */
  function Dictionary(rows: seq<Output>): (d: seq<Output>)
    ensures DistinctKeys(d)
    ensures Keys(d) == Keys(rows)
    ensures DistinctKeys(rows) ==> d == rows
  {
    if rows == [] then []
    else
      var front, last := rows[..|rows| - 1], rows[|rows| - 1];
      var d := Dictionary(front);
      var i := IndexOf(d, last.key);
      assert rows == front + [last];
      if i < |d| then
        PutRepeated(front, d, last, i);
        d[i := last]
      else
        PutNew(front, d, last);
        d + [last]
  }

  /** Of several rows with one key the last is kept. */
  lemma {:induction false} LastRowStays(rows: seq<Output>, i: nat)
    requires i < |rows| && forall j :: i < j < |rows| ==> rows[j].key != rows[i].key
    ensures rows[i] in Dictionary(rows)
  {
    var front, last := rows[..|rows| - 1], rows[|rows| - 1];
    var d := Dictionary(front);
    var at := IndexOf(d, last.key);
    if i < |front| {
      LastRowStays(front, i);
      var k :| 0 <= k < |d| && d[k] == rows[i];
      assert Dictionary(rows)[k] == d[k];
    } else if at < |d| {
      assert Dictionary(rows)[at] == last;
    } else {
      assert Dictionary(rows)[|d|] == last;
    }
  }

  /** The output with the detection time of the row that already has its key, if any. */
  function Refreshed(prior: seq<Output>, o: Output): Output {
    var i := IndexOf(prior, o.key);
    if i < |prior| then o.(detectedAt := prior[i].detectedAt) else o
  }

  function RefreshFrom(prior: seq<Output>): Output -> Output { (o: Output) => Refreshed(prior, o) }

  function Unreported(reported: seq<Output>): Output -> bool { (o: Output) => o.key !in Keys(reported) }

  /** Reported outputs with their recorded first-seen times, then the recorded ones the node no longer reports. */
  function Merge(existing: seq<Output>, reported: seq<Output>): seq<Output> {
    var prior := Dictionary(existing);
    MapSeq(reported, RefreshFrom(prior)) + Filter(prior, Unreported(reported))
  }

  /** The mutable output object the watcher builds for each reported UTXO. */
  class WatchedOutput {
    const key: Outpoint
    const duffs: int
    const confirmations: int
    const instantlock: bool
    const chainlock: bool
    var detectedAt: Time

    constructor (row: Output)
      ensures View() == row
    {
      key, duffs, confirmations := row.key, row.duffs, row.confirmations;
      instantlock, chainlock := row.instantlock, row.chainlock;
      detectedAt := row.detectedAt;
    }

    function View(): Output
      reads this
    {
      Output(key, duffs, confirmations, instantlock, chainlock, detectedAt)
    }
  }

  function Views(outs: seq<WatchedOutput>): (v: seq<Output>)
    reads outs
    ensures |v| == |outs|
    ensures forall i :: 0 <= i < |outs| ==> v[i] == outs[i].View()
  {
    seq(|outs|, i requires 0 <= i < |outs| reads outs => outs[i].View())
  }

  lemma ViewsConcat(a: seq<WatchedOutput>, b: seq<WatchedOutput>)
    ensures Views(a + b) == Views(a) + Views(b)
  {
  }

  /** First loop of merge_outputs: recorded first-seen times overwrite the reported objects in place. */
  method RefreshReported(prior: seq<Output>, reported: seq<WatchedOutput>) returns (seen: set<Outpoint>)
    modifies reported
    ensures Views(reported) == MapSeq(old(Views(reported)), RefreshFrom(prior))
    ensures seen == Keys(old(Views(reported)))
  {
    ghost var before := Views(reported);
    seen := {};
    for i := 0 to |reported|
      invariant seen == Keys(before[..i])
      invariant forall j :: 0 <= j < i ==> reported[j].detectedAt == Refreshed(prior, before[j]).detectedAt
      invariant forall j :: i <= j < |reported| ==>
        reported[j].detectedAt in {before[j].detectedAt, Refreshed(prior, before[j]).detectedAt}
    {
      var out := reported[i];
      KeysOfPrefix(before, i);
      seen := seen + {out.key};
      var known := IndexOf(prior, out.key);
      if known < |prior| {
        out.detectedAt := prior[known].detectedAt;
      }
    }
    assert before[..|reported|] == before;
  }

  /** Second loop of merge_outputs: recorded rows the node no longer reports come back as new objects. */
  method KeepUnreported(prior: seq<Output>, seen: set<Outpoint>, ghost reported: seq<Output>)
      returns (kept: seq<WatchedOutput>)
    requires seen == Keys(reported)
    ensures Views(kept) == Filter(prior, Unreported(reported))
    ensures forall i :: 0 <= i < |kept| ==> fresh(kept[i])
  {
    kept := [];
    ghost var rows: seq<Output> := [];
    for k := 0 to |prior|
      invariant |kept| == |rows| && forall i :: 0 <= i < |kept| ==> fresh(kept[i]) && kept[i].View() == rows[i]
      invariant rows == Filter(prior[..k], Unreported(reported))
    {
      FilterNext(prior, k, Unreported(reported));
      if prior[k].key !in seen {
        var again := new WatchedOutput(prior[k]);
        kept, rows := kept + [again], rows + [prior[k]];
      }
    }
    assert prior[..|prior|] == prior && Views(kept) == rows;
  }

  /** merge_outputs: reported objects are updated in place and reused; the value is Merge's. */
  method MergeOutputs(existing: seq<Output>, reported: seq<WatchedOutput>) returns (merged: seq<WatchedOutput>)
    modifies reported
    ensures Views(merged) == Merge(existing, old(Views(reported)))
    ensures |reported| <= |merged| && merged[..|reported|] == reported
    ensures forall i :: |reported| <= i < |merged| ==> fresh(merged[i])
  {
    ghost var before := Views(reported);
    var prior := Dictionary(existing);
    var seen := RefreshReported(prior, reported);
    var kept := KeepUnreported(prior, seen, before);
    merged := reported + kept;
    ViewsConcat(reported, kept);
  }
}
