/**
 * The watcher, the cancel endpoint, creates and boots on one collection: every state of a joint run is one that either
 * side reaches on its own, and between any two moments of the run documents and wallet rows keep what both sides keep.
 */
module SharedCollection {
  import opened Base
  import opened Invoices
  import P = Protocol
  import C = CreationProtocol
  import H = History

  datatype Joint = Joint(system: P.System, world: C.World)

  /** Creates come from the creation side, the writes to stored documents from the protocol side. */
  datatype Action = OfProtocol(a: P.Action) | OfCreation(c: C.Action)

  ghost predicate Enabled(j: Joint, x: Action) {
    match x
    case OfProtocol(a) => !a.Create? && P.Enabled(j.system, a)
    case OfCreation(c) => !c.Touch? && C.Enabled(j.world, c)
  }

  ghost function After(j: Joint, x: Action, rangeEnd: int): Joint
    requires Enabled(j, x)
  {
    match x
    case OfProtocol(a) =>
      var s := P.After(j.system, a);
      Joint(s, j.world.(docs := s.docs))
    case OfCreation(c) =>
      var w := C.After(j.world, c, rangeEnd);
      Joint(j.system.(docs := w.docs), w)
  }

  /** The side conditions of an orderly run, but for the one on creates. */
  ghost predicate Timely(chain: H.Chain, j: Joint, x: Action)
    requires Enabled(j, x)
  {
    x.OfProtocol? ==> H.Orderly(chain, j.system, x.a)
  }

  ghost predicate Taken(chain: H.Chain, trace: seq<Joint>, acts: seq<Action>, rangeEnd: int, i: nat)
    requires i < |acts| && |trace| == |acts| + 1
  {
    && Enabled(trace[i], acts[i]) && Timely(chain, trace[i], acts[i])
    && trace[i + 1] == After(trace[i], acts[i], rangeEnd)
  }

  ghost predicate Run(chain: H.Chain, trace: seq<Joint>, acts: seq<Action>, rangeEnd: int) {
    && |trace| == |acts| + 1
    && trace[0].system.docs == map[] && trace[0].system.pending == map[]
    && trace[0].world == C.World(map[], map[], map[])
    && forall i :: 0 <= i < |acts| ==> Taken(chain, trace, acts, rangeEnd, i)
  }

  // ---------- runs of either side, extended ----------

  lemma ExtendOrderly(chain: H.Chain, trace: seq<P.System>, acts: seq<P.Action>, a: P.Action)
      returns (longer: seq<P.System>)
    requires H.OrderlyRun(chain, trace, acts) && P.Enabled(trace[|acts|], a) && H.Orderly(chain, trace[|acts|], a)
    ensures H.OrderlyRun(chain, longer, acts + [a]) && longer[|acts| + 1] == P.After(trace[|acts|], a)
  {
    longer := P.ExtendRun(trace, acts, a);
    forall i | 0 <= i < |acts + [a]| ensures H.OrderlyAt(chain, longer, acts + [a], i) {
      assert P.Taken(longer, acts + [a], i);
      if i < |acts| {
        assert H.OrderlyAt(chain, trace, acts, i);
      }
    }
  }

  lemma ExtendCreation(trace: seq<C.World>, acts: seq<C.Action>, rangeEnd: int, c: C.Action)
      returns (longer: seq<C.World>)
    requires C.Run(trace, acts, rangeEnd) && C.Enabled(trace[|acts|], c)
    ensures C.Run(longer, acts + [c], rangeEnd) && longer[|acts| + 1] == C.After(trace[|acts|], c, rangeEnd)
  {
    longer := trace + [C.After(trace[|acts|], c, rangeEnd)];
    forall i | 0 <= i < |acts + [c]| ensures C.Taken(longer, acts + [c], rangeEnd, i) {
      if i < |acts| {
        assert C.Taken(trace, acts, rangeEnd, i);
      }
    }
  }

  // ---------- each side's steps seen from the other ----------

  /** Some run of the protocol side, orderly, that ends here. */
  ghost predicate OrderlyReach(chain: H.Chain, s: P.System) {
    exists trace, acts :: H.OrderlyRun(chain, trace, acts) && trace[|acts|] == s
  }

  ghost predicate CreationReach(w: C.World, rangeEnd: int) {
    exists trace, acts :: C.Run(trace, acts, rangeEnd) && trace[|acts|] == w
  }

  lemma OrderlyNext(chain: H.Chain, s: P.System, a: P.Action)
    requires OrderlyReach(chain, s) && P.Enabled(s, a) && H.Orderly(chain, s, a)
    ensures OrderlyReach(chain, P.After(s, a))
  {
    var trace, acts :| H.OrderlyRun(chain, trace, acts) && trace[|acts|] == s;
    var longer := ExtendOrderly(chain, trace, acts, a);
    assert H.OrderlyRun(chain, longer, acts + [a]) && longer[|acts + [a]|] == P.After(s, a);
  }

  lemma CreationNext(w: C.World, rangeEnd: int, c: C.Action)
    requires CreationReach(w, rangeEnd) && C.Enabled(w, c)
    ensures CreationReach(C.After(w, c, rangeEnd), rangeEnd)
  {
    var trace, acts :| C.Run(trace, acts, rangeEnd) && trace[|acts|] == w;
    var longer := ExtendCreation(trace, acts, rangeEnd, c);
    assert C.Run(longer, acts + [c], rangeEnd) && longer[|acts + [c]|] == C.After(w, c, rangeEnd);
  }

  /** A step of the protocol side that creates nothing writes at most one document and keeps its identity. */
  lemma WritesAreTouches(s: P.System, a: P.Action) returns (touch: Option<C.Action>)
    requires P.Enabled(s, a) && !a.Create?
    ensures touch.None? ==> P.After(s, a).docs == s.docs
    ensures touch.Some? ==> touch.value.Touch? && touch.value.id in s.docs
    ensures touch.Some? ==>
      && C.SameIdentity(s.docs[touch.value.id], touch.value.inv)
      && P.After(s, a).docs == s.docs[touch.value.id := touch.value.inv]
  {
    var after := P.After(s, a).docs;
    touch := None;
    if after != s.docs {
      var id := if a.Persist? then s.pending[a.task].snap.id else a.id;
      touch := Some(C.Touch(id, after[id]));
    }
  }

  /** A step of the creation side changes the collection only by inserting a new document at an address of its own. */
  lemma InsertsAreCreates(chain: H.Chain, s: P.System, w: C.World, c: C.Action, rangeEnd: int)
    requires C.Enabled(w, c) && !c.Touch? && s.docs == w.docs && C.After(w, c, rangeEnd).docs != w.docs
    ensures c.Insert? && P.Enabled(s, P.Create(c.inv)) && H.Orderly(chain, s, P.Create(c.inv))
    ensures P.After(s, P.Create(c.inv)).docs == C.After(w, c, rangeEnd).docs
  {
  }

  // ---------- joint runs ----------

  /** Every state of a joint run is reached by an orderly run of the protocol and by a run of the creation machine. */
  lemma {:induction false} JointRunProjects(chain: H.Chain, trace: seq<Joint>, acts: seq<Action>, rangeEnd: int, i: nat)
    requires Run(chain, trace, acts, rangeEnd) && i < |trace|
    ensures trace[i].system.docs == trace[i].world.docs
    ensures OrderlyReach(chain, trace[i].system) && CreationReach(trace[i].world, rangeEnd)
  {
    if i == 0 {
      var pacts: seq<P.Action>, cacts: seq<C.Action> := [], [];
      assert H.OrderlyRun(chain, [trace[0].system], pacts) && [trace[0].system][|pacts|] == trace[0].system;
      assert C.Run([trace[0].world], cacts, rangeEnd) && [trace[0].world][|cacts|] == trace[0].world;
    } else {
      JointRunProjects(chain, trace, acts, rangeEnd, i - 1);
      assert Taken(chain, trace, acts, rangeEnd, i - 1);
      JointStep(chain, trace[i - 1], acts[i - 1], rangeEnd);
    }
  }

  lemma JointStep(chain: H.Chain, j: Joint, x: Action, rangeEnd: int)
    requires j.system.docs == j.world.docs && Enabled(j, x) && Timely(chain, j, x)
    requires OrderlyReach(chain, j.system) && CreationReach(j.world, rangeEnd)
    ensures var next := After(j, x, rangeEnd);
      && next.system.docs == next.world.docs
      && OrderlyReach(chain, next.system) && CreationReach(next.world, rangeEnd)
  {
    match x
    case OfProtocol(a) =>
      OrderlyNext(chain, j.system, a);
      var touch := WritesAreTouches(j.system, a);
      if touch.Some? {
        CreationNext(j.world, rangeEnd, touch.value);
      }
    case OfCreation(c) =>
      CreationNext(j.world, rangeEnd, c);
      if C.After(j.world, c, rangeEnd).docs != j.world.docs {
        InsertsAreCreates(chain, j.system, j.world, c, rangeEnd);
        OrderlyNext(chain, j.system, P.Create(c.inv));
      }
  }

  // ---------- two moments of one joint run ----------

  /** What no step loses of a document: its place on the state graph, and what was recorded for it. */
  ghost predicate Continues(before: Docs, after: Docs) {
    forall id :: id in before ==> id in after && P.Precedes(before[id], after[id]) && H.Grows(before[id], after[id])
  }

  ghost predicate ContinuesJoint(a: Joint, b: Joint) {
    Continues(a.system.docs, b.system.docs) && C.Later(a.world, b.world)
  }

  lemma OrderlyState(chain: H.Chain, s: P.System)
    requires OrderlyReach(chain, s)
    ensures P.Inv(s) && H.Current(chain, s)
  {
    var trace, acts :| H.OrderlyRun(chain, trace, acts) && trace[|acts|] == s;
    H.OrderlyRunKeeps(chain, trace, acts, |acts|);
  }

  /** One more step of the protocol side. */
  lemma ProtocolStepContinues(chain: H.Chain, s: P.System, a: P.Action, before: Docs)
    requires P.Inv(s) && H.Current(chain, s) && P.Enabled(s, a) && H.Orderly(chain, s, a) && Continues(before, s.docs)
    ensures Continues(before, P.After(s, a).docs)
  {
    P.StepKeeps(s, a);
    H.DocsGrow(chain, s, a);
    var after := P.After(s, a).docs;
    forall id | id in before
      ensures id in after && P.Precedes(before[id], after[id]) && H.Grows(before[id], after[id])
    {
      P.PrecedesThenAdvances(before[id], s.docs[id], after[id]);
      H.GrowsTransitive(before[id], s.docs[id], after[id]);
    }
  }

  lemma DocsStepContinues(chain: H.Chain, j: Joint, x: Action, rangeEnd: int, before: Docs)
    requires j.system.docs == j.world.docs && Enabled(j, x) && Timely(chain, j, x)
    requires OrderlyReach(chain, j.system) && Continues(before, j.system.docs)
    ensures Continues(before, After(j, x, rangeEnd).system.docs)
  {
    OrderlyState(chain, j.system);
    match x
    case OfProtocol(a) => ProtocolStepContinues(chain, j.system, a, before);
    case OfCreation(c) =>
      if C.After(j.world, c, rangeEnd).docs != j.world.docs {
        InsertsAreCreates(chain, j.system, j.world, c, rangeEnd);
        ProtocolStepContinues(chain, j.system, P.Create(c.inv), before);
      }
  }

  lemma WorldStepLater(j: Joint, x: Action, rangeEnd: int)
    requires j.system.docs == j.world.docs && Enabled(j, x)
    ensures C.Later(j.world, After(j, x, rangeEnd).world)
  {
    match x
    case OfProtocol(a) =>
      var touch := WritesAreTouches(j.system, a);
      if touch.Some? {
        C.StepGoesLater(j.world, touch.value, rangeEnd);
      }
    case OfCreation(c) => C.StepGoesLater(j.world, c, rangeEnd);
  }

  lemma LaterTransitive(a: C.World, b: C.World, c: C.World)
    requires C.Later(a, b) && C.Later(b, c)
    ensures C.Later(a, c)
  {
  }

  /**
   * From any moment of a joint run to any later one: every document is still there, further along the state graph with
   * all that was recorded, identity included, and no wallet row has changed its key or gone back.
   */
  lemma {:induction false} JointHistory(chain: H.Chain, trace: seq<Joint>, acts: seq<Action>, rangeEnd: int, i: nat,
                                        j: nat)
    requires Run(chain, trace, acts, rangeEnd) && i <= j < |trace|
    ensures ContinuesJoint(trace[i], trace[j])
    decreases j
  {
    JointRunProjects(chain, trace, acts, rangeEnd, i);
    if i == j {
      OrderlyState(chain, trace[i].system);
      forall id | id in trace[i].system.docs ensures H.Grows(trace[i].system.docs[id], trace[i].system.docs[id]) {
        H.GrowsReflexive(trace[i].system.docs[id]);
      }
    } else {
      JointHistory(chain, trace, acts, rangeEnd, i, j - 1);
      JointRunProjects(chain, trace, acts, rangeEnd, j - 1);
      assert Taken(chain, trace, acts, rangeEnd, j - 1);
      DocsStepContinues(chain, trace[j - 1], acts[j - 1], rangeEnd, trace[i].system.docs);
      WorldStepLater(trace[j - 1], acts[j - 1], rangeEnd);
      LaterTransitive(trace[i].world, trace[j - 1].world, trace[j].world);
    }
  }

  /**
   * What both sides guarantee together, in every state of a joint run: addresses and external ids are unique, all
   * documents are consistent, and what invoices received adds up to the chain's amounts over their distinct outpoints.
   */
  lemma JointGuarantees(chain: H.Chain, trace: seq<Joint>, acts: seq<Action>, rangeEnd: int, i: nat)
    requires Run(chain, trace, acts, rangeEnd) && i < |trace|
    ensures var s := trace[i].system;
      && P.Inv(s) && H.UniqueAddresses(s.docs) && C.Inv(trace[i].world, rangeEnd)
      && H.ReceivedBy(s.docs, s.docs.Keys) == H.SumOver(H.Outpoints(s.docs, s.docs.Keys), H.Amount(chain))
  {
    JointRunProjects(chain, trace, acts, rangeEnd, i);
    var s, w := trace[i].system, trace[i].world;
    var ptrace, pacts :| H.OrderlyRun(chain, ptrace, pacts) && ptrace[|pacts|] == s;
    H.OrderlyRunKeeps(chain, ptrace, pacts, |pacts|);
    H.Conservation(chain, ptrace, pacts, |pacts|, s.docs.Keys);
    var ctrace, cacts :| C.Run(ctrace, cacts, rangeEnd) && ctrace[|cacts|] == w;
    C.CreationInvariant(ctrace, cacts, rangeEnd, |cacts|);
  }
}
