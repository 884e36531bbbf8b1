/** The whole replicated system: certification feeds the pipeline, and a node executes a block once it holds
    the requests the block names. */
module World {
  import opened Types
  import opened ExecSpec
  import opened Conservation
  import C = Certification
  import P = Pipeline
  import S = PipelineSafety
  import Q = PipelineQuorum
  import F = PipelineFifo

  datatype World = World(cert: C.System, pipe: P.Cluster)

  /** A certification step, a pipeline message step, or an executor taking a height. */
  datatype Step =
    | Certifying(c: C.Step)
    | Piping(s: P.Step)
    | Executing(p: NodeId)

  function FaultNum(n: nat): nat
    requires n >= 1
  {
    (n - 1) / 3
  }

  /** It is the greatest number of faults f for which n is at least 3f + 1. */
  lemma FaultNumIsGreatest(n: nat, f: nat)
    requires n >= 1
    ensures f <= FaultNum(n) <==> 3 * f + 1 <= n
  {
  }

  function Boot(ids: seq<int>): World
    requires |ids| >= 1
  {
    World(C.Boot(ids), P.Boot(|ids|))
  }

  predicate Shape(w: World) {
    P.Shape(w.pipe) && |w.cert.nodes| == |w.pipe.nodes|
  }

  /** What the step does to the pipeline. */
  ghost function PipeStep(w: World, step: Step, f: nat): Option<P.Step>
    requires Shape(w)
    requires step.Certifying? ==> C.Enabled(w.cert, step.c)
    requires step.Executing? ==> step.p < |w.cert.nodes|
  {
    match step
    case Certifying(c) =>
      (match C.Outcome(w.cert, c, f)
       case Some(u) => Some(P.Certify(u.origin, u))
       case None => None)
    case Piping(s) => Some(s)
    case Executing(p) => Some(P.Execute(p, C.Held(w.cert.nodes[p])))
  }

  ghost predicate Enabled(w: World, step: Step, f: nat)
    requires Shape(w)
  {
    && (step.Certifying? ==> C.Enabled(w.cert, step.c))
    && (step.Executing? ==> step.p < |w.cert.nodes|)
    && (step.Piping? ==> step.s.Propose? || step.s.Deliver? || step.s.Handle?)
    && var ps := PipeStep(w, step, f);
       ps.Some? ==> P.Enabled(w.pipe, ps.value)
  }

  ghost function Next(w: World, step: Step, f: nat): World
    requires Shape(w) && Enabled(w, step, f)
  {
    var ps := PipeStep(w, step, f);
    World(if step.Certifying? then C.Next(w.cert, step.c, f) else w.cert,
          if ps.Some? then P.Next(w.pipe, ps.value, f) else w.pipe)
  }

  ghost predicate Legal(w: World, steps: seq<Step>, f: nat)
    decreases |steps|, 0
  {
    steps == [] || (Legal(w, steps[..|steps| - 1], f)
                    && var mid := After(w, steps[..|steps| - 1], f);
                       Shape(mid) && Enabled(mid, steps[|steps| - 1], f))
  }

  ghost function After(w: World, steps: seq<Step>, f: nat): World
    requires Legal(w, steps, f)
    decreases |steps|, 1
  {
    if steps == [] then w else Next(After(w, steps[..|steps| - 1], f), steps[|steps| - 1], f)
  }

  // ---- The invariant that ties the parts together ----

  /** The certified requests in the pipeline are those the certifiers certified, once each. */
  ghost predicate Accounted(w: World)
    requires Shape(w)
  {
    forall u :: Certified(w.pipe)[u] == if C.CertifiedBy(w.cert, u) then 1 else 0
  }

  /** Every store is the replay of what the node executed, over one registry of requests. */
  ghost predicate StoreOk(w: World, p: NodeId)
    requires Shape(w) && p < |w.pipe.nodes|
  {
    var e := w.pipe.nodes[p].exec;
    AllPresent(e.done, C.Registry(w.cert.nodes)) && e.kv == Replay(e.done, C.Registry(w.cert.nodes))
  }

  ghost predicate Inv(w: World, f: nat) {
    && Shape(w)
    && C.Inv(w.cert, f) && S.Safe(w.pipe)
    && Accounted(w)
    && forall p :: 0 <= p < |w.pipe.nodes| ==> StoreOk(w, p)
  }

  lemma BootInv(ids: seq<int>, f: nat)
    requires |ids| >= 1 && C.GoodIds(ids)
    ensures Inv(Boot(ids), f)
  {
    C.BootInv(ids, f);
    S.BootIsSafe(|ids|);
    BootHoldsNothing(|ids|);
  }

  lemma StepKeepsAccount(w: World, step: Step, f: nat)
    requires Inv(w, f) && Enabled(w, step, f)
    ensures Shape(Next(w, step, f)) && S.Safe(Next(w, step, f).pipe)
    ensures Accounted(Next(w, step, f))
  {
    hide Certified, S.Safe, C.Inv, P.Next, C.Next, C.CertifiedBy, C.Outcome;
    var ps := PipeStep(w, step, f);
    if ps.Some? {
      S.StepKeepsSafe(w.pipe, ps.value, f);
      StepConserves(w.pipe, ps.value, f);
      P.KeepsNodes(w.pipe, ps.value, f);
    }
    if step.Certifying? {
      C.KeepsNodes(w.cert, step.c, f);
      forall u
        ensures C.CertifiedBy(C.Next(w.cert, step.c, f), u) <==> C.CertifiedBy(w.cert, u) || C.Outcome(w.cert, step.c, f) == Some(u)
        ensures C.Outcome(w.cert, step.c, f) == Some(u) ==> !C.CertifiedBy(w.cert, u)
      {
        C.CertifiedOnce(w.cert, step.c, f, u);
      }
    }
  }

  lemma StepKeepsStores(w: World, step: Step, f: nat, p: NodeId)
    requires Inv(w, f) && Enabled(w, step, f) && p < |w.pipe.nodes|
    requires Shape(Next(w, step, f)) && |Next(w, step, f).pipe.nodes| == |w.pipe.nodes|
    ensures StoreOk(Next(w, step, f), p)
  {
    hide S.Safe, C.Inv, Accounted, C.Outcome, AllPresent, Replay;
    var w' := Next(w, step, f);
    assert StoreOk(w, p);
    var e, all := w.pipe.nodes[p].exec, C.Registry(w.cert.nodes);
    match step
    case Certifying(c) =>
      C.StepGrows(w.cert, c, f);
      C.StepKeepsInv(w.cert, c, f);
      C.InvIsConsistent(C.Next(w.cert, c, f), f);
      C.RegistryGrows(w.cert, C.Next(w.cert, c, f), f);
      ReplayAgrees(e.done, all, C.Registry(w'.cert.nodes));
    case Piping(s) => P.MessagesLeaveExecutors(w.pipe, s, f, p);
    case Executing(q) =>
      if p == q {
        C.InvIsConsistent(w.cert, f);
        C.HeldAgrees(w.cert, f, p);
        TookKeepsStore(w.pipe.nodes[p], C.Held(w.cert.nodes[p]), all);
      }
  }

  lemma TookKeepsStore(r: P.Replica, held: Requests, all: Requests)
    requires r.taken < |r.ch| && Submap(held, all)
    requires AllPresent(r.exec.done, all) && r.exec.kv == Replay(r.exec.done, all)
    ensures var e := P.Took(r, held).exec; AllPresent(e.done, all) && e.kv == Replay(e.done, all)
  {
    var e, h := r.exec, r.ch[r.taken];
    var fed := e.(ahead := e.ahead + {h});
    DrainReplays(fed, r.log, held, all);
    DrainExecutesHeld(fed, r.log, held, all);
  }

  lemma StepKeepsInv(w: World, step: Step, f: nat)
    requires Inv(w, f) && Enabled(w, step, f)
    ensures Inv(Next(w, step, f), f) && |Next(w, step, f).pipe.nodes| == |w.pipe.nodes|
  {
    hide S.Safe, C.Inv, Accounted, StoreOk, P.Next, C.Next, C.Outcome;
    var ps := PipeStep(w, step, f);
    StepKeepsAccount(w, step, f);
    if step.Certifying? {
      C.StepKeepsInv(w.cert, step.c, f);
    }
    if ps.Some? {
      P.KeepsNodes(w.pipe, ps.value, f);
    }
    forall p | 0 <= p < |w.pipe.nodes|
      ensures StoreOk(Next(w, step, f), p)
    {
      StepKeepsStores(w, step, f, p);
    }
  }

  lemma {:induction false} RunKeepsInv(ids: seq<int>, steps: seq<Step>, f: nat)
    requires |ids| >= 1 && C.GoodIds(ids) && Legal(Boot(ids), steps, f)
    ensures Inv(After(Boot(ids), steps, f), f) && |After(Boot(ids), steps, f).pipe.nodes| == |ids|
  {
    hide Inv, Next;
    if steps == [] {
      BootInv(ids, f);
    } else {
      RunKeepsInv(ids, steps[..|steps| - 1], f);
      StepKeepsInv(After(Boot(ids), steps[..|steps| - 1], f), steps[|steps| - 1], f);
    }
  }

  // ---- What follows for every run ----

  /** Two nodes at the same height have executed the same blocks and hold the same store. */
  lemma ReplicasAgree(ids: seq<int>, steps: seq<Step>, f: nat, p: NodeId, q: NodeId)
    requires |ids| >= 1 && C.GoodIds(ids) && Legal(Boot(ids), steps, f) && p < |ids| && q < |ids|
    ensures var w := After(Boot(ids), steps, f);
            && |w.pipe.nodes| == |ids|
            && var a, b := w.pipe.nodes[p].exec, w.pipe.nodes[q].exec;
               a.cur == b.cur ==> a.done == b.done && a.kv == b.kv
  {
    hide Legal, After, Boot, C.Inv, Accounted, S.Safe;
    RunKeepsInv(ids, steps, f);
    var w := After(Boot(ids), steps, f);
    assert StoreOk(w, p) && StoreOk(w, q);
    S.SafeExecutions(w.pipe, p);
    S.SafeExecutions(w.pipe, q);
    ExecutedHeights(w, p, f);
    ExecutedHeights(w, q, f);
  }

  lemma ExecutedHeights(w: World, p: NodeId, f: nat)
    requires Inv(w, f) && p < |w.pipe.nodes|
    ensures |w.pipe.nodes[p].exec.done| == w.pipe.nodes[p].exec.cur - 1
  {
    assert S.NodeOk(w.pipe.nodes[p], P.Blocks(w.pipe));
  }

  ghost predicate InBlock(w: World, i: nat, u: Unit)
    requires Shape(w)
  {
    i < |P.Blocks(w.pipe)| && u in P.Blocks(w.pipe)[i]
  }

  ghost predicate ExecutedAt(w: World, p: NodeId, i: nat, u: Unit) {
    p < |w.pipe.nodes| && i < |w.pipe.nodes[p].exec.done| && u in w.pipe.nodes[p].exec.done[i].reqs
  }

  /** A certified request is in exactly one place - a pool, a reply on its way or a block - and an
      uncertified one is nowhere; so it is in at most one block, once there, and each node executes it at most
      at one height, once there. */
  lemma EachRequestOnce(ids: seq<int>, steps: seq<Step>, f: nat, u: Unit)
    requires |ids| >= 1 && C.GoodIds(ids) && Legal(Boot(ids), steps, f)
    ensures var w := After(Boot(ids), steps, f);
            && Shape(w) && |w.pipe.nodes| == |ids|
            && Certified(w.pipe)[u] == (if C.CertifiedBy(w.cert, u) then 1 else 0)
            && (forall i: nat, j: nat :: InBlock(w, i, u) && InBlock(w, j, u) ==> i == j)
            && (forall i: nat :: InBlock(w, i, u) ==> multiset(P.Blocks(w.pipe)[i])[u] == 1)
            && (forall p: NodeId, i: nat, j: nat :: ExecutedAt(w, p, i, u) && ExecutedAt(w, p, j, u) ==> i == j)
            && (forall p: NodeId, i: nat :: ExecutedAt(w, p, i, u) ==> multiset(w.pipe.nodes[p].exec.done[i].reqs)[u] == 1)
  {
    hide Legal, After, Boot, C.Inv, S.Safe, Certified;
    RunKeepsInv(ids, steps, f);
    var w := After(Boot(ids), steps, f);
    assert Once(Certified(w.pipe));
    forall i: nat, j: nat | InBlock(w, i, u) && InBlock(w, j, u)
      ensures i == j && multiset(P.Blocks(w.pipe)[i])[u] == 1
    {
      BlockedAtMostOnce(w.pipe, i, j, u);
    }
    forall p: NodeId, i: nat, j: nat | ExecutedAt(w, p, i, u) && ExecutedAt(w, p, j, u)
      ensures i == j && multiset(w.pipe.nodes[p].exec.done[i].reqs)[u] == 1
    {
      ExecutedAtMostOnce(w.pipe, p, i, j, u);
    }
  }

  /** Whatever a node executes was certified: its originator and at least f other nodes store the request. */
  lemma ExecutedWasCertified(ids: seq<int>, steps: seq<Step>, f: nat, p: NodeId, i: nat, u: Unit)
    requires |ids| >= 1 && C.GoodIds(ids) && Legal(Boot(ids), steps, f) && p < |ids|
    requires p < |After(Boot(ids), steps, f).pipe.nodes|
    requires i < |After(Boot(ids), steps, f).pipe.nodes[p].exec.done|
    requires u in After(Boot(ids), steps, f).pipe.nodes[p].exec.done[i].reqs
    ensures var w := After(Boot(ids), steps, f);
            C.CertifiedBy(w.cert, u) && HeldByQuorum(w, f, u)
  {
    hide Legal, After, Boot, S.Safe, Certified, C.Consistent;
    RunKeepsInv(ids, steps, f);
    var w := After(Boot(ids), steps, f);
    S.SafeExecutions(w.pipe, p);
    assert w.pipe.nodes[p].exec.done[i] == S.Chain(w.pipe)[i];
    BlockIsCounted(w.pipe, i, u);
    assert Certified(w.pipe)[u] >= 1;
    C.CertifiedIsHeld(w.cert, f, u.origin, u.seqNo);
  }

  /** At least f + 1 nodes store the request named by u, all the same one. */
  ghost predicate HeldByQuorum(w: World, f: nat, u: Unit) {
    exists holders: set<NodeId>, req: Request ::
      |holders| >= f + 1 && req.txNum == u.txNum
      && forall v :: v in holders ==> v < |w.cert.nodes| && C.Holds(w.cert.nodes[v], u.seqNo, req)
  }

  lemma BlockIsCounted(s: P.Cluster, i: nat, u: Unit)
    requires P.Shape(s) && i < |P.Blocks(s)| && u in P.Blocks(s)[i]
    ensures Certified(s)[u] >= 1
  {
    var bags := BlockBags(P.Blocks(s));
    BagInUnion(bags, i);
    assert bags[i][u] >= 1;
  }

  // ---- Runs with in-order links ----

  predicate Fifo(step: Step) {
    step.Piping? ==> P.Fifo(step.s)
  }

  lemma {:induction false} RunInOrder(ids: seq<int>, steps: seq<Step>, f: nat)
    requires |ids| >= 1 && f >= 1 && C.GoodIds(ids) && Legal(Boot(ids), steps, f)
    requires forall i :: 0 <= i < |steps| ==> Fifo(steps[i])
    ensures F.Ordered(After(Boot(ids), steps, f).pipe, f)
  {
    hide F.Ordered, Q.Quorum, P.Next, C.Next, C.Outcome;
    if steps == [] {
      F.BootOrdered(|ids|, f);
    } else {
      var before, step := steps[..|steps| - 1], steps[|steps| - 1];
      RunInOrder(ids, before, f);
      var w := After(Boot(ids), before, f);
      var ps := PipeStep(w, step, f);
      if ps.Some? {
        F.StepInOrder(w.pipe, ps.value, f);
      }
    }
  }

  /** With four nodes or more and in-order links, once the proposer has queued height k, losing as many nodes
      as the configured fault number leaves one that keeps block k, and every request in the block is stored by
      one more node than that number. */
  lemma QueuedSurvivesFaults(ids: seq<int>, steps: seq<Step>, k: int, lost: set<NodeId>)
    requires |ids| >= 4 && C.GoodIds(ids) && Legal(Boot(ids), steps, FaultNum(|ids|))
    requires forall i :: 0 <= i < |steps| ==> Fifo(steps[i])
    requires |After(Boot(ids), steps, FaultNum(|ids|)).pipe.nodes| >= 1
    requires k in After(Boot(ids), steps, FaultNum(|ids|)).pipe.nodes[0].ch && |lost| <= FaultNum(|ids|)
    ensures var w := After(Boot(ids), steps, FaultNum(|ids|));
            && Shape(w) && 1 <= k <= |P.Blocks(w.pipe)|
            && (exists p: NodeId :: p < |ids| && p < |w.pipe.nodes| && p !in lost && k in w.pipe.nodes[p].log
                                    && w.pipe.nodes[p].log[k].reqs == P.Blocks(w.pipe)[k - 1])
            && forall u :: u in P.Blocks(w.pipe)[k - 1] ==> HeldByQuorum(w, FaultNum(|ids|), u)
  {
    hide Legal, After, Boot, F.Ordered, Q.Quorum, S.Safe, Certified, C.Consistent, P.Blocks;
    var f := FaultNum(|ids|);
    RunInOrder(ids, steps, f);
    RunKeepsInv(ids, steps, f);
    var w := After(Boot(ids), steps, f);
    F.LosingFLeavesAHolder(w.pipe, f, k, lost);
    var p: NodeId :| p < |w.pipe.nodes| && p !in lost && 1 <= k <= |P.Blocks(w.pipe)|
                     && k in w.pipe.nodes[p].log && w.pipe.nodes[p].log[k].reqs == P.Blocks(w.pipe)[k - 1];
    forall u | u in P.Blocks(w.pipe)[k - 1]
      ensures HeldByQuorum(w, f, u)
    {
      BlockIsCounted(w.pipe, k - 1, u);
      assert Certified(w.pipe)[u] >= 1;
      C.CertifiedIsHeld(w.cert, f, u.origin, u.seqNo);
    }
  }
}
