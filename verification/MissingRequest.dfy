/** A run in which a node stops for good: in-order links, four nodes, and one certified request that reaches one
    node a moment too late. */
module MissingRequest {
  import opened Types
  import opened ExecSpec
  import opened World
  import opened SeqNums
  import C = Certification
  import E = PipelineExecutor
  import F = PipelineFifo
  import P = Pipeline
  import S = PipelineSafety
  import X = WorldExecutor

  /** Node 0 has its request stored by node 1, which certifies it, and puts it in block 1. Node 2 receives blocks 1
      and 2 and executes before the request arrives. */
  function LateSteps(ids: seq<int>, req: Request, next: Request): (steps: seq<Step>)
    requires |ids| == 4
    ensures |steps| == 10
  {
    var x := SeqOf(ids[0], 1);
    [Certifying(C.Start(0, req)), Certifying(C.Broadcast(0, {1, 2, 3})), Certifying(C.Store(C.Dup(x, 0, 1, req))),
     Certifying(C.Count(C.Conf(x, 0, 1), next)), Piping(P.Propose), Piping(P.Propose),
     Piping(P.Deliver(2, 0)), Piping(P.Deliver(2, 0)), Executing(2), Certifying(C.Store(C.Dup(x, 0, 2, req)))]
  }

  lemma Extend(w: World, steps: seq<Step>, step: Step, f: nat)
    requires Legal(w, steps, f) && Shape(After(w, steps, f)) && Enabled(After(w, steps, f), step, f)
    ensures Legal(w, steps + [step], f) && After(w, steps + [step], f) == Next(After(w, steps, f), step, f)
  {
    assert (steps + [step])[..|steps + [step]| - 1] == steps;
  }

  /** The state after the first `i` steps. */
  ghost predicate At(ids: seq<int>, req: Request, next: Request, i: nat, w: World)
    requires |ids| == 4 && i <= 10
  {
    var steps := LateSteps(ids, req, next)[..i];
    Legal(Boot(ids), steps, 1) && w == After(Boot(ids), steps, 1) && Shape(w) && |w.pipe.nodes| == 4
  }

  lemma OneMore(ids: seq<int>, req: Request, next: Request, i: nat, w: World)
    requires |ids| == 4 && i < 10 && At(ids, req, next, i, w)
    requires Shape(w) && Enabled(w, LateSteps(ids, req, next)[i], 1)
    ensures At(ids, req, next, i + 1, Next(w, LateSteps(ids, req, next)[i], 1))
  {
    hide LateSteps, Legal, After, Next, Enabled;
    var run := LateSteps(ids, req, next);
    assert run[..i + 1] == run[..i] + [run[i]];
    Extend(Boot(ids), run[..i], run[i], 1);
    KeepsShape(w, run[i]);
  }

  lemma KeepsShape(w: World, step: Step)
    requires Shape(w) && Enabled(w, step, 1)
    ensures Shape(Next(w, step, 1)) && |Next(w, step, 1).pipe.nodes| == |w.pipe.nodes|
  {
    hide P.Next, C.Next, C.Outcome;
    var ps := PipeStep(w, step, 1);
    if ps.Some? {
      P.KeepsNodes(w.pipe, ps.value, 1);
    }
    if step.Certifying? {
      C.KeepsNodes(w.cert, step.c, 1);
    }
  }

  lemma AtStart(ids: seq<int>, req: Request, next: Request)
    requires |ids| == 4
    ensures At(ids, req, next, 0, Boot(ids))
  {
    assert LateSteps(ids, req, next)[..0] == [];
  }

  lemma Requested(ids: seq<int>, req: Request, next: Request) returns (w: World)
    requires |ids| == 4
    ensures At(ids, req, next, 3, w) && Shape(w)
    ensures var x := SeqOf(ids[0], 1);
            && |w.cert.nodes| == 4 && w.pipe == P.Boot(4)
            && w.cert.nodes[0].certs == map[x := C.Cert(Some(req), [], {}, false)]
            && w.cert.nodes[2].certs == map[]
            && C.Conf(x, 0, 1) in w.cert.net && C.Dup(x, 0, 2, req) in w.cert.net
  {
    hide At;
    var x := SeqOf(ids[0], 1);
    w := Boot(ids);
    AtStart(ids, req, next);
    assert At(ids, req, next, 0, w) ==> Shape(w);
    OneMore(ids, req, next, 0, w);
    w := Next(w, Certifying(C.Start(0, req)), 1);
    assert w.cert.nodes[0].certs == map[x := C.Cert(Some(req), [], {}, false)] && w.cert.nodes[0].seqCh == [x];
    OneMore(ids, req, next, 1, w);
    w := Next(w, Certifying(C.Broadcast(0, {1, 2, 3})), 1);
    assert C.Dup(x, 0, 1, req) in w.cert.net && C.Dup(x, 0, 2, req) in w.cert.net;
    OneMore(ids, req, next, 2, w);
    w := Next(w, Certifying(C.Store(C.Dup(x, 0, 1, req))), 1);
  }

  lemma Certified(ids: seq<int>, req: Request, next: Request) returns (w: World)
    requires |ids| == 4
    ensures At(ids, req, next, 4, w) && Shape(w)
    ensures var x := SeqOf(ids[0], 1);
            && |w.cert.nodes| == |w.pipe.nodes| == 4
            && w.pipe == P.Boot(4).(nodes := P.Boot(4).nodes[0 := P.BOOT.(pool := [Unit(x, 0, req.txNum)])])
            && w.cert.nodes[2].certs == map[] && C.Dup(x, 0, 2, req) in w.cert.net
  {
    hide At;
    var x := SeqOf(ids[0], 1);
    w := Requested(ids, req, next);
    var cert := C.Cert(Some(req), [], {}, false);
    assert C.Counted(cert.(queue := [1]), 1).votes == {1} by {
      assert C.Elements([1]) == {1};
    }
    assert C.Certifies(w.cert.nodes[0], x, 1, 1);
    assert C.Outcome(w.cert, C.Count(C.Conf(x, 0, 1), next), 1) == Some(Unit(x, 0, req.txNum));
    OneMore(ids, req, next, 3, w);
    w := Next(w, Certifying(C.Count(C.Conf(x, 0, 1), next)), 1);
    var u := Unit(x, 0, req.txNum);
    assert [] + [u] == [u];
    assert w.pipe.nodes == P.Boot(4).nodes[0 := P.BOOT.(pool := [u])];
  }

  lemma Announced(ids: seq<int>, req: Request, next: Request) returns (w: World)
    requires |ids| == 4
    ensures At(ids, req, next, 6, w) && Shape(w)
    ensures var x := SeqOf(ids[0], 1);
            && |w.cert.nodes| == |w.pipe.nodes| == 4
            && w.pipe.nodes[2] == P.BOOT
            && w.pipe.requests[2] == [P.Sending(1, 0, [Unit(x, 0, req.txNum)]), P.Sending(2, 1, [])]
            && w.cert.nodes[2].certs == map[] && C.Dup(x, 0, 2, req) in w.cert.net
  {
    hide At;
    w := Certified(ids, req, next);
    OneMore(ids, req, next, 4, w);
    var first := P.Announcement(w.pipe.nodes[0]);
    assert w.pipe.requests[2] == [];
    w := Next(w, Piping(P.Propose), 1);
    assert w.pipe.requests[2] == [] + [first] && w.pipe.nodes[0].index == 1 && w.pipe.nodes[0].pool == [];
    OneMore(ids, req, next, 5, w);
    var second := P.Announcement(w.pipe.nodes[0]);
    w := Next(w, Piping(P.Propose), 1);
    assert w.pipe.requests[2] == ([] + [first]) + [second];
  }

  lemma Received(ids: seq<int>, req: Request, next: Request) returns (w: World)
    requires |ids| == 4
    ensures At(ids, req, next, 8, w) && Shape(w)
    ensures var x := SeqOf(ids[0], 1);
            && |w.cert.nodes| == |w.pipe.nodes| == 4
            && w.pipe.nodes[2].ch == [1] && w.pipe.nodes[2].taken == 0 && w.pipe.nodes[2].exec == FRESH
            && Decided(w.pipe.nodes[2].log, 1) && w.pipe.nodes[2].log[1].reqs == [Unit(x, 0, req.txNum)]
            && w.cert.nodes[2].certs == map[] && C.Dup(x, 0, 2, req) in w.cert.net
  {
    hide At;
    w := Announced(ids, req, next);
    OneMore(ids, req, next, 6, w);
    var rest := w.pipe.requests[2];
    w := Next(w, Piping(P.Deliver(2, 0)), 1);
    assert w.pipe.requests[2] == [rest[1]];
    OneMore(ids, req, next, 7, w);
    w := Next(w, Piping(P.Deliver(2, 0)), 1);
  }

  lemma Dropped(ids: seq<int>, req: Request, next: Request) returns (before: World, w: World)
    requires |ids| == 4
    ensures At(ids, req, next, 8, before) && Shape(before) && |before.pipe.nodes| == 4
    ensures X.Misses(before, Executing(2), 2)
    ensures At(ids, req, next, 10, w) && Shape(w)
    ensures var x := SeqOf(ids[0], 1);
            && |w.cert.nodes| == |w.pipe.nodes| == 4
            && w.pipe.nodes[2].exec.done == [] && E.Stuck(w.pipe.nodes[2])
            && x in C.Held(w.cert.nodes[2]) && 1 in w.pipe.nodes[2].log && w.pipe.nodes[2].log[1].reqs == [Unit(x, 0, req.txNum)]
  {
    hide At;
    var x := SeqOf(ids[0], 1);
    before := Received(ids, req, next);
    var r := before.pipe.nodes[2];
    assert C.Held(before.cert.nodes[2]) == map[];
    assert !Present(r.log[1].reqs, C.Held(before.cert.nodes[2])) by {
      assert r.log[1].reqs[0].seqNo == x;
    }
    assert E.ComesTo(r.exec, r.exec.ahead + {1}, 1);
    OneMore(ids, req, next, 8, before);
    w := Next(before, Executing(2), 1);
    assert w.pipe.nodes[2].exec.cur == 1 && w.pipe.nodes[2].ch[..1] == [1];
    OneMore(ids, req, next, 9, w);
    w := Next(w, Certifying(C.Store(C.Dup(x, 0, 2, req))), 1);
  }

  /** The run is legal and in order; node 2 misses the request, holds it in the end, and is stuck without having
      executed anything. */
  lemma LateRequestStopsNode(ids: seq<int>, req: Request, next: Request)
    requires |ids| == 4 && C.GoodIds(ids)
    ensures Legal(Boot(ids), LateSteps(ids, req, next), 1)
    ensures forall i :: 0 <= i < 10 ==> Fifo(LateSteps(ids, req, next)[i])
    ensures !X.NeverMisses(Boot(ids), LateSteps(ids, req, next), 1, 2)
    ensures var w := After(Boot(ids), LateSteps(ids, req, next), 1);
            && |w.pipe.nodes| == |w.cert.nodes| == 4
            && E.Stuck(w.pipe.nodes[2]) && w.pipe.nodes[2].exec.done == []
            && 1 in w.pipe.nodes[2].log && Present(w.pipe.nodes[2].log[1].reqs, C.Held(w.cert.nodes[2]))
  {
    hide Legal, After, Boot, X.Misses, X.NeverMisses, E.Stuck, C.Held;
    var before, w := Dropped(ids, req, next);
    assert LateSteps(ids, req, next)[..10] == LateSteps(ids, req, next);
    X.ExecutorForm(ids, LateSteps(ids, req, next), 1, 2);
  }
}
