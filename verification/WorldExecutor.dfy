/** Executors in the whole system, where a node holds what its certificates hold: when a node stops executing, and
    a run in which one does. */
module WorldExecutor {
  import opened Types
  import opened ExecSpec
  import opened World
  import C = Certification
  import E = PipelineExecutor
  import F = PipelineFifo
  import P = Pipeline
  import S = PipelineSafety
  import SeqNums

  /** The executor of p comes to a height while the node lacks one of its requests. */
  ghost predicate Misses(w: World, step: Step, p: NodeId)
    requires Shape(w) && p < |w.pipe.nodes|
  {
    step == Executing(p) && E.TakeDrops(w.pipe.nodes[p], C.Held(w.cert.nodes[p]))
  }

  ghost predicate NeverMisses(w: World, steps: seq<Step>, f: nat, p: NodeId)
    requires Legal(w, steps, f)
    decreases |steps|
  {
    steps == [] || (NeverMisses(w, steps[..|steps| - 1], f, p)
                    && var mid := After(w, steps[..|steps| - 1], f);
                       Shape(mid) && p < |mid.pipe.nodes| && !Misses(mid, steps[|steps| - 1], p))
  }

  lemma StepForm(w: World, step: Step, f: nat, p: NodeId)
    requires Inv(w, f) && Enabled(w, step, f) && p < |w.pipe.nodes| && E.Form(w.pipe.nodes[p])
    ensures Shape(w) && Inv(Next(w, step, f), f) && |Next(w, step, f).pipe.nodes| == |w.pipe.nodes|
    ensures var r, r' := w.pipe.nodes[p], Next(w, step, f).pipe.nodes[p];
            && E.Form(r')
            && (E.Stuck(r') <==> E.Stuck(r) || Misses(w, step, p))
            && (E.Stuck(r) ==> r'.exec.cur == r.exec.cur && r'.exec.done == r.exec.done)
  {
    hide E.Form, E.Stuck, E.TakeDrops, S.Safe, P.Next, C.Next, C.Inv, Accounted, StoreOk, C.Outcome;
    StepKeepsInv(w, step, f);
    var ps := PipeStep(w, step, f);
    if ps.Some? {
      E.StepForm(w.pipe, ps.value, f, p);
    }
  }

  /** In every run of the system, in any message order: an executor has done exactly the heights below its next
      one, all of them taken; the heights taken above wait; and the next one was taken already if and only if the
      node once came to a height while it did not hold one of its requests. */
  lemma {:induction false} ExecutorForm(ids: seq<int>, steps: seq<Step>, f: nat, p: NodeId)
    requires |ids| >= 1 && C.GoodIds(ids) && Legal(Boot(ids), steps, f) && p < |ids|
    ensures var w := After(Boot(ids), steps, f);
            && |w.pipe.nodes| == |ids| && E.Form(w.pipe.nodes[p])
            && (E.Stuck(w.pipe.nodes[p]) <==> !NeverMisses(Boot(ids), steps, f, p))
  {
    hide E.Form, E.Stuck, Misses, Next, Inv;
    RunKeepsInv(ids, steps, f);
    if steps == [] {
      E.BootForm(|ids|, p);
    } else {
      var before := steps[..|steps| - 1];
      RunKeepsInv(ids, before, f);
      ExecutorForm(ids, before, f, p);
      StepForm(After(Boot(ids), before, f), steps[|steps| - 1], f, p);
    }
  }

  /** A node that once missed a request never executes again, even when the request reaches it later. */
  lemma {:induction false} StuckForGood(ids: seq<int>, steps: seq<Step>, more: seq<Step>, f: nat, p: NodeId)
    requires |ids| >= 1 && C.GoodIds(ids) && p < |ids|
    requires Legal(Boot(ids), steps + more, f) && Legal(Boot(ids), steps, f)
    requires !NeverMisses(Boot(ids), steps, f, p)
    ensures |After(Boot(ids), steps, f).pipe.nodes| == |After(Boot(ids), steps + more, f).pipe.nodes| == |ids|
    ensures var r, r' := After(Boot(ids), steps, f).pipe.nodes[p], After(Boot(ids), steps + more, f).pipe.nodes[p];
            E.Stuck(r') && r'.exec.cur == r.exec.cur && r'.exec.done == r.exec.done
    decreases |more|
  {
    hide E.Form, E.Stuck, Misses, Next, Inv;
    ExecutorForm(ids, steps, f, p);
    if more == [] {
      assert steps + more == steps;
    } else {
      var fewer, last := more[..|more| - 1], more[|more| - 1];
      assert (steps + more)[..|steps + more| - 1] == steps + fewer;
      StuckForGood(ids, steps, fewer, f, p);
      RunKeepsInv(ids, steps + fewer, f);
      ExecutorForm(ids, steps + fewer, f, p);
      StepForm(After(Boot(ids), steps + fewer, f), last, f, p);
    }
  }

  // ---- In-order runs ----

  /** With heights in order, an executor that is not stuck has done everything it took. */
  lemma InOrderForm(s: P.Cluster, f: nat, p: NodeId)
    requires P.Shape(s) && F.Ordered(s, f) && p < |s.nodes|
    ensures var r := s.nodes[p];
            && r.taken <= |r.ch| && (E.Stuck(r) <==> r.exec.cur != r.taken + 1)
            && (forall held :: r.taken < |r.ch| && !E.Stuck(r) ==>
                  (E.TakeDrops(r, held) <==> r.taken + 1 in r.log && !Present(r.log[r.taken + 1].reqs, held)))
  {
    hide F.Ordered, S.NodeOk, Present;
    F.OrderedNode(s, f, p);
    F.ChannelInOrder(s, p, f);
    var r := s.nodes[p];
    F.UpToElements(|r.ch|);
    TakenInOrder(s, p, f);
    forall held | r.taken < |r.ch| && r.exec.cur == r.taken + 1
      ensures E.TakeDrops(r, held) <==> r.taken + 1 in r.log && !Present(r.log[r.taken + 1].reqs, held)
    {
      var fed := r.exec.ahead + {r.ch[r.taken]};
      assert forall k :: E.ComesTo(r.exec, fed, k) ==> k == r.taken + 1 by {
        forall k | E.ComesTo(r.exec, fed, k)
          ensures k == r.taken + 1
        {
          assert k in fed;
        }
      }
      assert E.ComesTo(r.exec, fed, r.taken + 1);
    }
  }

  lemma TakenInOrder(s: P.Cluster, p: NodeId, f: nat)
    requires P.Shape(s) && F.Ordered(s, f) && p < |s.nodes|
    ensures var r := s.nodes[p];
            r.taken <= |r.ch| && forall k :: k in E.TakenBy(r) <==> 1 <= k <= r.taken
  {
    hide F.Ordered;
    F.OrderedNode(s, f, p);
    F.ChannelInOrder(s, p, f);
    var r := s.nodes[p];
    F.UpToElements(|r.ch|);
    forall k ensures k in E.TakenBy(r) <==> 1 <= k <= r.taken {
      assert 1 <= k <= r.taken ==> r.ch[..r.taken][k - 1] == k;
    }
  }

  /** On in-order links a node has executed everything it took if and only if it held all requests of each block
      at the moment it took the block. */
  lemma KeepsUpIff(ids: seq<int>, steps: seq<Step>, f: nat, p: NodeId)
    requires |ids| >= 1 && f >= 1 && C.GoodIds(ids) && Legal(Boot(ids), steps, f) && p < |ids|
    requires forall i :: 0 <= i < |steps| ==> Fifo(steps[i])
    ensures var w := After(Boot(ids), steps, f);
            && |w.pipe.nodes| == |ids|
            && (w.pipe.nodes[p].exec.cur == w.pipe.nodes[p].taken + 1 <==> NeverMisses(Boot(ids), steps, f, p))
  {
    hide Legal, After, Boot, F.Ordered, Inv, E.Form, E.Stuck, E.TakeDrops;
    ExecutorForm(ids, steps, f, p);
    RunInOrder(ids, steps, f);
    RunKeepsInv(ids, steps, f);
    InvShape(After(Boot(ids), steps, f), f);
    InOrderForm(After(Boot(ids), steps, f).pipe, f, p);
  }

  lemma InvShape(w: World, f: nat)
    requires Inv(w, f)
    ensures Shape(w)
  {
  }
}
