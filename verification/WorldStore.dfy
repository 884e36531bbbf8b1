/** What the store of a node holds, in every run of the whole system. */
module WorldStore {
  import opened Types
  import opened ExecSpec
  import opened World
  import opened Effects
  import C = Certification
  import P = Pipeline
  import S = PipelineSafety

  /** The node still holds every request it has executed. */
  ghost predicate HoldsWhatItRan(w: World, p: NodeId)
    requires Shape(w) && p < |w.pipe.nodes|
  {
    AllPresent(w.pipe.nodes[p].exec.done, C.Held(w.cert.nodes[p]))
  }

  lemma {:induction false} StaysPresent(blocks: seq<Block>, a: Requests, b: Requests)
    requires AllPresent(blocks, a) && Submap(a, b)
    ensures AllPresent(blocks, b)
  {
    ReplayAgrees(blocks, a, b);
  }

  lemma GrownHolds(a: seq<C.Certifier>, b: seq<C.Certifier>, p: NodeId)
    requires C.Grown(a, b) && p < |a|
    ensures Submap(C.Held(a[p]), C.Held(b[p]))
  {
    assert C.NodeGrown(a[p], b[p]);
  }

  lemma TookHolds(r: P.Replica, held: Requests)
    requires r.taken < |r.ch| && AllPresent(r.exec.done, held)
    ensures AllPresent(P.Took(r, held).exec.done, held)
  {
    var h := r.ch[r.taken];
    DrainExecutesHeld(r.exec.(ahead := r.exec.ahead + {h}), r.log, held, held);
  }

  lemma StepKeepsHeld(w: World, step: Step, f: nat, p: NodeId)
    requires Inv(w, f) && Enabled(w, step, f) && p < |w.pipe.nodes|
    requires Shape(w) && HoldsWhatItRan(w, p)
    ensures Shape(Next(w, step, f)) && |Next(w, step, f).pipe.nodes| == |w.pipe.nodes|
    ensures HoldsWhatItRan(Next(w, step, f), p)
  {
    hide S.Safe, C.Inv, Accounted, StoreOk, C.Outcome, AllPresent, C.Held;
    StepKeepsInv(w, step, f);
    var e := w.pipe.nodes[p].exec;
    match step
    case Certifying(c) =>
      C.StepGrows(w.cert, c, f);
      GrownHolds(w.cert.nodes, C.Next(w.cert, c, f).nodes, p);
      StaysPresent(e.done, C.Held(w.cert.nodes[p]), C.Held(C.Next(w.cert, c, f).nodes[p]));
    case Piping(s) => P.MessagesLeaveExecutors(w.pipe, s, f, p);
    case Executing(q) =>
      if p == q {
        TookHolds(w.pipe.nodes[p], C.Held(w.cert.nodes[p]));
      }
  }

  lemma {:induction false} RunKeepsHeld(ids: seq<int>, steps: seq<Step>, f: nat, p: NodeId)
    requires |ids| >= 1 && C.GoodIds(ids) && Legal(Boot(ids), steps, f) && p < |ids|
    ensures var w := After(Boot(ids), steps, f);
            Shape(w) && |w.pipe.nodes| == |ids| && HoldsWhatItRan(w, p)
  {
    hide Inv, Next, C.Held;
    RunKeepsInv(ids, steps, f);
    InvHasShape(After(Boot(ids), steps, f), f);
    if steps != [] {
      var before := steps[..|steps| - 1];
      RunKeepsInv(ids, before, f);
      RunKeepsHeld(ids, before, f, p);
      StepKeepsHeld(After(Boot(ids), before, f), steps[|steps| - 1], f, p);
    }
  }

  lemma InvHasShape(w: World, f: nat)
    requires Inv(w, f)
    ensures Shape(w)
  {
  }

  lemma StoreIsReplay(w: World, f: nat, p: NodeId)
    requires Inv(w, f) && Shape(w) && p < |w.pipe.nodes| && HoldsWhatItRan(w, p)
    ensures w.pipe.nodes[p].exec.kv == Replay(w.pipe.nodes[p].exec.done, C.Held(w.cert.nodes[p]))
  {
    hide S.Safe, C.Inv, Accounted, AllPresent, C.Held, C.Consistent;
    assert StoreOk(w, p);
    C.InvIsConsistent(w.cert, f);
    C.HeldAgrees(w.cert, f, p);
    ReplayAgrees(w.pipe.nodes[p].exec.done, C.Held(w.cert.nodes[p]), C.Registry(w.cert.nodes));
  }

  /** In every run the store of every node has exactly the keys written by the blocks it has executed, each with
      the value of the last write over all those blocks, in the order of blocks, requests, transactions and
      operations; and the node holds all the requests concerned. */
  lemma StoreHoldsLastWrites(ids: seq<int>, steps: seq<Step>, f: nat, p: NodeId)
    requires |ids| >= 1 && C.GoodIds(ids) && Legal(Boot(ids), steps, f) && p < |ids|
    ensures var w := After(Boot(ids), steps, f);
            && |w.pipe.nodes| == |w.cert.nodes| == |ids|
            && var e, held := w.pipe.nodes[p].exec, C.Held(w.cert.nodes[p]);
               AllPresent(e.done, held) && IsStoreOf(e.kv, e.done, held)
  {
    hide Legal, After, Boot, Inv, AllPresent, C.Held, IsStoreOf;
    RunKeepsInv(ids, steps, f);
    RunKeepsHeld(ids, steps, f, p);
    var w := After(Boot(ids), steps, f);
    StoreIsReplay(w, f, p);
    ReplayIsStore(w.pipe.nodes[p].exec.done, C.Held(w.cert.nodes[p]));
  }
}
