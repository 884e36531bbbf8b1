/** What every executor has done in every run, in any message order and with requests arriving at any time:
    its state in closed form, and exactly when and for how long it stands still. */
module PipelineExecutor {
  import opened Types
  import opened ExecSpec
  import opened Pipeline
  import opened PipelineSafety

  // ---- One drain ----

  /** The drain that starts when `ahead` holds the heights received comes to height k: all from the next one to
      k have been received. */
  ghost predicate ComesTo(e: Exec, ahead: set<int>, k: int) {
    e.cur <= k && forall j :: e.cur <= j <= k ==> j in ahead
  }

  /** It comes to a height with a request missing. */
  ghost predicate Drops(e: Exec, ahead: set<int>, log: Log, held: Requests) {
    exists k :: ComesTo(e, ahead, k) && k in log && !Present(log[k].reqs, held)
  }

  /** In terms of the heights taken so far: all below the next one were taken, and those taken above it wait.
      The next one itself waits unless it was dropped. */
  ghost predicate Between(e: Exec, taken: set<int>) {
    && (forall k :: 1 <= k < e.cur ==> k in taken)
    && (forall h :: h in e.ahead ==> h in taken && h >= e.cur)
    && forall h :: h in taken && h > e.cur ==> h in e.ahead
  }

  lemma DropsLater(e: Exec, log: Log, held: Requests)
    requires e.cur in e.ahead && e.cur in log && Present(log[e.cur].reqs, held)
    ensures var next := Executed(e.(ahead := e.ahead - {e.cur}), log[e.cur].reqs, held);
            Drops(next, next.ahead, log, held) <==> Drops(e, e.ahead, log, held)
  {
    hide Present;
    var next := Executed(e.(ahead := e.ahead - {e.cur}), log[e.cur].reqs, held);
    if Drops(e, e.ahead, log, held) {
      var k :| ComesTo(e, e.ahead, k) && k in log && !Present(log[k].reqs, held);
      assert ComesTo(next, next.ahead, k);
    }
    if Drops(next, next.ahead, log, held) {
      var k :| ComesTo(next, next.ahead, k) && k in log && !Present(log[k].reqs, held);
      forall j | e.cur <= j <= k
        ensures j in e.ahead
      {
        assert j != e.cur ==> j in next.ahead;
      }
      assert ComesTo(e, e.ahead, k);
    }
  }

  /** A drain ends at a height that was not taken, unless it comes to a height with a request missing: then it
      ends at a height that was taken and no longer waits. */
  lemma {:induction false} DrainBetween(e: Exec, taken: set<int>, log: Log, held: Requests)
    requires Between(e, taken) && !e.aborted && (e.cur in taken ==> e.cur in e.ahead)
    requires forall h :: h in e.ahead ==> Decided(log, h)
    ensures var e' := Drain(e, log, held);
            && Between(e', taken) && e'.cur !in e'.ahead
            && (e'.cur in taken <==> Drops(e, e.ahead, log, held))
    decreases |e.ahead|
  {
    if e.cur in e.ahead {
      var next := e.(ahead := e.ahead - {e.cur});
      if Present(log[e.cur].reqs, held) {
        DropsLater(e, log, held);
        hide Drops;
        DrainBetween(Executed(next, log[e.cur].reqs, held), taken, log, held);
      } else {
        assert ComesTo(e, e.ahead, e.cur);
      }
    }
  }

  /** Every height before k that the drain comes to can be executed, and k itself has no prepared and committed entry. */
  ghost predicate PanicsAt(e: Exec, log: Log, held: Requests, k: int) {
    ComesTo(e, e.ahead, k) && !Decided(log, k) && forall j :: e.cur <= j < k ==> Runnable(log, held, j)
  }

  ghost predicate Panics(e: Exec, log: Log, held: Requests) {
    exists k :: PanicsAt(e, log, held, k)
  }

  lemma PanicsLater(e: Exec, log: Log, held: Requests)
    requires e.cur in e.ahead && Runnable(log, held, e.cur)
    ensures var next := Executed(e.(ahead := e.ahead - {e.cur}), log[e.cur].reqs, held);
            Panics(next, log, held) <==> Panics(e, log, held)
  {
    hide Present;
    var next := Executed(e.(ahead := e.ahead - {e.cur}), log[e.cur].reqs, held);
    if Panics(e, log, held) {
      var k :| PanicsAt(e, log, held, k);
      assert k != e.cur;
      assert PanicsAt(next, log, held, k);
    }
    if Panics(next, log, held) {
      var k :| PanicsAt(next, log, held, k);
      forall j | e.cur <= j <= k
        ensures j in e.ahead
      {
        assert j != e.cur ==> j in next.ahead;
      }
      assert PanicsAt(e, log, held, k);
    }
  }

  /** The executor panics exactly when it comes to a received height without a prepared and committed entry, having
      executed everything before it. */
  lemma {:induction false} PanicsIff(e: Exec, log: Log, held: Requests)
    requires !e.aborted
    ensures Drain(e, log, held).aborted <==> Panics(e, log, held)
    decreases |e.ahead|
  {
    if e.cur !in e.ahead {
      assert forall k :: ComesTo(e, e.ahead, k) ==> e.cur in e.ahead;
    } else if !Decided(log, e.cur) {
      assert PanicsAt(e, log, held, e.cur);
    } else if Present(log[e.cur].reqs, held) {
      PanicsLater(e, log, held);
      hide Panics;
      PanicsIff(Executed(e.(ahead := e.ahead - {e.cur}), log[e.cur].reqs, held), log, held);
    } else {
      assert forall k :: PanicsAt(e, log, held, k) ==> k == e.cur || Runnable(log, held, e.cur);
    }
  }

  // ---- One height taken ----

  ghost function TakenBy(r: Replica): set<int>
    requires r.taken <= |r.ch|
  {
    HeightSet(r.ch[..r.taken])
  }

  /** The closed form of an executor: what was taken below the next height is done, what was taken above waits. */
  ghost predicate Form(r: Replica) {
    && r.taken <= |r.ch|
    && Between(r.exec, TakenBy(r)) && r.exec.cur !in r.exec.ahead
  }

  /** The executor waits for a height that was taken already. */
  ghost predicate Stuck(r: Replica) {
    r.taken <= |r.ch| && r.exec.cur in TakenBy(r)
  }

  /** Taking the next height from the channel makes the executor drop one. */
  ghost predicate TakeDrops(r: Replica, held: Requests) {
    r.taken < |r.ch| && Drops(r.exec, r.exec.ahead + {r.ch[r.taken]}, r.log, held)
  }

  lemma TakenNext(r: Replica)
    requires r.taken < |r.ch|
    ensures HeightSet(r.ch[..r.taken + 1]) == TakenBy(r) + {r.ch[r.taken]}
  {
    assert r.ch[..r.taken + 1] == r.ch[..r.taken] + [r.ch[r.taken]];
  }

  lemma TookForm(r: Replica, blocks: Contents, held: Requests)
    requires NodeOk(r, blocks) && Form(r) && r.taken < |r.ch|
    ensures Form(Took(r, held))
    ensures Stuck(Took(r, held)) <==> Stuck(r) || TakeDrops(r, held)
    ensures Stuck(r) ==> Took(r, held).exec.cur == r.exec.cur && Took(r, held).exec.done == r.exec.done
  {
    hide Drops;
    var e, h, taken := r.exec, r.ch[r.taken], TakenBy(r);
    TakenNext(r);
    NotTakenYet(r, blocks);
    assert h in r.ch;
    var fed := e.(ahead := e.ahead + {h});
    ReceivedDecided(r, blocks);
    if h < e.cur {
      assert !Drops(e, fed.ahead, r.log, held) by { NoDropBelow(e, fed.ahead, r.log, held); }
    } else if Stuck(r) {
    } else {
      DrainBetween(fed, taken + {h}, r.log, held);
      SameDrops(e, fed, r.log, held);
    }
  }

  lemma NoDropBelow(e: Exec, ahead: set<int>, log: Log, held: Requests)
    requires e.cur !in ahead
    ensures !Drops(e, ahead, log, held)
  {
    assert forall k :: ComesTo(e, ahead, k) ==> e.cur in ahead;
  }

  lemma SameDrops(e: Exec, fed: Exec, log: Log, held: Requests)
    requires fed.cur == e.cur
    ensures Drops(fed, fed.ahead, log, held) <==> Drops(e, fed.ahead, log, held)
  {
    assert forall k :: ComesTo(fed, fed.ahead, k) <==> ComesTo(e, fed.ahead, k);
  }

  /** No height is on a channel twice. */
  lemma NotTakenYet(r: Replica, blocks: Contents)
    requires NodeOk(r, blocks) && r.taken < |r.ch|
    ensures r.ch[r.taken] !in TakenBy(r)
  {
  }

  lemma ReceivedDecided(r: Replica, blocks: Contents)
    requires NodeOk(r, blocks) && r.taken < |r.ch|
    ensures !r.exec.aborted && forall x :: x in r.exec.ahead + {r.ch[r.taken]} ==> Decided(r.log, x)
  {
    forall x | x in r.exec.ahead + {r.ch[r.taken]}
      ensures Decided(r.log, x)
    {
      assert x in r.ch;
      assert QueuedOk(r.log, blocks, x);
    }
  }

  // ---- Every step, in any order ----

  ghost predicate StepDrops(s: Cluster, step: Step, p: NodeId)
    requires Shape(s) && Enabled(s, step)
  {
    step.Execute? && step.p == p && TakeDrops(s.nodes[p], step.held)
  }

  /** The other steps only put more on the channel. */
  lemma MessagesOnlyQueue(s: Cluster, step: Step, f: nat, p: NodeId)
    requires Safe(s) && Enabled(s, step) && p < |s.nodes| && !(step.Execute? && step.p == p)
    ensures Shape(Next(s, step, f)) && |Next(s, step, f).nodes| == |s.nodes|
    ensures var r, r' := s.nodes[p], Next(s, step, f).nodes[p];
            r'.exec == r.exec && r'.taken == r.taken && r.ch <= r'.ch
  {
    hide Safe, Followed, Confirmed, Receive;
    SafeHasShape(s);
    match step
    case Deliver(q, i) => FollowedLeavesExecutor(s.nodes[q], s.requests[q][i]);
    case Handle(q, i) => ConfirmedLeavesExecutor(s.nodes[0], s.replies[q][i], f);
    case _ =>
  }

  lemma MoreQueued(r: Replica, r': Replica)
    requires r.taken <= |r.ch| && r'.exec == r.exec && r'.taken == r.taken && r.ch <= r'.ch
    ensures Form(r') <==> Form(r)
    ensures Stuck(r') <==> Stuck(r)
  {
    assert r'.ch[..r'.taken] == r.ch[..r.taken];
  }

  /** An executor stands still from the step in which it drops a height, and from no other. */
  lemma StepForm(s: Cluster, step: Step, f: nat, p: NodeId)
    requires Safe(s) && Enabled(s, step) && p < |s.nodes| && Form(s.nodes[p])
    ensures Shape(Next(s, step, f)) && |Next(s, step, f).nodes| == |s.nodes|
    ensures var r, r' := s.nodes[p], Next(s, step, f).nodes[p];
            && Form(r')
            && (Stuck(r') <==> Stuck(r) || StepDrops(s, step, p))
            && (Stuck(r) ==> r'.exec.cur == r.exec.cur && r'.exec.done == r.exec.done)
  {
    hide Form, Stuck, TakeDrops, ChannelOk, ExecutorOk, Blocks, Took;
    FormFacts(s.nodes[p]);
    if step.Execute? && step.p == p {
      assert NodeOk(s.nodes[p], Blocks(s));
      TookForm(s.nodes[p], Blocks(s), step.held);
    } else {
      MessagesOnlyQueue(s, step, f, p);
      MoreQueued(s.nodes[p], Next(s, step, f).nodes[p]);
    }
  }

  lemma FormFacts(r: Replica)
    requires Form(r)
    ensures r.taken <= |r.ch|
  {
  }

  // ---- Every run ----

  ghost predicate NeverDrops(s: Cluster, steps: seq<Step>, f: nat, p: NodeId)
    requires Legal(s, steps, f)
    decreases |steps|
  {
    steps == [] || (NeverDrops(s, steps[..|steps| - 1], f, p)
                    && !StepDrops(After(s, steps[..|steps| - 1], f), steps[|steps| - 1], p))
  }

  /** In every run, in any message order: an executor has done exactly the heights below its next one, all of
      them taken; the heights taken above wait; and the next one was taken already if and only if the executor
      once came to a height with a request missing. */
  lemma {:induction false} ExecutorForm(n: nat, steps: seq<Step>, f: nat, p: NodeId)
    requires p < n && Legal(Boot(n), steps, f)
    ensures var s := After(Boot(n), steps, f);
            && |s.nodes| == n && Form(s.nodes[p])
            && (Stuck(s.nodes[p]) <==> !NeverDrops(Boot(n), steps, f, p))
  {
    hide Form, Stuck, StepDrops, Next, Safe;
    RunIsSafe(n, steps, f);
    if steps == [] {
      BootForm(n, p);
    } else {
      var before := steps[..|steps| - 1];
      RunIsSafe(n, before, f);
      ExecutorForm(n, before, f, p);
      StepForm(After(Boot(n), before, f), steps[|steps| - 1], f, p);
    }
  }

  lemma BootForm(n: nat, p: NodeId)
    requires p < n
    ensures Form(Boot(n).nodes[p]) && !Stuck(Boot(n).nodes[p])
  {
  }

  /** An executor that has dropped a height never moves again, whatever happens afterwards, even when the missing
      request arrives. */
  lemma {:induction false} StuckForGood(n: nat, steps: seq<Step>, more: seq<Step>, f: nat, p: NodeId)
    requires p < n && Legal(Boot(n), steps + more, f) && Legal(Boot(n), steps, f)
    requires !NeverDrops(Boot(n), steps, f, p)
    ensures |After(Boot(n), steps, f).nodes| == |After(Boot(n), steps + more, f).nodes| == n
    ensures var r, r' := After(Boot(n), steps, f).nodes[p], After(Boot(n), steps + more, f).nodes[p];
            Stuck(r') && r'.exec.cur == r.exec.cur && r'.exec.done == r.exec.done
    decreases |more|
  {
    hide Form, Stuck, StepDrops, Next, Safe;
    ExecutorForm(n, steps, f, p);
    if more == [] {
      assert steps + more == steps;
    } else {
      var fewer, last := more[..|more| - 1], more[|more| - 1];
      assert (steps + more)[..|steps + more| - 1] == steps + fewer;
      StuckForGood(n, steps, fewer, f, p);
      RunIsSafe(n, steps + fewer, f);
      ExecutorForm(n, steps + fewer, f, p);
      StepForm(After(Boot(n), steps + fewer, f), last, f, p);
    }
  }
}
