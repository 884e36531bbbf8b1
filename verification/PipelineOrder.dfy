/** What each follower queues and keeps, exactly, for every run in any message order: it is decided by the order
    in which the follower received the announcements. */
module PipelineOrder {
  import opened Types
  import opened ExecSpec
  import opened Pipeline
  import opened PipelineSafety
  import opened PipelineQuorum
  import opened PipelineFifo

  // ---- One step ----

  /** A step queues k at a follower exactly when it delivers announcement k + 1 after announcement k. */
  lemma FollowerQueuesIff(s: Cluster, step: Step, f: nat, q: NodeId, k: int)
    requires Safe(s) && Enabled(s, step) && 1 <= q < |s.nodes| && k >= 1
    ensures Shape(Next(s, step, f)) && |Next(s, step, f).nodes| == |s.nodes|
    ensures k in Next(s, step, f).nodes[q].ch && k !in s.nodes[q].ch
       <==> step.Deliver? && step.q == q && s.requests[q][step.i].height == k + 1
            && Handled(s.requests[q], Blocks(s), k)
  {
    hide Confirmed, Receive, ExecutorOk, Blocks;
    if step.Deliver? && step.q == q {
      assert PeerOk(s, q) && NodeOk(s.nodes[q], Blocks(s));
      FollowedQueue(s.nodes[q], s.requests[q], Blocks(s), step.i);
    }
  }

  /** Delivering an announcement queues the height it commits, if that height was delivered, and nothing else. */
  lemma FollowedQueue(r: Replica, link: seq<Sending>, blocks: Contents, i: nat)
    requires ChannelOk(r.log, r.ch, blocks) && FollowerOk(r, link, blocks) && LinkOk(link, blocks) && i < |link|
    ensures var c := link[i].commit;
            && Followed(r, link[i]).ch == (if Handled(link, blocks, c) then r.ch + [c] else r.ch)
            && (Handled(link, blocks, c) ==> c !in r.ch)
  {
    var m := link[i];
    assert SendingOk(m, blocks) && Waiting(link, m.height);
    assert EntryOk(r.log, link, blocks, m.commit);
    assert !Handled(link, blocks, m.height);
  }

  // ---- The order of arrival ----

  /** The heights announced to follower q, in the order they were delivered. */
  ghost function Arrivals(s: Cluster, steps: seq<Step>, f: nat, q: NodeId): seq<int>
    requires Legal(s, steps, f)
    decreases |steps|
  {
    if steps == [] then []
    else
      var before, last := steps[..|steps| - 1], steps[|steps| - 1];
      var mid := After(s, before, f);
      Arrivals(s, before, f, q)
      + if last.Deliver? && last.q == q then [mid.requests[q][last.i].height] else []
  }

  /** The heights whose successor arrived after them, in the order the successors arrived. */
  function Ready(arrivals: seq<int>): seq<int> {
    if arrivals == [] then []
    else
      var before, last := arrivals[..|arrivals| - 1], arrivals[|arrivals| - 1];
      Ready(before) + if last - 1 in before then [last - 1] else []
  }

  ghost predicate Before(arrivals: seq<int>, k: int) {
    exists i, j :: 0 <= i < j < |arrivals| && arrivals[i] == k && arrivals[j] == k + 1
  }

  lemma BeforeSnoc(arrivals: seq<int>, h: int, k: int)
    ensures Before(arrivals + [h], k) <==> Before(arrivals, k) || (h == k + 1 && k in arrivals)
  {
    var longer := arrivals + [h];
    if Before(arrivals, k) {
      var i, j :| 0 <= i < j < |arrivals| && arrivals[i] == k && arrivals[j] == k + 1;
      assert longer[i] == k && longer[j] == k + 1;
    }
    if h == k + 1 && k in arrivals {
      var i :| 0 <= i < |arrivals| && arrivals[i] == k;
      assert longer[i] == k && longer[|arrivals|] == k + 1;
    }
  }

  lemma {:induction false} ReadyIff(arrivals: seq<int>, k: int)
    ensures k in Ready(arrivals) <==> Before(arrivals, k)
  {
    if arrivals != [] {
      var before, last := arrivals[..|arrivals| - 1], arrivals[|arrivals| - 1];
      ReadyIff(before, k);
      BeforeSnoc(before, last, k);
      assert before + [last] == arrivals;
      hide Before;
    }
  }

  /** Announcement k + 1 arrived, and announcement k had not. */
  ghost predicate Overtaken(arrivals: seq<int>, k: int) {
    k + 1 in arrivals && k !in Ready(arrivals)
  }

  // ---- The follower as a function of the order ----

  /** Everything about height k that the order of arrival decides. */
  ghost predicate EntryTraced(log: Log, blocks: Contents, arrivals: seq<int>, k: int) {
    && (k in log <==> k == 0 || k in arrivals || k + 1 in arrivals)
    && (k >= 1 && k in log ==>
          && k <= |blocks|
          && (log[k].prepared <==> k in arrivals) && (log[k].committed <==> k + 1 in arrivals)
          && log[k].reqs == if Overtaken(arrivals, k) then [] else blocks[k - 1])
  }

  ghost predicate Traced(r: Replica, link: seq<Sending>, blocks: Contents, arrivals: seq<int>) {
    && NoRepeats(arrivals)
    && (forall k :: k in arrivals <==> Handled(link, blocks, k))
    && r.ch == Ready(arrivals)
    && forall k :: EntryTraced(r.log, blocks, arrivals, k)
  }

  lemma FollowedTraced(r: Replica, link: seq<Sending>, blocks: Contents, arrivals: seq<int>, i: nat)
    requires ChannelOk(r.log, r.ch, blocks) && FollowerOk(r, link, blocks) && LinkOk(link, blocks) && i < |link|
    requires Traced(r, link, blocks, arrivals)
    ensures Traced(Followed(r, link[i]), Without(link, i), blocks, arrivals + [link[i].height])
  {
    hide ChannelOk, FollowerOk, LinkOk, Followed, EntryTraced, Ready;
    var m, arrivals', rest := link[i], arrivals + [link[i].height], Without(link, i);
    assert SendingOk(m, blocks) by { LinkIsOk(link, blocks, i); }
    assert Waiting(link, m.height);
    FollowedQueue(r, link, blocks, i);
    assert m.height !in arrivals;
    ReadySnoc(arrivals, m.height, 0);
    forall k ensures k in arrivals' <==> Handled(rest, blocks, k) {
      TakenLeavesOthers(link, blocks, i, k);
    }
    hide Handled, SendingOk;
    forall k ensures EntryTraced(Followed(r, m).log, blocks, arrivals', k) {
      EntryFollowed(r, m, blocks, arrivals, k);
    }
  }

  lemma LinkIsOk(link: seq<Sending>, blocks: Contents, i: nat)
    requires LinkOk(link, blocks) && i < |link|
    ensures SendingOk(link[i], blocks)
  {
  }

  lemma ReadySnoc(arrivals: seq<int>, h: int, k: int)
    requires h !in arrivals
    ensures Ready(arrivals + [h]) == Ready(arrivals) + if h - 1 in arrivals then [h - 1] else []
    ensures k in Ready(arrivals) ==> k in arrivals && k + 1 in arrivals
    ensures Overtaken(arrivals + [h], k) <==> if k + 1 == h then k !in arrivals else Overtaken(arrivals, k)
  {
    assert (arrivals + [h])[..|arrivals|] == arrivals;
    ReadyIff(arrivals, k);
  }

  lemma EntryFollowed(r: Replica, m: Sending, blocks: Contents, arrivals: seq<int>, k: int)
    requires SendingOk(m, blocks) && m.height !in arrivals && EntryTraced(r.log, blocks, arrivals, k)
    requires EntryTraced(r.log, blocks, arrivals, m.commit)
    ensures EntryTraced(Followed(r, m).log, blocks, arrivals + [m.height], k)
  {
    ReadySnoc(arrivals, m.height, k);
    hide Ready;
    var arrivals', log' := arrivals + [m.height], Followed(r, m).log;
    assert forall h :: h in arrivals' <==> h in arrivals || h == m.height;
    FollowedLog(r, m, k);
    hide Followed;
  }

  /** What handling an announcement does to the entry of a height. */
  lemma FollowedLog(r: Replica, m: Sending, k: int)
    requires m.commit == m.height - 1
    ensures var log' := Followed(r, m).log;
            && (k in log' <==> k in r.log || k == m.height || k == m.commit)
            && (k in log' ==>
                  var e := if k in r.log then r.log[k] else if k == m.height then EMPTY_ENTRY.(reqs := m.reqs) else EMPTY_ENTRY;
                  && log'[k].reqs == e.reqs
                  && log'[k].prepared == (e.prepared || k == m.height)
                  && log'[k].committed == (e.committed || k == m.commit))
  {
  }

  lemma AnnouncedTraced(r: Replica, link: seq<Sending>, blocks: Contents, arrivals: seq<int>, m: Sending)
    requires Traced(r, link, blocks, arrivals) && m.height == |blocks| + 1
    ensures Traced(r, link + [m], blocks + [m.reqs], arrivals)
  {
    hide Ready;
    forall k ensures k in arrivals <==> Handled(link + [m], blocks + [m.reqs], k) {
      AnnouncedIsWaiting(link, m, k);
    }
    forall k ensures EntryTraced(r.log, blocks + [m.reqs], arrivals, k) {
      assert EntryTraced(r.log, blocks, arrivals, k);
    }
  }

  lemma SameTraced(r: Replica, r': Replica, link: seq<Sending>, blocks: Contents, arrivals: seq<int>)
    requires Traced(r, link, blocks, arrivals) && r'.log == r.log && r'.ch == r.ch
    ensures Traced(r', link, blocks, arrivals)
  {
  }

  lemma StepTraces(s: Cluster, step: Step, f: nat, q: NodeId, arrivals: seq<int>)
    requires Safe(s) && Enabled(s, step) && 1 <= q < |s.nodes|
    requires Traced(s.nodes[q], s.requests[q], Blocks(s), arrivals)
    ensures var s' := Next(s, step, f);
            && Shape(s') && |s'.nodes| == |s.nodes|
            && Traced(s'.nodes[q], s'.requests[q], Blocks(s'),
                      arrivals + if step.Deliver? && step.q == q then [s.requests[q][step.i].height] else [])
  {
    hide Traced, Followed, Confirmed, Receive, Blocks, ChannelOk, ExecutorOk, FollowerOk, LinkOk, LeaderOk;
    var s' := Next(s, step, f);
    assert PeerOk(s, q) && NodeOk(s.nodes[q], Blocks(s));
    assert arrivals + [] == arrivals;
    match step
    case Propose =>
      ProposeKeepsSafe(s, f);
      LeaderHeight(s);
      AnnouncedTraced(s.nodes[q], s.requests[q], Blocks(s), arrivals, Announcement(s.nodes[0]));
    case Deliver(p, i) =>
      DeliverKeepsSafe(s, p, i, f);
      if p == q {
        FollowedTraced(s.nodes[q], s.requests[q], Blocks(s), arrivals, i);
      }
    case Handle(p, i) =>
      HandleKeepsSafe(s, p, i, f);
    case _ =>
      LocalKeepsSafe(s, step, f);
      SameTraced(s.nodes[q], s'.nodes[q], s.requests[q], Blocks(s), arrivals);
  }

  lemma LeaderHeight(s: Cluster)
    requires Safe(s)
    ensures Shape(s) && s.nodes[0].index == |Blocks(s)|
  {
  }

  /** In every run, what a follower has queued and what it keeps of every height is decided by the order in which
      the announcements arrived. */
  lemma {:induction false} RunTraces(n: nat, steps: seq<Step>, f: nat, q: NodeId)
    requires 1 <= q < n && Legal(Boot(n), steps, f)
    ensures var s := After(Boot(n), steps, f);
            && Shape(s) && |s.nodes| == n
            && Traced(s.nodes[q], s.requests[q], Blocks(s), Arrivals(Boot(n), steps, f, q))
  {
    hide Traced, Next, Safe, Enabled;
    RunIsSafe(n, steps, f);
    SafeHasShape(After(Boot(n), steps, f));
    if steps == [] {
      BootTraced(n, q);
    } else {
      var before := steps[..|steps| - 1];
      RunTraces(n, before, f, q);
      RunIsSafe(n, before, f);
      StepTraces(After(Boot(n), before, f), steps[|steps| - 1], f, q, Arrivals(Boot(n), before, f, q));
    }
  }

  lemma BootTraced(n: nat, q: NodeId)
    requires 1 <= q < n
    ensures Traced(Boot(n).nodes[q], Boot(n).requests[q], Blocks(Boot(n)), [])
  {
  }

  // ---- What follows for every run ----

  /** A follower has queued exactly the heights whose announcement reached it before the next one, in the order
      in which the next ones did. */
  lemma QueuesIff(n: nat, steps: seq<Step>, f: nat, q: NodeId, k: int)
    requires 1 <= q < n && Legal(Boot(n), steps, f)
    ensures var s, arrivals := After(Boot(n), steps, f), Arrivals(Boot(n), steps, f, q);
            && |s.nodes| == n
            && s.nodes[q].ch == Ready(arrivals) && NoRepeats(arrivals)
            && (k in s.nodes[q].ch <==> Before(arrivals, k))
  {
    hide Legal, After, Boot;
    RunTraces(n, steps, f, q);
    ReadyIff(Arrivals(Boot(n), steps, f, q), k);
  }

  /** A node has the contents of block k, committed or not. */
  ghost predicate Keeps(s: Cluster, q: NodeId, k: int)
    requires Shape(s) && q < |s.nodes|
  {
    1 <= k <= |Blocks(s)| && k in s.nodes[q].log && s.nodes[q].log[k].reqs == Blocks(s)[k - 1]
  }

  /** A follower keeps block k exactly when announcement k reached it and was not overtaken by the next one, or
      the block is empty and either announcement reached it. It stores the block with both marks exactly when
      both announcements reached it, in this order unless the block is empty. */
  lemma KeepsIff(n: nat, steps: seq<Step>, f: nat, q: NodeId, k: int)
    requires 1 <= q < n && Legal(Boot(n), steps, f)
    ensures var s, arrivals := After(Boot(n), steps, f), Arrivals(Boot(n), steps, f, q);
            && Shape(s) && |s.nodes| == n
            && (1 <= k <= |Blocks(s)| ==>
                  && (Keeps(s, q, k) <==> (k in arrivals && !Overtaken(arrivals, k))
                                          || (Blocks(s)[k - 1] == [] && (k in arrivals || k + 1 in arrivals)))
                  && (Stores(s, q, k) <==> Before(arrivals, k)
                                           || (Blocks(s)[k - 1] == [] && k in arrivals && k + 1 in arrivals)))
  {
    hide Legal, After, Boot, Blocks, Ready;
    RunTraces(n, steps, f, q);
    var s, arrivals := After(Boot(n), steps, f), Arrivals(Boot(n), steps, f, q);
    ReadyIff(arrivals, k);
    assert EntryTraced(s.nodes[q].log, Blocks(s), arrivals, k);
  }

  /** The followers that keep block k. */
  ghost function Keepers(s: Cluster, k: int): set<NodeId>
    requires Shape(s)
  {
    set q: NodeId | 1 <= q < |s.nodes| && Keeps(s, q, k)
  }

  /** The followers that announcement k reached without being overtaken. */
  ghost function InTime(n: nat, steps: seq<Step>, f: nat, k: int): set<NodeId>
    requires n >= 1 && Legal(Boot(n), steps, f)
  {
    set q: NodeId | 1 <= q < n && k in Arrivals(Boot(n), steps, f, q) && !Overtaken(Arrivals(Boot(n), steps, f, q), k)
  }

  /** The followers that announcement k reached before announcement k + 1 did. */
  ghost function InSequence(n: nat, steps: seq<Step>, f: nat, k: int): set<NodeId>
    requires n >= 1 && Legal(Boot(n), steps, f)
  {
    set q: NodeId | 1 <= q < n && Before(Arrivals(Boot(n), steps, f, q), k)
  }

  /** The followers that both announcements reached. */
  ghost function ByBoth(n: nat, steps: seq<Step>, f: nat, k: int): set<NodeId>
    requires n >= 1 && Legal(Boot(n), steps, f)
  {
    set q: NodeId | 1 <= q < n && k in Arrivals(Boot(n), steps, f, q) && k + 1 in Arrivals(Boot(n), steps, f, q)
  }

  /** Durability under any message order: a height the proposer has queued is kept by f followers if and only if
      its announcement reached f followers without being overtaken, or the block is empty; and it is stored with
      its commit by f followers if and only if the two announcements reached f of them in order, or the block is
      empty and both reached f of them. */
  lemma DurableIff(n: nat, steps: seq<Step>, f: nat, k: int)
    requires n >= 1 && f >= 1 && Legal(Boot(n), steps, f)
    requires |After(Boot(n), steps, f).nodes| >= 1 && k in After(Boot(n), steps, f).nodes[0].ch
    ensures var s := After(Boot(n), steps, f);
            && Shape(s) && 1 <= k <= |Blocks(s)|
            && (|Keepers(s, k)| >= f <==> |InTime(n, steps, f, k)| >= f || Blocks(s)[k - 1] == [])
            && (|Storers(s, k)| >= f <==> |InSequence(n, steps, f, k)| >= f
                                          || (Blocks(s)[k - 1] == [] && |ByBoth(n, steps, f, k)| >= f))
  {
    hide Legal, After, Boot, Blocks, Quorum, Keeps, Stores, Before, Overtaken;
    RunIsSafe(n, steps, f);
    RunKeepsQuorum(n, steps, f);
    var s := After(Boot(n), steps, f);
    SafeHasShape(s);
    QueuedHasQuorums(s, f, k);
    forall q: NodeId | 1 <= q < n
      ensures Keeps(s, q, k) <==> q in InTime(n, steps, f, k) || (Blocks(s)[k - 1] == [] && ReachedBy(n, steps, f, q, k))
      ensures Stores(s, q, k) <==> q in InSequence(n, steps, f, k) || (Blocks(s)[k - 1] == [] && q in ByBoth(n, steps, f, k))
    {
      KeepsIff(n, steps, f, q, k);
    }
    if Blocks(s)[k - 1] == [] {
      var voters := s.nodes[0].log[k + 1].prepareConfirms;
      forall q | q in voters
        ensures q in Keepers(s, k)
      {
        RunTraces(n, steps, f, q);
      }
      SizeOfElements(voters);
      SubsetSize((set q | q in voters), Keepers(s, k));
      InSequenceIsByBoth(n, steps, f, k);
      SubsetSize(InSequence(n, steps, f, k), ByBoth(n, steps, f, k));
      assert Storers(s, k) == ByBoth(n, steps, f, k);
    } else {
      assert Keepers(s, k) == InTime(n, steps, f, k);
      assert Storers(s, k) == InSequence(n, steps, f, k);
    }
  }

  ghost predicate ReachedBy(n: nat, steps: seq<Step>, f: nat, q: NodeId, k: int)
    requires n >= 1 && Legal(Boot(n), steps, f)
  {
    k in Arrivals(Boot(n), steps, f, q) || k + 1 in Arrivals(Boot(n), steps, f, q)
  }

  lemma InSequenceIsByBoth(n: nat, steps: seq<Step>, f: nat, k: int)
    requires n >= 1 && Legal(Boot(n), steps, f)
    ensures InSequence(n, steps, f, k) <= ByBoth(n, steps, f, k)
  {
  }

  // ---- What an overtaken announcement costs ----

  lemma {:induction false} ArrivalsGrow(n: nat, steps: seq<Step>, more: seq<Step>, f: nat, q: NodeId)
    requires 1 <= q < n && Legal(Boot(n), steps + more, f)
    ensures Legal(Boot(n), steps, f)
    ensures Arrivals(Boot(n), steps, f, q) <= Arrivals(Boot(n), steps + more, f, q)
    decreases |more|
  {
    if more == [] {
      assert steps + more == steps;
    } else {
      assert (steps + more)[..|steps + more| - 1] == steps + more[..|more| - 1];
      ArrivalsGrow(n, steps, more[..|more| - 1], f, q);
    }
  }

  /** Without repetitions, an order that was decided stays decided. */
  lemma BeforeIsDecided(arrivals: seq<int>, later: seq<int>, k: int)
    requires arrivals <= later && NoRepeats(later) && k + 1 in arrivals && Before(later, k)
    ensures Before(arrivals, k)
  {
    var i, j :| 0 <= i < j < |later| && later[i] == k && later[j] == k + 1;
    var x :| 0 <= x < |arrivals| && arrivals[x] == k + 1;
    assert later[x] == k + 1 && x == j;
    assert arrivals[i] == k && arrivals[j] == k + 1;
  }

  lemma OvertakenStays(arrivals: seq<int>, later: seq<int>, k: int)
    requires arrivals <= later && NoRepeats(later) && Overtaken(arrivals, k)
    ensures Overtaken(later, k)
  {
    ReadyIff(arrivals, k);
    ReadyIff(later, k);
    hide Ready, Before;
    if Before(later, k) {
      BeforeIsDecided(arrivals, later, k);
    }
  }

  /** Once announcement k + 1 has overtaken announcement k on the way to a follower, that follower never queues k
      and never executes past it, whatever arrives later. */
  lemma OvertakenForGood(n: nat, steps: seq<Step>, more: seq<Step>, f: nat, q: NodeId, k: int)
    requires 1 <= q < n && k >= 1 && Legal(Boot(n), steps + more, f) && Legal(Boot(n), steps, f)
    requires Overtaken(Arrivals(Boot(n), steps, f, q), k)
    ensures var s := After(Boot(n), steps + more, f);
            |s.nodes| == n && k !in s.nodes[q].ch && s.nodes[q].exec.cur <= k
  {
    hide Legal, After, Boot, Overtaken;
    ArrivalsGrow(n, steps, more, f, q);
    QueuesIff(n, steps + more, f, q, k);
    OvertakenStays(Arrivals(Boot(n), steps, f, q), Arrivals(Boot(n), steps + more, f, q), k);
    RunIsSafe(n, steps + more, f);
    var s := After(Boot(n), steps + more, f);
    OvertakenIsNotReady(Arrivals(Boot(n), steps + more, f, q), k);
    assert NodeOk(s.nodes[q], Blocks(s));
    assert k < s.nodes[q].exec.cur ==> ExecutedOk(s.nodes[q].exec, s.nodes[q].ch, Blocks(s), k);
  }

  lemma OvertakenIsNotReady(arrivals: seq<int>, k: int)
    requires Overtaken(arrivals, k)
    ensures k !in Ready(arrivals)
  {
  }
}
