/** Progress and durability when every link delivers in order and the fault number is at least one. */
module PipelineFifo {
  import opened Types
  import opened ExecSpec
  import opened Pipeline
  import opened PipelineSafety
  import opened PipelineQuorum

  function UpTo(m: int): seq<int> {
    if m <= 0 then [] else UpTo(m - 1) + [m]
  }

  lemma {:induction false} UpToElements(m: nat)
    ensures |UpTo(m)| == m
    ensures forall i :: 0 <= i < m ==> UpTo(m)[i] == i + 1
  {
    if m > 0 {
      UpToElements(m - 1);
    }
  }

  // ---- The invariant ----

  ghost predicate FifoRequests(link: seq<Sending>, n: int) {
    |link| <= n && forall i :: 0 <= i < |link| ==> link[i].height == n - |link| + 1 + i
  }

  ghost predicate FifoReplies(link: seq<Reply>, got: int) {
    |link| <= got && forall i :: 0 <= i < |link| ==> link[i].prepared == got - |link| + 1 + i
  }

  /** A follower that handled announcements 1 to `got`: it stores every block, the last one uncommitted, and
      has queued all the others in order. */
  ghost predicate FifoFollower(r: Replica, got: int, blocks: Contents) {
    && 0 <= got <= |blocks|
    && (forall k :: k in r.log <==> 0 <= k <= got)
    && !r.log[0].prepared
    && (forall k :: 1 <= k <= got ==> FifoEntry(r.log, got, blocks, k))
    && r.ch == UpTo(got - 1)
  }

  ghost predicate FifoEntry(log: Log, got: int, blocks: Contents, k: int)
    requires k in log && 1 <= k <= |blocks|
  {
    log[k].reqs == blocks[k - 1] && log[k].prepared && (log[k].committed <==> k < got) && (log[k].executed <==> k < got)
  }

  /** The proposer has queued 1, 2, ... up to the last height with f commit confirmations. */
  ghost predicate FifoLeader(r: Replica, blocks: Contents, f: nat) {
    && LeaderOk(r, blocks)
    && r.ch == UpTo(|r.ch|)
    && forall k :: 1 <= k <= |blocks| ==> FifoQueued(r, f, k)
  }

  ghost predicate FifoQueued(r: Replica, f: nat, k: int)
    requires k in r.log
  {
    (r.log[k].executed <==> k <= |r.ch|) && (k <= |r.ch| <==> |r.log[k].commitConfirms| >= f)
  }

  /** The executor has run everything it took, or waits for good at a height it took and dropped. */
  ghost predicate FifoExecutor(r: Replica) {
    && 1 <= r.exec.cur <= r.taken + 1
    && forall h :: h in r.exec.ahead <==> r.exec.cur < h <= r.taken
  }

  ghost function Got(s: Cluster, q: NodeId): int
    requires Shape(s) && q < |s.nodes|
  {
    |Blocks(s)| - |s.requests[q]|
  }

  /** How many of its answers the proposer has handled. */
  ghost function Heard(s: Cluster, q: NodeId): int
    requires Shape(s) && q < |s.nodes|
  {
    Got(s, q) - |s.replies[q]|
  }

  ghost predicate FifoPeer(s: Cluster, q: NodeId)
    requires Shape(s) && q < |s.nodes|
  {
    && FifoRequests(s.requests[q], |Blocks(s)|)
    && FifoReplies(s.replies[q], Got(s, q))
    && FifoFollower(s.nodes[q], Got(s, q), Blocks(s))
  }

  ghost predicate Ordered(s: Cluster, f: nat) {
    && Quorum(s, f)
    && FifoLeader(s.nodes[0], Blocks(s), f)
    && (forall q :: 1 <= q < |s.nodes| ==> FifoPeer(s, q))
    && forall p :: 0 <= p < |s.nodes| ==> FifoExecutor(s.nodes[p])
  }

  lemma BootOrdered(n: nat, f: nat)
    requires n >= 1 && f >= 1
    ensures Ordered(Boot(n), f)
  {
    BootQuorum(n, f);
    assert Blocks(Boot(n)) == [];
  }

  // ---- Local preservation ----

  lemma FollowedInOrder(r: Replica, m: Sending, got: nat, blocks: Contents)
    requires FifoFollower(r, got, blocks) && m.height == got + 1 <= |blocks|
    requires m.commit == got && m.reqs == blocks[got]
    ensures FifoFollower(Followed(r, m), got + 1, blocks)
  {
    var r' := Followed(r, m);
    assert got >= 1 ==> FifoEntry(r.log, got, blocks, got);
    forall k | 1 <= k <= got + 1
      ensures k in r'.log && FifoEntry(r'.log, got + 1, blocks, k)
    {
      assert k <= got ==> FifoEntry(r.log, got, blocks, k);
    }
  }

  lemma FollowerSeesMore(r: Replica, got: int, blocks: Contents, block: seq<Unit>)
    requires FifoFollower(r, got, blocks)
    ensures FifoFollower(r, got, blocks + [block])
  {
    forall k | 1 <= k <= got
      ensures FifoEntry(r.log, got, blocks + [block], k)
    {
      assert FifoEntry(r.log, got, blocks, k);
    }
  }

  /** In order, a follower has answered exactly announcements 1 to `Heard`. */
  lemma AnsweredInOrder(s: Cluster, q: NodeId, k: int)
    requires Shape(s) && q < |s.nodes|
    requires FifoRequests(s.requests[q], |Blocks(s)|) && FifoReplies(s.replies[q], Got(s, q))
    ensures Answered(s, q, k) <==> 1 <= k <= Heard(s, q)
    ensures Handled(s.requests[q], Blocks(s), k) <==> 1 <= k <= Got(s, q)
  {
    hide Blocks;
    var n, link, replies := |Blocks(s)|, s.requests[q], s.replies[q];
    if Got(s, q) < k <= n {
      assert link[k - Got(s, q) - 1].height == k;
    }
    if Heard(s, q) < k <= Got(s, q) {
      assert replies[k - Heard(s, q) - 1].prepared == k;
    }
  }

  /** Later blocks have no more confirmations than earlier ones. */
  lemma ConfirmationsDecrease(s: Cluster, j: int, k: int)
    requires Shape(s) && LeaderOk(s.nodes[0], Blocks(s)) && 1 <= j <= k <= |Blocks(s)|
    requires VotersOk(s, j) && VotersOk(s, k)
    requires forall q :: 1 <= q < |s.nodes| ==> FifoRequests(s.requests[q], |Blocks(s)|) && FifoReplies(s.replies[q], Got(s, q))
    ensures |s.nodes[0].log[k].prepareConfirms| <= |s.nodes[0].log[j].prepareConfirms|
  {
    hide Blocks, Answered, FifoRequests, FifoReplies;
    var a, b := s.nodes[0].log[k].prepareConfirms, s.nodes[0].log[j].prepareConfirms;
    forall q | q in a
      ensures q in b
    {
      AnsweredInOrder(s, q, j);
      AnsweredInOrder(s, q, k);
    }
    DistinctFitsIn(a, b);
  }

  lemma TookInOrder(r: Replica, blocks: Contents, held: Requests)
    requires NodeOk(r, blocks) && FifoExecutor(r) && r.ch == UpTo(|r.ch|) && r.taken < |r.ch|
    ensures FifoExecutor(Took(r, held))
    ensures Took(r, held).exec.cur == Took(r, held).taken + 1
       <==> r.exec.cur == r.taken + 1 && Present(r.log[r.ch[r.taken]].reqs, held)
    ensures r.ch[r.taken] == r.taken + 1 && Decided(r.log, r.taken + 1)
  {
    hide ChannelOk, ExecutorOk;
    UpToElements(|r.ch|);
    var e, h := r.exec, r.taken + 1;
    assert r.ch[r.taken] == h;
    assert Decided(r.log, h) && !e.aborted by { ChannelDecided(r, blocks, h); }
    var fed := e.(ahead := e.ahead + {h});
    if e.cur == h {
      assert forall x :: x in e.ahead ==> e.cur < x <= r.taken;
      assert e.ahead == {};
      assert fed.ahead - {h} == {};
      if Present(r.log[h].reqs, held) {
        var next := Executed(fed.(ahead := fed.ahead - {h}), r.log[h].reqs, held);
        assert Drain(fed, r.log, held) == Drain(next, r.log, held);
      }
    } else {
      assert e.cur !in fed.ahead;
    }
  }

  lemma ChannelDecided(r: Replica, blocks: Contents, h: int)
    requires NodeOk(r, blocks) && h in r.ch
    ensures Decided(r.log, h) && !r.exec.aborted
  {
    assert QueuedOk(r.log, blocks, h);
  }

  /** Counting an answer in order queues the confirmed height exactly when it reaches f confirmations. */
  lemma ConfirmedInOrder(r: Replica, a: Reply, q: NodeId, blocks: Contents, f: nat)
    requires FifoLeader(r, blocks, f) && CountsOk(r, blocks, f) && ReplyOk(a, q, blocks) && f >= 1
    requires CountsOk(Confirmed(r, a, f), blocks, f)
    requires a.committed >= 1 ==> |Confirmed(r, a, f).log[a.prepared].prepareConfirms|
                                  <= |Confirmed(r, a, f).log[a.committed].prepareConfirms|
    ensures FifoLeader(Confirmed(r, a, f), blocks, f)
  {
    ConfirmedIsCounted(r, a, f);
    var c := a.committed;
    var r' := Confirmed(r, a, f);
    NextInLine(r, a, q, blocks, f);
    forall k | 1 <= k <= |blocks|
      ensures k in r'.log && FifoQueued(r', f, k)
    {
      assert FifoQueued(r, f, k);
      if k == c {
        assert CountOk(r'.log, |blocks|, f, c);
      }
    }
  }

  /** A height queued by an answer is the one after the last queued height, and any other answer leaves the queue alone. */
  lemma NextInLine(r: Replica, a: Reply, q: NodeId, blocks: Contents, f: nat)
    requires FifoLeader(r, blocks, f) && CountsOk(r, blocks, f) && ReplyOk(a, q, blocks) && f >= 1
    requires CountsOk(Confirmed(r, a, f), blocks, f)
    requires a.committed >= 1 ==> |Confirmed(r, a, f).log[a.prepared].prepareConfirms|
                                  <= |Confirmed(r, a, f).log[a.committed].prepareConfirms|
    ensures var c, r' := a.committed, Confirmed(r, a, f);
            var ready := c >= 1 && |r'.log[c].commitConfirms| >= f;
            && (ready && c > |r.ch| ==> c == |r.ch| + 1 && r'.ch == r.ch + [c] && r'.log[c].executed)
            && (!ready || c <= |r.ch| ==> r'.ch == r.ch && r'.log[c].executed == r.log[c].executed)
  {
    ConfirmedIsCounted(r, a, f);
    var c, r' := a.committed, Confirmed(r, a, f);
    assert CountOk(r'.log, |blocks|, f, c) && CountOk(r.log, |blocks|, f, c);
    if c >= 1 {
      assert FifoQueued(r, f, c);
      if c >= 2 {
        assert FifoQueued(r, f, c - 1) && CountOk(r.log, |blocks|, f, c - 1);
      }
    }
  }

  // ---- Every in-order step keeps the invariant ----

  lemma QuorumIsSafe(s: Cluster, f: nat)
    requires Quorum(s, f)
    ensures Safe(s) && Shape(s) && CountsOk(s.nodes[0], Blocks(s), f)
    ensures forall q :: 1 <= q < |s.nodes| ==> PeerOk(s, q)
    ensures forall p :: 0 <= p < |s.nodes| ==> NodeOk(s.nodes[p], Blocks(s))
  {
  }

  lemma ProposeInOrder(s: Cluster, f: nat)
    requires Ordered(s, f) && f >= 1
    ensures Ordered(Next(s, Propose, f), f)
  {
    hide Quorum, Blocks, LeaderOk, FifoFollower, CountsOk;
    QuorumIsSafe(s, f);
    var s' := Next(s, Propose, f);
    ProposeKeepsQuorum(s, f);
    ProposeKeepsSafe(s, f);
    ProposedInOrder(s.nodes[0], Blocks(s), f);
    LeaderCounts(s, f);
    forall q | 1 <= q < |s.nodes|
      ensures FifoPeer(s', q)
    {
      assert FifoPeer(s, q);
      FollowerSeesMore(s.nodes[q], Got(s, q), Blocks(s), s.nodes[0].pool);
      AnnouncedInOrder(s.requests[q], |Blocks(s)|, Announcement(s.nodes[0]));
      assert s'.requests[q] == s.requests[q] + [Announcement(s.nodes[0])];
      assert Got(s', q) == Got(s, q);
    }
    assert FifoExecutor(s.nodes[0]);
  }

  lemma AnnouncedInOrder(link: seq<Sending>, n: int, m: Sending)
    requires FifoRequests(link, n) && m.height == n + 1
    ensures FifoRequests(link + [m], n + 1)
  {
  }

  lemma LeaderCounts(s: Cluster, f: nat)
    requires Quorum(s, f)
    ensures Shape(s) && s.nodes[0].index == |Blocks(s)|
  {
  }

  lemma ProposedInOrder(r: Replica, blocks: Contents, f: nat)
    requires FifoLeader(r, blocks, f) && CountsOk(r, blocks, f) && NodeOk(r, blocks) && f >= 1
    ensures FifoLeader(Proposed(r), blocks + [r.pool], f)
  {
    var r', n := Proposed(r), |blocks| + 1;
    UpToElements(|r.ch|);
    assert r.ch != [] ==> r.ch[|r.ch| - 1] in r.ch;
    assert |r.ch| <= |blocks|;
    forall k | 1 <= k <= n
      ensures k in r'.log && FifoQueued(r', f, k)
    {
      if k < n {
        assert FifoQueued(r, f, k);
        assert r'.log[k] == r.log[k];
      } else {
        assert r'.log[k] == EMPTY_ENTRY.(reqs := r.pool);
      }
    }
  }

  lemma DeliverInOrder(s: Cluster, q: NodeId, f: nat)
    requires Ordered(s, f) && Enabled(s, Deliver(q, 0))
    ensures Ordered(Next(s, Deliver(q, 0), f), f)
  {
    hide Quorum, Blocks, FifoLeader, Followed, FifoFollower;
    QuorumIsSafe(s, f);
    var s', m := Next(s, Deliver(q, 0), f), s.requests[q][0];
    DeliverKeepsQuorum(s, q, 0, f);
    DeliverKeepsSafe(s, q, 0, f);
    QuorumIsSafe(s', f);
    assert FifoPeer(s, q) && PeerOk(s, q);
    assert SendingOk(m, Blocks(s));
    FollowedInOrder(s.nodes[q], m, Got(s, q), Blocks(s));
    forall p | 1 <= p < |s.nodes|
      ensures FifoPeer(s', p)
    {
      assert FifoPeer(s, p);
    }
    FollowedLeavesExecutor(s.nodes[q], m);
    assert FifoExecutor(s.nodes[q]);
  }

  lemma HandledLinks(s: Cluster, q: NodeId, f: nat)
    requires Ordered(s, f) && Enabled(s, Handle(q, 0))
    ensures var s' := Next(s, Handle(q, 0), f);
            Shape(s') && Blocks(s') == Blocks(s) && |s'.nodes| == |s.nodes|
            && forall p :: 1 <= p < |s.nodes| ==> FifoPeer(s', p)
  {
    hide Quorum, Blocks, Confirmed, FifoLeader, FifoFollower;
    QuorumIsSafe(s, f);
    HandleKeepsSafe(s, q, 0, f);
    var s' := Next(s, Handle(q, 0), f);
    forall p | 1 <= p < |s.nodes|
      ensures FifoPeer(s', p)
    {
      assert FifoPeer(s, p);
    }
  }

  lemma HandleInOrder(s: Cluster, q: NodeId, f: nat)
    requires Ordered(s, f) && Enabled(s, Handle(q, 0)) && f >= 1
    ensures Ordered(Next(s, Handle(q, 0), f), f)
  {
    hide Blocks, Confirmed, FifoLeader, FifoFollower, AnswersOk, CountsOk;
    QuorumIsSafe(s, f);
    var s', a := Next(s, Handle(q, 0), f), s.replies[q][0];
    HandleKeepsQuorum(s, q, 0, f);
    HandledLinks(s, q, f);
    QuorumIsSafe(s', f);
    assert PeerOk(s, q);
    assert ReplyOk(a, q, Blocks(s));
    if a.committed >= 1 {
      assert VotersOk(s', a.committed) && VotersOk(s', a.prepared);
      forall p | 1 <= p < |s'.nodes|
        ensures FifoRequests(s'.requests[p], |Blocks(s')|) && FifoReplies(s'.replies[p], Got(s', p))
      {
        assert FifoPeer(s', p);
      }
      ConfirmationsDecrease(s', a.committed, a.prepared);
    }
    ConfirmedInOrder(s.nodes[0], a, q, Blocks(s), f);
    ConfirmedLeavesExecutor(s.nodes[0], a, f);
    assert FifoExecutor(s.nodes[0]);
  }

  lemma LocalInOrder(s: Cluster, step: Step, f: nat)
    requires Ordered(s, f) && Enabled(s, step) && (step.Certify? || step.Execute?)
    ensures Ordered(Next(s, step, f), f)
  {
    hide Quorum, Blocks, Receive, CountOk, Took, FifoLeader, FifoFollower, CountsOk;
    QuorumIsSafe(s, f);
    var s' := Next(s, step, f);
    LocalKeepsQuorum(s, step, f);
    LocalLeavesLinks(s, step, f);
    assert FifoExecutor(s.nodes[step.p]);
    if step.Execute? {
      assert NodeOk(s.nodes[step.p], Blocks(s));
      assert step.p != 0 ==> FifoPeer(s, step.p);
      ChannelInOrder(s, step.p, f);
      TookInOrder(s.nodes[step.p], Blocks(s), step.held);
      TookLeavesLog(s.nodes[step.p], step.held);
    }
    forall p | 1 <= p < |s.nodes|
      ensures FifoPeer(s', p)
    {
      assert FifoPeer(s, p);
      if p == step.p {
        SameFollowerInOrder(s.nodes[p], s'.nodes[p], Got(s, p), Blocks(s));
      }
    }
    SameLeaderInOrder(s.nodes[0], s'.nodes[0], Blocks(s), f);
  }

  lemma TookLeavesLog(r: Replica, held: Requests)
    requires r.taken < |r.ch|
    ensures Took(r, held).log == r.log && Took(r, held).ch == r.ch && Took(r, held).index == r.index
  {
    hide Receive;
  }

  lemma SameFollowerInOrder(r: Replica, r': Replica, got: int, blocks: Contents)
    requires FifoFollower(r, got, blocks) && r'.log == r.log && r'.ch == r.ch
    ensures FifoFollower(r', got, blocks)
  {
  }

  lemma SameLeaderInOrder(r: Replica, r': Replica, blocks: Contents, f: nat)
    requires FifoLeader(r, blocks, f) && r'.log == r.log && r'.ch == r.ch && r'.index == r.index
    ensures FifoLeader(r', blocks, f)
  {
    forall k | 1 <= k <= |blocks|
      ensures FifoQueued(r', f, k)
    {
      assert FifoQueued(r, f, k);
    }
  }

  lemma {:induction false} UpToLength(m: int)
    ensures |UpTo(m)| == if m <= 0 then 0 else m
  {
    if m > 0 {
      UpToLength(m - 1);
    }
  }

  /** Every node has queued an initial run of heights, each once and in order. */
  lemma ChannelInOrder(s: Cluster, p: NodeId, f: nat)
    requires Ordered(s, f) && p < |s.nodes|
    ensures s.nodes[p].ch == UpTo(|s.nodes[p].ch|)
  {
    if p != 0 {
      assert FifoPeer(s, p);
      UpToLength(Got(s, p) - 1);
    }
  }

  lemma StepInOrder(s: Cluster, step: Step, f: nat)
    requires Ordered(s, f) && Enabled(s, step) && Fifo(step) && f >= 1
    ensures Ordered(Next(s, step, f), f)
  {
    hide Ordered, Next;
    match step
    case Propose => ProposeInOrder(s, f);
    case Deliver(q, i) => DeliverInOrder(s, q, f);
    case Handle(q, i) => HandleInOrder(s, q, f);
    case _ => LocalInOrder(s, step, f);
  }

  lemma {:induction false} RunInOrder(n: nat, steps: seq<Step>, f: nat)
    requires n >= 1 && f >= 1 && Legal(Boot(n), steps, f) && forall i :: 0 <= i < |steps| ==> Fifo(steps[i])
    ensures Ordered(After(Boot(n), steps, f), f)
  {
    hide Ordered, Next;
    if steps == [] {
      BootOrdered(n, f);
    } else {
      RunInOrder(n, steps[..|steps| - 1], f);
      StepInOrder(After(Boot(n), steps[..|steps| - 1], f), steps[|steps| - 1], f);
    }
  }

  // ---- What follows for in-order runs ----

  /** A follower that handled m announcements has queued exactly heights 1 to m - 1, in order. */
  lemma FollowerProgress(n: nat, steps: seq<Step>, f: nat, q: NodeId)
    requires f >= 1 && 1 <= q < n && Legal(Boot(n), steps, f)
    requires forall i :: 0 <= i < |steps| ==> Fifo(steps[i])
    ensures var s := After(Boot(n), steps, f);
            Shape(s) && |s.nodes| == n && s.nodes[q].ch == UpTo(Got(s, q) - 1)
  {
    hide Legal, After, Boot, Blocks;
    RunIsSafe(n, steps, f);
    RunInOrder(n, steps, f);
    assert FifoPeer(After(Boot(n), steps, f), q);
  }

  /** The proposer has queued an initial run of heights, and k is among them exactly when at least f answers
      to announcement k + 1 were handled. */
  lemma LeaderProgress(n: nat, steps: seq<Step>, f: nat, k: int)
    requires n >= 1 && f >= 1 && Legal(Boot(n), steps, f)
    requires forall i :: 0 <= i < |steps| ==> Fifo(steps[i])
    ensures var s := After(Boot(n), steps, f);
            && Shape(s) && s.nodes[0].ch == UpTo(|s.nodes[0].ch|)
            && (k in s.nodes[0].ch <==> 1 <= k < |Blocks(s)| && k + 1 in s.nodes[0].log
                                        && |s.nodes[0].log[k + 1].prepareConfirms| >= f)
  {
    hide Legal, After, Boot;
    RunInOrder(n, steps, f);
    LeaderQueue(After(Boot(n), steps, f), f, k);
  }

  lemma LeaderQueue(s: Cluster, f: nat, k: int)
    requires Ordered(s, f) && f >= 1
    ensures s.nodes[0].ch == UpTo(|s.nodes[0].ch|)
    ensures k in s.nodes[0].ch <==> 1 <= k < |Blocks(s)| && k + 1 in s.nodes[0].log
                                    && |s.nodes[0].log[k + 1].prepareConfirms| >= f
  {
    hide Safe;
    QuorumIsSafe(s, f);
    var r, n := s.nodes[0], |Blocks(s)|;
    UpToElements(|r.ch|);
    assert k in r.ch <==> 1 <= k <= |r.ch| by {
      assert 1 <= k <= |r.ch| ==> r.ch[k - 1] == k;
    }
    if k in r.ch {
      QueuedIsCounted(s, f, k);
    }
    if 1 <= k <= n {
      assert FifoQueued(r, f, k) && CountOk(r.log, n, f, k);
    }
  }

  /** A step queues k at the proposer exactly when it handles the f-th answer to announcement k + 1. */
  lemma LeaderQueuesAtFthAnswer(s: Cluster, step: Step, f: nat, k: int)
    requires Shape(s) && Ordered(s, f) && Enabled(s, step) && Fifo(step) && f >= 1 && k >= 1
    ensures Shape(Next(s, step, f))
    ensures k in Next(s, step, f).nodes[0].ch && k !in s.nodes[0].ch
       <==> step.Handle? && s.replies[step.q][0].prepared == k + 1 && k + 1 in s.nodes[0].log
            && |s.nodes[0].log[k + 1].prepareConfirms| == f - 1
  {
    hide Ordered, Blocks, Confirmed;
    var s' := Next(s, step, f);
    StepInOrder(s, step, f);
    OrderedFacts(s, f);
    OrderedFacts(s', f);
    LeaderQueue(s, f, k);
    LeaderQueue(s', f, k);
    match step
    case Handle(q, i) =>
      OrderedReply(s, q, f);
      ConfirmedKeepsCounts(s.nodes[0], s.replies[q][0], q, Blocks(s), f);
      HandledLinks(s, q, f);
    case Deliver(q, i) =>
    case Propose =>
      if k <= s.nodes[0].index {
        ProposedVoters(s.nodes[0], k + 1);
      }
    case _ =>
      LocalLeavesLinks(s, step, f);
  }

  lemma OrderedFacts(s: Cluster, f: nat)
    requires Ordered(s, f)
    ensures Shape(s) && LeaderOk(s.nodes[0], Blocks(s)) && CountsOk(s.nodes[0], Blocks(s), f)
  {
  }

  lemma OrderedReply(s: Cluster, q: NodeId, f: nat)
    requires Ordered(s, f) && Enabled(s, Handle(q, 0))
    ensures ReplyOk(s.replies[q][0], q, Blocks(s))
  {
    assert PeerOk(s, q);
  }

  // ---- Durability ----

  /** A node keeps block k with the proposer's contents, prepared and with its commit notice handled. */
  ghost predicate Stores(s: Cluster, q: NodeId, k: int)
    requires Shape(s) && q < |s.nodes|
  {
    && 1 <= k <= |Blocks(s)| && k in s.nodes[q].log && s.nodes[q].log[k].reqs == Blocks(s)[k - 1]
    && s.nodes[q].log[k].prepared && s.nodes[q].log[k].committed
  }

  ghost function Storers(s: Cluster, k: int): set<NodeId>
    requires Shape(s)
  {
    set q: NodeId | 1 <= q < |s.nodes| && Stores(s, q, k)
  }

  /** When the proposer has queued k, at least f followers store block k and have handled its commit notice. */
  lemma QueuedIsStored(s: Cluster, f: nat, k: int)
    requires Ordered(s, f) && f >= 1 && k in s.nodes[0].ch
    ensures |Storers(s, k)| >= f
  {
    hide Safe, Blocks, CountsOk, FifoLeader, Stores;
    QuorumIsSafe(s, f);
    SafeLeader(s);
    QueuedHasQuorums(s, f, k);
    var voters := s.nodes[0].log[k + 1].prepareConfirms;
    forall q | q in voters
      ensures q in Storers(s, k)
    {
      VoterStores(s, f, q, k);
    }
    SizeOfElements(voters);
    SubsetSize((set q | q in voters), Storers(s, k));
  }

  lemma VoterStores(s: Cluster, f: nat, q: NodeId, k: int)
    requires Shape(s) && Ordered(s, f) && 1 <= q < |s.nodes| && 1 <= k < |Blocks(s)| && Answered(s, q, k + 1)
    ensures Stores(s, q, k)
  {
    hide Quorum, Blocks, Answered;
    assert FifoPeer(s, q);
    AnsweredInOrder(s, q, k + 1);
    assert FifoEntry(s.nodes[q].log, Got(s, q), Blocks(s), k);
  }

  /** Losing any f nodes, the proposer included, leaves a node that keeps a queued block with its contents. */
  lemma LosingFLeavesAHolder(s: Cluster, f: nat, k: int, lost: set<NodeId>)
    requires Ordered(s, f) && f >= 1 && k in s.nodes[0].ch && |lost| <= f
    ensures exists p: NodeId :: p < |s.nodes| && p !in lost && 1 <= k <= |Blocks(s)|
                                && k in s.nodes[p].log && s.nodes[p].log[k].reqs == Blocks(s)[k - 1]
  {
    QueuedIsStored(s, f, k);
    QueuedIsCounted(s, f, k);
    var holders := Storers(s, k) + {0};
    assert 0 !in Storers(s, k);
    assert |holders| == |Storers(s, k)| + 1;
    if holders <= lost {
      SubsetSize(holders, lost);
    }
    var p :| p in holders && p !in lost;
    assert p == 0 || Stores(s, p, k);
  }

  // ---- Keeping up ----

  /** The executor of p takes a height while one of its requests is missing there. */
  ghost predicate Misses(s: Cluster, step: Step, p: NodeId)
    requires Shape(s) && Enabled(s, step)
  {
    step.Execute? && step.p == p
    && var r := s.nodes[p];
       r.ch[r.taken] in r.log && !Present(r.log[r.ch[r.taken]].reqs, step.held)
  }

  ghost predicate NeverMisses(s: Cluster, steps: seq<Step>, f: nat, p: NodeId)
    requires Legal(s, steps, f)
    decreases |steps|
  {
    steps == [] || (NeverMisses(s, steps[..|steps| - 1], f, p)
                    && !Misses(After(s, steps[..|steps| - 1], f), steps[|steps| - 1], p))
  }

  lemma StepKeepsUp(s: Cluster, step: Step, f: nat, p: NodeId)
    requires Shape(s) && Ordered(s, f) && Enabled(s, step) && p < |s.nodes|
    ensures var r, r' := s.nodes[p], Next(s, step, f).nodes[p];
            r'.exec.cur == r'.taken + 1 <==> r.exec.cur == r.taken + 1 && !Misses(s, step, p)
  {
    hide Ordered, Confirmed, Followed, Receive, Decided, NodeOk;
    match step
    case Deliver(q, i) => FollowedLeavesExecutor(s.nodes[q], s.requests[q][i]);
    case Handle(q, i) => ConfirmedLeavesExecutor(s.nodes[0], s.replies[q][i], f);
    case Execute(x, held) =>
      if x == p {
        OrderedNode(s, f, p);
        ChannelInOrder(s, p, f);
        TookInOrder(s.nodes[p], Blocks(s), held);
        DecidedIsLogged(s.nodes[p].log, s.nodes[p].taken + 1);
      }
    case _ =>
  }

  lemma DecidedIsLogged(log: Log, h: int)
    requires Decided(log, h)
    ensures h in log
  {
  }

  lemma OrderedNode(s: Cluster, f: nat, p: NodeId)
    requires Ordered(s, f) && p < |s.nodes|
    ensures Shape(s) && NodeOk(s.nodes[p], Blocks(s)) && FifoExecutor(s.nodes[p])
  {
  }

  /** An in-order run keeps an executor level with its channel exactly when it never takes a height while one
      of its requests is missing: a single miss stops that node for good. */
  lemma {:induction false} KeepsUpIff(n: nat, steps: seq<Step>, f: nat, p: NodeId)
    requires f >= 1 && p < n && Legal(Boot(n), steps, f)
    requires forall i :: 0 <= i < |steps| ==> Fifo(steps[i])
    ensures var s := After(Boot(n), steps, f);
            && |s.nodes| == n
            && (s.nodes[p].exec.cur == s.nodes[p].taken + 1 <==> NeverMisses(Boot(n), steps, f, p))
  {
    hide Misses, Ordered, Next;
    RunIsSafe(n, steps, f);
    if steps != [] {
      var before := steps[..|steps| - 1];
      KeepsUpIff(n, before, f, p);
      RunInOrder(n, before, f);
      StepKeepsUp(After(Boot(n), before, f), steps[|steps| - 1], f, p);
    }
  }

  /** Nothing is in flight and every queued height was taken. */
  ghost predicate Quiet(s: Cluster)
    requires Shape(s)
  {
    && (forall q :: 0 <= q < |s.nodes| ==> s.requests[q] == [] && s.replies[q] == [])
    && forall p :: 0 <= p < |s.nodes| ==> s.nodes[p].taken == |s.nodes[p].ch|
  }

  /** When an in-order run comes to rest, every node has queued all blocks but the last. */
  lemma QuietQueues(s: Cluster, f: nat, p: NodeId)
    requires Ordered(s, f) && Quiet(s) && f >= 1 && |s.nodes| > f && p < |s.nodes|
    ensures s.nodes[p].ch == UpTo(|Blocks(s)| - 1)
  {
    hide Safe, Blocks;
    QuorumIsSafe(s, f);
    if p != 0 {
      assert FifoPeer(s, p);
    } else {
      var n, m := |Blocks(s)|, |s.nodes[0].ch|;
      LeaderQueue(s, f, n - 1);
      LeaderQueue(s, f, n);
      LeaderQueue(s, f, m);
      UpToElements(m);
      assert 1 <= m ==> s.nodes[0].ch[m - 1] == m;
      if n >= 2 {
        AllAnswered(s, f, n);
        assert n - 1 in s.nodes[0].ch;
        var i :| 0 <= i < m && s.nodes[0].ch[i] == n - 1;
      }
      assert m == if n >= 2 then n - 1 else 0;
    }
  }

  lemma AllAnswered(s: Cluster, f: nat, k: int)
    requires Ordered(s, f) && Quiet(s) && |s.nodes| > f && 1 <= k <= |Blocks(s)|
    ensures k in s.nodes[0].log && |s.nodes[0].log[k].prepareConfirms| >= f
  {
    hide Safe, Blocks;
    QuorumIsSafe(s, f);
    assert VotersOk(s, k);
    var voters := s.nodes[0].log[k].prepareConfirms;
    var peers := Peers(|s.nodes|);
    PeerCount(|s.nodes|);
    forall q | q in peers
      ensures q in voters
    {
      assert FifoPeer(s, q);
      AnsweredInOrder(s, q, k);
    }
    SizeOfElements(voters);
    SubsetSize(peers, (set q | q in voters));
  }

  /** Nodes 1 to n - 1. */
  ghost function Peers(n: nat): set<NodeId> {
    if n <= 1 then {} else Peers(n - 1) + {n - 1}
  }

  lemma {:induction false} PeerCount(n: nat)
    requires n >= 1
    ensures |Peers(n)| == n - 1 && forall q :: q in Peers(n) ==> 1 <= q < n
  {
    if n > 1 {
      PeerCount(n - 1);
    }
  }

  /** At rest, a node that never missed a request has executed exactly all blocks but the last. */
  lemma QuietProgress(n: nat, steps: seq<Step>, f: nat, p: NodeId)
    requires f >= 1 && n > f && p < n && Legal(Boot(n), steps, f)
    requires forall i :: 0 <= i < |steps| ==> Fifo(steps[i])
    requires Shape(After(Boot(n), steps, f)) && Quiet(After(Boot(n), steps, f)) && NeverMisses(Boot(n), steps, f, p)
    ensures var s := After(Boot(n), steps, f);
            && |s.nodes| == n
            && s.nodes[p].exec.done <= Chain(s)
            && |s.nodes[p].exec.done| == if |Blocks(s)| == 0 then 0 else |Blocks(s)| - 1
  {
    hide Legal, After, Boot, Ordered, Blocks, Quiet, NeverMisses;
    RunIsSafe(n, steps, f);
    RunInOrder(n, steps, f);
    var s := After(Boot(n), steps, f);
    KeepsUpIff(n, steps, f, p);
    SafeExecutions(s, p);
    QuietQueues(s, f, p);
    QuietTaken(s, p);
    UpToLength(|Blocks(s)| - 1);
    OrderedNode(s, f, p);
  }

  lemma QuietTaken(s: Cluster, p: NodeId)
    requires Shape(s) && Quiet(s) && p < |s.nodes|
    ensures s.nodes[p].taken == |s.nodes[p].ch|
  {
  }
}
