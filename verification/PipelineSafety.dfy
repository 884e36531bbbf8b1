/** What every run of the pipeline keeps, under any message order. */
module PipelineSafety {
  import opened Types
  import opened ExecSpec
  import opened Pipeline

  type Contents = seq<seq<Unit>>

  // ---- The invariant, node by node ----

  /** The proposer's log holds exactly heights 0 to `index`, with the blocks' contents. */
  ghost predicate LeaderOk(r: Replica, blocks: Contents) {
    && r.index == |blocks|
    && (forall k :: k in r.log <==> 0 <= k <= |blocks|)
    && forall k :: 1 <= k <= |blocks| ==> r.log[k].reqs == blocks[k - 1]
  }

  /** What was queued for execution is decided, and its contents are the proposer's. */
  ghost predicate ChannelOk(log: Log, ch: seq<int>, blocks: Contents) {
    && NoRepeats(ch)
    && (forall c :: c in log ==> c >= 0)
    && (forall c :: c in ch ==> c in log && log[c].executed)
    && forall c :: c in log && log[c].executed ==> QueuedOk(log, blocks, c)
  }

  ghost predicate QueuedOk(log: Log, blocks: Contents, c: int)
    requires c in log
  {
    Decided(log, c) && AgreedOn(log, blocks, c)
  }

  ghost predicate AgreedOn(log: Log, blocks: Contents, c: int)
    requires c in log
  {
    c >= 1 ==> c < |blocks| && log[c].reqs == blocks[c - 1]
  }

  /** The executor never aborted, and what it executed are the proposer's first blocks. */
  ghost predicate ExecutorOk(e: Exec, ch: seq<int>, blocks: Contents) {
    && InOrder(e) && !e.aborted
    && (forall h :: h in e.ahead ==> h in ch)
    && forall k :: 1 <= k < e.cur ==> ExecutedOk(e, ch, blocks, k)
  }

  ghost predicate ExecutedOk(e: Exec, ch: seq<int>, blocks: Contents, k: int)
    requires InOrder(e) && 1 <= k < e.cur
  {
    k in ch && k < |blocks| && e.done[k - 1].reqs == blocks[k - 1]
  }

  ghost predicate Waiting(link: seq<Sending>, k: int) {
    exists i :: 0 <= i < |link| && link[i].height == k
  }

  /** Block k was announced and its announcement is no longer in flight. */
  ghost predicate Handled(link: seq<Sending>, blocks: Contents, k: int) {
    1 <= k <= |blocks| && !Waiting(link, k)
  }

  ghost predicate LinkOk(link: seq<Sending>, blocks: Contents) {
    && (forall i :: 0 <= i < |link| ==> SendingOk(link[i], blocks))
    && forall i, j :: 0 <= i < j < |link| ==> link[i].height != link[j].height
  }

  ghost predicate SendingOk(m: Sending, blocks: Contents) {
    1 <= m.height <= |blocks| && m.commit == m.height - 1 && m.reqs == blocks[m.height - 1]
  }

  ghost predicate ReplyOk(a: Reply, q: NodeId, blocks: Contents) {
    1 <= a.prepared <= |blocks| && a.committed == a.prepared - 1 && a.from == q
  }

  ghost predicate RepliesOk(link: seq<Reply>, q: NodeId, blocks: Contents) {
    forall i :: 0 <= i < |link| ==> ReplyOk(link[i], q, blocks)
  }

  /** A follower's entry for height k, given whether announcements k and k + 1 were handled. Contents are
      promised only while k is prepared and its commit notice is still to come. */
  ghost predicate EntryOk(log: Log, link: seq<Sending>, blocks: Contents, k: int) {
    && (k in log <==> k == 0 || Handled(link, blocks, k) || Handled(link, blocks, k + 1))
    && (k in log ==> (log[k].prepared <==> Handled(link, blocks, k)))
    && (k in log && Handled(link, blocks, k) && !Handled(link, blocks, k + 1)
        ==> log[k].reqs == blocks[k - 1] && !log[k].executed)
  }

  ghost predicate FollowerOk(r: Replica, link: seq<Sending>, blocks: Contents) {
    forall k :: EntryOk(r.log, link, blocks, k)
  }

  ghost predicate NodeOk(r: Replica, blocks: Contents) {
    r.taken <= |r.ch| && ChannelOk(r.log, r.ch, blocks) && ExecutorOk(r.exec, r.ch, blocks)
  }

  ghost predicate PeerOk(s: Cluster, q: NodeId)
    requires Shape(s) && q < |s.nodes|
  {
    && FollowerOk(s.nodes[q], s.requests[q], Blocks(s))
    && LinkOk(s.requests[q], Blocks(s))
    && RepliesOk(s.replies[q], q, Blocks(s))
  }

  ghost predicate Safe(s: Cluster) {
    && Shape(s)
    && LeaderOk(s.nodes[0], Blocks(s))
    && (forall p :: 0 <= p < |s.nodes| ==> NodeOk(s.nodes[p], Blocks(s)))
    && forall q :: 1 <= q < |s.nodes| ==> PeerOk(s, q)
  }

  lemma SafeHasShape(s: Cluster)
    requires Safe(s)
    ensures Shape(s)
  {
  }

  lemma BootIsSafe(n: nat)
    requires n >= 1
    ensures Safe(Boot(n))
  {
    var s := Boot(n);
    assert Blocks(s) == [];
    forall q | 1 <= q < n
      ensures PeerOk(s, q)
    {
    }
  }

  // ---- Local preservation ----

  lemma QueueKeepsChannel(r: Replica, blocks: Contents, c: int)
    requires ChannelOk(r.log, r.ch, blocks) && c in r.log
    requires Decided(r.log, c) && !r.log[c].executed ==> AgreedOn(r.log, blocks, c)
    ensures ChannelOk(Queue(r, c).log, Queue(r, c).ch, blocks)
    ensures r.ch <= Queue(r, c).ch
  {
    var r' := Queue(r, c);
    if Decided(r.log, c) && !r.log[c].executed {
      assert c !in r.ch;
      forall k | k in r'.log && r'.log[k].executed
        ensures QueuedOk(r'.log, blocks, k)
      {
        assert k != c ==> QueuedOk(r.log, blocks, k);
      }
    }
  }

  /** Writing an entry that is not queued yet disturbs nothing that was queued. */
  lemma WriteKeepsChannel(log: Log, ch: seq<int>, blocks: Contents, c: int, e: Entry)
    requires ChannelOk(log, ch, blocks) && c >= 0
    requires c in log ==> log[c].executed == e.executed && log[c].reqs == e.reqs
                          && (log[c].prepared ==> e.prepared) && (log[c].committed ==> e.committed)
    requires c !in log ==> !e.executed
    ensures ChannelOk(log[c := e], ch, blocks)
  {
    var log' := log[c := e];
    forall k | k in log' && log'[k].executed
      ensures QueuedOk(log', blocks, k)
    {
      assert k in log && log[k].executed;
      assert QueuedOk(log, blocks, k);
    }
  }

  lemma ExecutorSeesMore(e: Exec, ch: seq<int>, ch': seq<int>, blocks: Contents)
    requires ExecutorOk(e, ch, blocks) && ch <= ch'
    ensures ExecutorOk(e, ch', blocks)
  {
    forall k | 1 <= k < e.cur
      ensures ExecutedOk(e, ch', blocks, k)
    {
      assert ExecutedOk(e, ch, blocks, k);
    }
  }

  lemma ChainGrows(r: Replica, blocks: Contents, block: seq<Unit>)
    requires NodeOk(r, blocks)
    ensures NodeOk(r, blocks + [block])
  {
    var blocks' := blocks + [block];
    forall c | c in r.log && r.log[c].executed
      ensures QueuedOk(r.log, blocks', c)
    {
      assert QueuedOk(r.log, blocks, c);
    }
    forall k | 1 <= k < r.exec.cur
      ensures ExecutedOk(r.exec, r.ch, blocks', k)
    {
      assert ExecutedOk(r.exec, r.ch, blocks, k);
    }
  }

  lemma FollowedKeepsNode(r: Replica, link: seq<Sending>, blocks: Contents, i: nat)
    requires NodeOk(r, blocks) && FollowerOk(r, link, blocks) && LinkOk(link, blocks) && i < |link|
    ensures NodeOk(Followed(r, link[i]), blocks)
  {
    var m := link[i];
    assert SendingOk(m, blocks);
    var stored := Stored(r, m);
    WriteKeepsChannel(r.log, r.ch, blocks, m.height, stored.log[m.height]);
    assert Waiting(link, m.height);
    assert EntryOk(r.log, link, blocks, m.commit);
    if m.commit in stored.log {
      var marked := stored.(log := stored.log[m.commit := stored.log[m.commit].(committed := true)]);
      WriteKeepsChannel(stored.log, r.ch, blocks, m.commit, marked.log[m.commit]);
      QueueKeepsChannel(marked, blocks, m.commit);
    } else {
      WriteKeepsChannel(stored.log, r.ch, blocks, m.commit, EMPTY_ENTRY.(committed := true));
    }
    ExecutorSeesMore(r.exec, r.ch, Followed(r, m).ch, blocks);
  }

  lemma TakenLeavesOthers(link: seq<Sending>, blocks: Contents, i: nat, k: int)
    requires LinkOk(link, blocks) && i < |link|
    ensures Waiting(Without(link, i), k) <==> Waiting(link, k) && k != link[i].height
  {
    var rest := Without(link, i);
    forall j | 0 <= j < |link| && j != i
      ensures Waiting(rest, link[j].height)
    {
      assert rest[if j < i then j else j - 1] == link[j];
    }
    if Waiting(rest, k) {
      var j :| 0 <= j < |rest| && rest[j].height == k;
      assert rest[j] == link[if j < i then j else j + 1];
    }
  }

  lemma FollowedKeepsEntries(r: Replica, link: seq<Sending>, blocks: Contents, i: nat)
    requires FollowerOk(r, link, blocks) && LinkOk(link, blocks) && i < |link|
    ensures FollowerOk(Followed(r, link[i]), Without(link, i), blocks)
  {
    var m, rest, r' := link[i], Without(link, i), Followed(r, link[i]);
    assert SendingOk(m, blocks) && Waiting(link, m.height);
    forall k
      ensures EntryOk(r'.log, rest, blocks, k)
    {
      TakenLeavesOthers(link, blocks, i, k);
      TakenLeavesOthers(link, blocks, i, k + 1);
      assert EntryOk(r.log, link, blocks, k);
    }
  }

  lemma LinkShrinks(link: seq<Sending>, blocks: Contents, i: nat)
    requires LinkOk(link, blocks) && i < |link|
    ensures LinkOk(Without(link, i), blocks)
  {
    var rest := Without(link, i);
    assert forall j :: 0 <= j < |rest| ==> rest[j] == link[if j < i then j else j + 1];
  }

  lemma AnnouncedKeepsPeer(r: Replica, link: seq<Sending>, replies: seq<Reply>, q: NodeId, blocks: Contents, m: Sending)
    requires FollowerOk(r, link, blocks) && LinkOk(link, blocks) && RepliesOk(replies, q, blocks)
    requires m.height == |blocks| + 1 && m.commit == |blocks|
    ensures FollowerOk(r, link + [m], blocks + [m.reqs])
    ensures LinkOk(link + [m], blocks + [m.reqs])
    ensures RepliesOk(replies, q, blocks + [m.reqs])
  {
    var link', blocks' := link + [m], blocks + [m.reqs];
    forall i | 0 <= i < |link'|
      ensures SendingOk(link'[i], blocks')
    {
      assert i < |link| ==> SendingOk(link[i], blocks);
    }
    forall k
      ensures EntryOk(r.log, link', blocks', k)
    {
      AnnouncedIsWaiting(link, m, k);
      AnnouncedIsWaiting(link, m, k + 1);
      assert EntryOk(r.log, link, blocks, k);
    }
    forall i | 0 <= i < |replies|
      ensures ReplyOk(replies[i], q, blocks')
    {
      assert ReplyOk(replies[i], q, blocks);
    }
  }

  lemma AnnouncedIsWaiting(link: seq<Sending>, m: Sending, k: int)
    ensures Waiting(link + [m], k) <==> Waiting(link, k) || k == m.height
  {
    assert (link + [m])[|link|] == m;
    if Waiting(link, k) {
      var j :| 0 <= j < |link| && link[j].height == k;
      assert (link + [m])[j].height == k;
    }
  }

  /** The log of the proposer after the confirmations of one answer were counted, before queueing. */
  function Counted(r: Replica, a: Reply, f: nat): Replica
    requires a.prepared in r.log && a.committed in r.log
  {
    var e := r.log[a.prepared];
    var log1 := r.log[a.prepared := Checked(e.(prepareConfirms := e.prepareConfirms + [a.from]), f)];
    var c := r.log[a.committed];
    r.(log := log1[a.committed := Checked(c.(commitConfirms := c.commitConfirms + [a.from]), f)])
  }

  lemma ConfirmedIsCounted(r: Replica, a: Reply, f: nat)
    requires a.prepared in r.log && a.committed in r.log && a.prepared != a.committed
    ensures Confirmed(r, a, f) == Queue(Counted(r, a, f), a.committed).(pool := r.pool + a.gathered)
  {
    var log1 := r.log[a.prepared := r.log[a.prepared].(prepareConfirms := r.log[a.prepared].prepareConfirms + [a.from])];
    var log2 := log1[a.committed := log1[a.committed].(commitConfirms := log1[a.committed].commitConfirms + [a.from])];
    var log3 := log2[a.prepared := Checked(log2[a.prepared], f)];
    var log4 := log3[a.committed := Checked(log3[a.committed], f)];
    assert log4 == Counted(r, a, f).log;
  }

  lemma ConfirmedKeepsLeader(r: Replica, a: Reply, q: NodeId, blocks: Contents, f: nat)
    requires LeaderOk(r, blocks) && NodeOk(r, blocks) && ReplyOk(a, q, blocks)
    ensures LeaderOk(Confirmed(r, a, f), blocks) && NodeOk(Confirmed(r, a, f), blocks)
    ensures r.ch <= Confirmed(r, a, f).ch
  {
    ConfirmedIsCounted(r, a, f);
    CountedKeepsLog(r, a, q, blocks, f);
    var counted := Counted(r, a, f);
    QueueKeepsChannel(counted, blocks, a.committed);
    ExecutorSeesMore(r.exec, r.ch, Confirmed(r, a, f).ch, blocks);
  }

  lemma CountedKeepsLog(r: Replica, a: Reply, q: NodeId, blocks: Contents, f: nat)
    requires LeaderOk(r, blocks) && ChannelOk(r.log, r.ch, blocks) && ReplyOk(a, q, blocks)
    ensures LeaderOk(Counted(r, a, f), blocks) && ChannelOk(Counted(r, a, f).log, r.ch, blocks)
    ensures AgreedOn(Counted(r, a, f).log, blocks, a.committed)
  {
    var log' := Counted(r, a, f).log;
    var log1 := r.log[a.prepared := log'[a.prepared]];
    WriteKeepsChannel(r.log, r.ch, blocks, a.prepared, log'[a.prepared]);
    WriteKeepsChannel(log1, r.ch, blocks, a.committed, log'[a.committed]);
    assert log' == log1[a.committed := log'[a.committed]];
  }

  lemma TookKeepsNode(r: Replica, blocks: Contents, held: Requests)
    requires NodeOk(r, blocks) && r.taken < |r.ch|
    ensures NodeOk(Took(r, held), blocks)
  {
    var e, h := r.exec, r.ch[r.taken];
    assert h in r.ch;
    if h >= e.cur {
      var fed := e.(ahead := e.ahead + {h});
      forall x | x in fed.ahead
        ensures Decided(r.log, x)
      {
        assert x in r.ch;
        assert QueuedOk(r.log, blocks, x);
      }
      DrainDoesNotAbort(fed, r.log, held);
      DrainExtends(fed, r.log, held);
      var e' := Drain(fed, r.log, held);
      forall k | 1 <= k < e'.cur
        ensures ExecutedOk(e', r.ch, blocks, k)
      {
        if k < e.cur {
          assert ExecutedOk(e, r.ch, blocks, k);
          assert e'.done[k - 1] == e.done[k - 1];
        } else {
          assert RanFrom(fed, e', r.log, k) && QueuedOk(r.log, blocks, k);
        }
      }
    }
  }

  lemma FollowedLeavesExecutor(r: Replica, m: Sending)
    ensures Followed(r, m).exec == r.exec && Followed(r, m).taken == r.taken && r.ch <= Followed(r, m).ch
  {
  }

  lemma ConfirmedLeavesExecutor(r: Replica, a: Reply, f: nat)
    ensures Confirmed(r, a, f).exec == r.exec && Confirmed(r, a, f).taken == r.taken && r.ch <= Confirmed(r, a, f).ch
  {
  }

  // ---- Every step keeps the invariant ----

  lemma ProposedKeepsLeader(r: Replica, blocks: Contents)
    requires LeaderOk(r, blocks) && NodeOk(r, blocks)
    ensures LeaderOk(Proposed(r), blocks + [r.pool]) && NodeOk(Proposed(r), blocks + [r.pool])
  {
    WriteKeepsChannel(r.log, r.ch, blocks, |blocks| + 1, EMPTY_ENTRY.(reqs := r.pool));
    ChainGrows(Proposed(r), blocks, r.pool);
  }

  lemma ProposeKeepsSafe(s: Cluster, f: nat)
    requires Safe(s)
    ensures Safe(Next(s, Propose, f))
    ensures Blocks(Next(s, Propose, f)) == Blocks(s) + [s.nodes[0].pool]
  {
    hide ChannelOk, ExecutorOk, FollowerOk, LinkOk, RepliesOk;
    var s' := Next(s, Propose, f);
    var blocks, m := Blocks(s), Announcement(s.nodes[0]);
    assert NodeOk(s.nodes[0], blocks);
    ProposedKeepsLeader(s.nodes[0], blocks);
    assert Blocks(s') == blocks + [m.reqs];
    forall p | 0 <= p < |s'.nodes|
      ensures NodeOk(s'.nodes[p], Blocks(s'))
    {
      if p != 0 {
        ChainGrows(s.nodes[p], blocks, m.reqs);
      }
    }
    forall q | 1 <= q < |s'.nodes|
      ensures PeerOk(s', q)
    {
      assert PeerOk(s, q);
      AnnouncedKeepsPeer(s.nodes[q], s.requests[q], s.replies[q], q, blocks, m);
    }
  }

  lemma DeliverKeepsSafe(s: Cluster, q: NodeId, i: nat, f: nat)
    requires Safe(s) && Enabled(s, Deliver(q, i))
    ensures Safe(Next(s, Deliver(q, i), f)) && Blocks(Next(s, Deliver(q, i), f)) == Blocks(s)
  {
    var s' := Next(s, Deliver(q, i), f);
    var blocks, link := Blocks(s), s.requests[q];
    assert Blocks(s') == blocks;
    assert PeerOk(s, q) && NodeOk(s.nodes[q], blocks);
    FollowedKeepsNode(s.nodes[q], link, blocks, i);
    FollowedKeepsEntries(s.nodes[q], link, blocks, i);
    LinkShrinks(link, blocks, i);
    assert SendingOk(link[i], blocks);
    forall p | 1 <= p < |s'.nodes|
      ensures PeerOk(s', p)
    {
      assert PeerOk(s, p);
    }
  }

  lemma HandleKeepsSafe(s: Cluster, q: NodeId, i: nat, f: nat)
    requires Safe(s) && Enabled(s, Handle(q, i))
    ensures Safe(Next(s, Handle(q, i), f)) && Blocks(Next(s, Handle(q, i), f)) == Blocks(s)
  {
    hide Confirmed, ChannelOk, ExecutorOk, FollowerOk, LinkOk;
    var s' := Next(s, Handle(q, i), f);
    var blocks := Blocks(s);
    assert PeerOk(s, q);
    assert ReplyOk(s.replies[q][i], q, blocks);
    ConfirmedKeepsLeader(s.nodes[0], s.replies[q][i], q, blocks, f);
    assert Blocks(s') == blocks;
    forall p | 1 <= p < |s'.nodes|
      ensures PeerOk(s', p)
    {
      assert PeerOk(s, p);
      var rest := s'.replies[p];
      assert p == q ==> forall j :: 0 <= j < |rest| ==> rest[j] == s.replies[q][if j < i then j else j + 1];
    }
  }

  lemma LocalKeepsSafe(s: Cluster, step: Step, f: nat)
    requires Safe(s) && Enabled(s, step) && (step.Certify? || step.Execute?)
    ensures Safe(Next(s, step, f)) && Blocks(Next(s, step, f)) == Blocks(s)
  {
    var s' := Next(s, step, f);
    assert NodeOk(s.nodes[step.p], Blocks(s));
    if step.Execute? {
      TookKeepsNode(s.nodes[step.p], Blocks(s), step.held);
    }
    assert Blocks(s') == Blocks(s);
    forall p | 1 <= p < |s'.nodes|
      ensures PeerOk(s', p)
    {
      assert PeerOk(s, p);
    }
  }

  lemma StepKeepsSafe(s: Cluster, step: Step, f: nat)
    requires Safe(s) && Enabled(s, step)
    ensures Safe(Next(s, step, f)) && Blocks(s) <= Blocks(Next(s, step, f))
  {
    match step
    case Propose => ProposeKeepsSafe(s, f);
    case Deliver(q, i) => DeliverKeepsSafe(s, q, i, f);
    case Handle(q, i) => HandleKeepsSafe(s, q, i, f);
    case _ => LocalKeepsSafe(s, step, f);
  }

  lemma {:induction false} RunIsSafe(n: nat, steps: seq<Step>, f: nat)
    requires n >= 1 && Legal(Boot(n), steps, f)
    ensures Safe(After(Boot(n), steps, f)) && |After(Boot(n), steps, f).nodes| == n
  {
    if steps == [] {
      BootIsSafe(n);
    } else {
      RunIsSafe(n, steps[..|steps| - 1], f);
      StepKeepsSafe(After(Boot(n), steps[..|steps| - 1], f), steps[|steps| - 1], f);
    }
  }

  // ---- What follows for every run ----

  /** The proposer's blocks as executed blocks. */
  ghost function Chain(s: Cluster): seq<Block>
    requires Shape(s)
  {
    seq(|Blocks(s)|, k requires 0 <= k < |Blocks(s)| => Block(k + 1, Blocks(s)[k]))
  }

  lemma SafeExecutions(s: Cluster, p: NodeId)
    requires Safe(s) && p < |s.nodes|
    ensures s.nodes[p].exec.done <= Chain(s) && !s.nodes[p].exec.aborted
    ensures |s.nodes[p].exec.done| > 0 ==> |s.nodes[p].exec.done| < s.nodes[0].index
  {
    var r := s.nodes[p];
    assert NodeOk(r, Blocks(s));
    forall i | 0 <= i < |r.exec.done|
      ensures i + 1 < |Blocks(s)| && r.exec.done[i] == Chain(s)[i]
    {
      assert ExecutedOk(r.exec, r.ch, Blocks(s), i + 1);
    }
    if r.exec.done != [] {
      assert ExecutedOk(r.exec, r.ch, Blocks(s), |r.exec.done|);
    }
  }

  /** Under any message order, what a node has executed is a prefix of the proposer's blocks, every executed
      height is below the proposer's current one, and no executor has aborted. */
  lemma ExecutedIsPrefix(n: nat, steps: seq<Step>, f: nat, p: NodeId)
    requires n >= 1 && Legal(Boot(n), steps, f) && p < n
    ensures var s := After(Boot(n), steps, f);
            && Shape(s) && |s.nodes| == n
            && s.nodes[p].exec.done <= Chain(s) && !s.nodes[p].exec.aborted
            && (|s.nodes[p].exec.done| > 0 ==> |s.nodes[p].exec.done| < s.nodes[0].index)
  {
    hide Legal, After, Boot;
    RunIsSafe(n, steps, f);
    SafeExecutions(After(Boot(n), steps, f), p);
  }

  /** The executions of any two nodes are prefixes of one another. */
  lemma PrefixAgreement(n: nat, steps: seq<Step>, f: nat, p: NodeId, q: NodeId)
    requires n >= 1 && Legal(Boot(n), steps, f) && p < n && q < n
    ensures var s := After(Boot(n), steps, f);
            && |s.nodes| == n
            && (s.nodes[p].exec.done <= s.nodes[q].exec.done || s.nodes[q].exec.done <= s.nodes[p].exec.done)
  {
    hide Legal, After, Boot;
    ExecutedIsPrefix(n, steps, f, p);
    ExecutedIsPrefix(n, steps, f, q);
  }

  /** Every height an executor has received - waiting or still in the channel - has a prepared and committed
      entry on that node, and no height is queued twice. */
  lemma QueuedIsDecided(n: nat, steps: seq<Step>, f: nat, p: NodeId)
    requires n >= 1 && Legal(Boot(n), steps, f) && p < n
    ensures var s := After(Boot(n), steps, f);
            && |s.nodes| == n
            && (forall h :: h in s.nodes[p].ch ==> Decided(s.nodes[p].log, h))
            && (forall h :: h in s.nodes[p].exec.ahead ==> Decided(s.nodes[p].log, h))
            && NoRepeats(s.nodes[p].ch)
  {
    hide Legal, After, Boot;
    RunIsSafe(n, steps, f);
    var s := After(Boot(n), steps, f);
    assert NodeOk(s.nodes[p], Blocks(s));
  }
}
