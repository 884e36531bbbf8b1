/** The proposer's confirmation counts, under any message order, for a fault number of at least one. */
module PipelineQuorum {
  import opened Types
  import opened ExecSpec
  import opened Pipeline
  import opened PipelineSafety

  ghost predicate Replying(link: seq<Reply>, k: int) {
    exists i :: 0 <= i < |link| && link[i].prepared == k
  }

  /** Follower q handled announcement k and the proposer handled its answer. */
  ghost predicate Answered(s: Cluster, q: NodeId, k: int)
    requires Shape(s) && q < |s.nodes|
  {
    Handled(s.requests[q], Blocks(s), k) && !Replying(s.replies[q], k)
  }

  ghost predicate DistinctReplies(link: seq<Reply>) {
    forall i, j :: 0 <= i < j < |link| ==> link[i].prepared != link[j].prepared
  }

  /** Answers in flight are about handled announcements, one each. */
  ghost predicate AnswersOk(requests: seq<Sending>, replies: seq<Reply>, blocks: Contents) {
    && DistinctReplies(replies)
    && forall k :: Replying(replies, k) ==> Handled(requests, blocks, k)
  }

  /** The confirmations of block k come from exactly the followers that answered it, once each. */
  ghost predicate VotersOk(s: Cluster, k: int)
    requires Shape(s) && k in s.nodes[0].log
  {
    && NoRepeats(s.nodes[0].log[k].prepareConfirms)
    && forall q: NodeId :: q in s.nodes[0].log[k].prepareConfirms <==> 1 <= q < |s.nodes| && Answered(s, q, k)
  }

  /** An answer to block k + 1 is the commit confirmation of block k, and the flags follow the counts. */
  ghost predicate CountOk(log: Log, n: nat, f: nat, k: int)
    requires k in log && (k < n ==> k + 1 in log)
  {
    && log[k].commitConfirms == (if k < n then log[k + 1].prepareConfirms else [])
    && (log[k].prepared <==> |log[k].prepareConfirms| >= f)
    && (log[k].committed <==> |log[k].commitConfirms| >= f)
  }

  ghost predicate CountsOk(r: Replica, blocks: Contents, f: nat) {
    && LeaderOk(r, blocks)
    && r.log[0].prepareConfirms == []
    && forall k :: 0 <= k <= |blocks| ==> CountOk(r.log, |blocks|, f, k)
  }

  ghost predicate Quorum(s: Cluster, f: nat) {
    && Safe(s)
    && CountsOk(s.nodes[0], Blocks(s), f)
    && (forall q :: 1 <= q < |s.nodes| ==> AnswersOk(s.requests[q], s.replies[q], Blocks(s)))
    && forall k :: 1 <= k <= |Blocks(s)| ==> VotersOk(s, k)
  }

  lemma BootQuorum(n: nat, f: nat)
    requires n >= 1 && f >= 1
    ensures Quorum(Boot(n), f)
  {
    BootIsSafe(n);
    assert Blocks(Boot(n)) == [];
  }

  // ---- Local preservation ----

  lemma ProposedKeepsCounts(r: Replica, blocks: Contents, f: nat)
    requires CountsOk(r, blocks, f) && f >= 1
    ensures CountsOk(Proposed(r), blocks + [r.pool], f)
  {
    var r', n := Proposed(r), |blocks| + 1;
    forall k | 0 <= k <= n
      ensures CountOk(r'.log, n, f, k)
    {
      assert k <= |blocks| ==> CountOk(r.log, |blocks|, f, k);
    }
  }

  lemma QueueKeepsCounts(r: Replica, c: int, blocks: Contents, f: nat)
    requires CountsOk(r, blocks, f) && c in r.log
    ensures CountsOk(Queue(r, c), blocks, f)
    ensures forall k :: k in r.log ==> k in Queue(r, c).log && Queue(r, c).log[k].prepareConfirms == r.log[k].prepareConfirms
  {
    var log' := Queue(r, c).log;
    forall k | 0 <= k <= |blocks|
      ensures CountOk(log', |blocks|, f, k)
    {
      assert CountOk(r.log, |blocks|, f, k);
    }
  }

  lemma CountedKeepsCounts(r: Replica, a: Reply, q: NodeId, blocks: Contents, f: nat)
    requires CountsOk(r, blocks, f) && ReplyOk(a, q, blocks)
    ensures CountsOk(Counted(r, a, f), blocks, f)
    ensures forall k :: k in r.log ==> k in Counted(r, a, f).log && Counted(r, a, f).log[k].prepareConfirms
                                       == r.log[k].prepareConfirms + (if k == a.prepared then [q] else [])
  {
    var log' := Counted(r, a, f).log;
    assert CountOk(r.log, |blocks|, f, a.prepared) && CountOk(r.log, |blocks|, f, a.committed);
    forall k | 0 <= k <= |blocks|
      ensures CountOk(log', |blocks|, f, k)
    {
      assert CountOk(r.log, |blocks|, f, k);
    }
  }

  lemma ConfirmedKeepsCounts(r: Replica, a: Reply, q: NodeId, blocks: Contents, f: nat)
    requires CountsOk(r, blocks, f) && ReplyOk(a, q, blocks)
    ensures CountsOk(Confirmed(r, a, f), blocks, f)
    ensures forall k :: k in r.log ==> k in Confirmed(r, a, f).log && Confirmed(r, a, f).log[k].prepareConfirms
                                       == r.log[k].prepareConfirms + (if k == a.prepared then [q] else [])
  {
    hide CountOk, Queue, Confirmed;
    ConfirmedIsCounted(r, a, f);
    CountedKeepsCounts(r, a, q, blocks, f);
    QueueKeepsCounts(Counted(r, a, f), a.committed, blocks, f);
  }

  lemma ReplyAdded(link: seq<Reply>, a: Reply, k: int)
    ensures Replying(link + [a], k) <==> Replying(link, k) || k == a.prepared
  {
    assert (link + [a])[|link|] == a;
    if Replying(link, k) {
      var j :| 0 <= j < |link| && link[j].prepared == k;
      assert (link + [a])[j].prepared == k;
    }
  }

  lemma ReplyTaken(link: seq<Reply>, i: nat, k: int)
    requires DistinctReplies(link) && i < |link|
    ensures Replying(Without(link, i), k) <==> Replying(link, k) && k != link[i].prepared
    ensures DistinctReplies(Without(link, i))
  {
    var rest := Without(link, i);
    assert forall j :: 0 <= j < |rest| ==> rest[j] == link[if j < i then j else j + 1];
    forall j | 0 <= j < |link| && j != i
      ensures Replying(rest, link[j].prepared)
    {
      assert rest[if j < i then j else j - 1] == link[j];
    }
  }

  /** Delivering an announcement turns it from waiting into replying, so nothing becomes answered. */
  lemma DeliveredIsReplying(link: seq<Sending>, replies: seq<Reply>, blocks: Contents, i: nat, a: Reply, k: int)
    requires LinkOk(link, blocks) && i < |link| && a.prepared == link[i].height
    requires AnswersOk(link, replies, blocks)
    ensures (Handled(Without(link, i), blocks, k) && !Replying(replies + [a], k))
       <==> (Handled(link, blocks, k) && !Replying(replies, k))
  {
    TakenLeavesOthers(link, blocks, i, k);
    ReplyAdded(replies, a, k);
    assert SendingOk(link[i], blocks) && Waiting(link, link[i].height);
  }

  lemma DeliveredKeepsAnswers(link: seq<Sending>, replies: seq<Reply>, blocks: Contents, i: nat, a: Reply)
    requires LinkOk(link, blocks) && i < |link| && a.prepared == link[i].height
    requires AnswersOk(link, replies, blocks)
    ensures AnswersOk(Without(link, i), replies + [a], blocks)
  {
    var rest, replies' := Without(link, i), replies + [a];
    assert SendingOk(link[i], blocks) && Waiting(link, link[i].height);
    forall k | Replying(replies', k)
      ensures Handled(rest, blocks, k)
    {
      ReplyAdded(replies, a, k);
      TakenLeavesOthers(link, blocks, i, k);
    }
    forall j | 0 <= j < |replies|
      ensures replies[j].prepared != a.prepared
    {
      assert Replying(replies, replies[j].prepared);
    }
  }

  // ---- Every step keeps the counts ----

  lemma ProposeKeepsQuorum(s: Cluster, f: nat)
    requires Quorum(s, f) && f >= 1
    ensures Quorum(Next(s, Propose, f), f)
  {
    hide Safe, CountsOk, Proposed;
    SafeHasShape(s);
    var s' := Next(s, Propose, f);
    var blocks, m := Blocks(s), Announcement(s.nodes[0]);
    ProposeKeepsSafe(s, f);
    ProposedKeepsCounts(s.nodes[0], blocks, f);
    forall q: NodeId, k | 1 <= q < |s.nodes|
      ensures AnswersOk(s'.requests[q], s'.replies[q], Blocks(s'))
      ensures Answered(s', q, k) <==> Answered(s, q, k)
    {
      AnnouncedAnswers(s.requests[q], s.replies[q], blocks, m, k);
      SafeLeader(s);
    }
    forall k | 1 <= k <= |Blocks(s')|
      ensures k in s'.nodes[0].log && VotersOk(s', k)
    {
      SafeLeader(s);
      SafeLeader(s');
      ProposedVoters(s.nodes[0], k);
      assert k <= |blocks| ==> VotersOk(s, k);
    }
  }

  lemma SafeLeader(s: Cluster)
    requires Safe(s)
    ensures Shape(s) && LeaderOk(s.nodes[0], Blocks(s))
  {
  }

  lemma ProposedVoters(r: Replica, k: int)
    requires k in r.log || k == r.index + 1
    ensures k in Proposed(r).log
    ensures Proposed(r).log[k].prepareConfirms == if k == r.index + 1 then [] else r.log[k].prepareConfirms
  {
  }

  lemma AnnouncedAnswers(link: seq<Sending>, replies: seq<Reply>, blocks: Contents, m: Sending, k: int)
    requires AnswersOk(link, replies, blocks) && m.height == |blocks| + 1
    ensures AnswersOk(link + [m], replies, blocks + [m.reqs])
    ensures Handled(link + [m], blocks + [m.reqs], k) <==> Handled(link, blocks, k)
  {
    forall x
      ensures Handled(link + [m], blocks + [m.reqs], x) <==> Handled(link, blocks, x)
    {
      AnnouncedIsWaiting(link, m, x);
    }
  }

  lemma DeliverKeepsQuorum(s: Cluster, q: NodeId, i: nat, f: nat)
    requires Quorum(s, f) && Enabled(s, Deliver(q, i))
    ensures Quorum(Next(s, Deliver(q, i), f), f)
  {
    hide Safe, CountsOk, Followed;
    SafeLeader(s);
    SafePeer(s, q);
    var s' := Next(s, Deliver(q, i), f);
    var blocks, a := Blocks(s), Answer(s.nodes[q], s.requests[q][i], q);
    DeliverKeepsSafe(s, q, i, f);
    DeliveredKeepsAnswers(s.requests[q], s.replies[q], blocks, i, a);
    forall p: NodeId, k | 1 <= p < |s.nodes|
      ensures Answered(s', p, k) <==> Answered(s, p, k)
    {
      if p == q {
        DeliveredIsReplying(s.requests[q], s.replies[q], blocks, i, a, k);
      }
    }
    forall k | 1 <= k <= |blocks|
      ensures k in s'.nodes[0].log && VotersOk(s', k)
    {
      assert VotersOk(s, k);
    }
  }

  lemma SafePeer(s: Cluster, q: NodeId)
    requires Safe(s) && 1 <= q < |s.nodes|
    ensures Shape(s) && PeerOk(s, q)
  {
  }

  lemma HandleAnswers(s: Cluster, q: NodeId, i: nat, f: nat)
    requires Quorum(s, f) && Enabled(s, Handle(q, i))
    ensures var s', k0 := Next(s, Handle(q, i), f), s.replies[q][i].prepared;
            && Safe(s') && Blocks(s') == Blocks(s) && ReplyOk(s.replies[q][i], q, Blocks(s)) && !Answered(s, q, k0)
            && (forall p: NodeId, k :: 1 <= p < |s.nodes| ==> (Answered(s', p, k) <==> Answered(s, p, k) || (p == q && k == k0)))
            && (forall p :: 1 <= p < |s.nodes| ==> AnswersOk(s'.requests[p], s'.replies[p], Blocks(s)))
  {
    hide Safe, CountsOk, Confirmed, LinkOk, FollowerOk, AnswersOk;
    SafePeer(s, q);
    var s' := Next(s, Handle(q, i), f);
    var blocks, a := Blocks(s), s.replies[q][i];
    HandleKeepsSafe(s, q, i, f);
    SafeHasShape(s');
    assert Replying(s.replies[q], a.prepared);
    forall p: NodeId, k | 1 <= p < |s.nodes|
      ensures Answered(s', p, k) <==> Answered(s, p, k) || (p == q && k == a.prepared)
      ensures AnswersOk(s'.requests[p], s'.replies[p], blocks)
    {
      if p == q {
        TakenAnswers(s.requests[q], s.replies[q], blocks, i, k);
        AnswerHandled(s.requests[q], s.replies[q], blocks, a.prepared);
      }
    }
  }

  lemma AnswerHandled(requests: seq<Sending>, replies: seq<Reply>, blocks: Contents, k: int)
    requires AnswersOk(requests, replies, blocks) && Replying(replies, k)
    ensures Handled(requests, blocks, k)
  {
  }

  lemma HandleKeepsQuorum(s: Cluster, q: NodeId, i: nat, f: nat)
    requires Quorum(s, f) && Enabled(s, Handle(q, i))
    ensures Quorum(Next(s, Handle(q, i), f), f)
  {
    hide Safe, CountsOk, Confirmed, AnswersOk, Answered;
    SafeLeader(s);
    var s' := Next(s, Handle(q, i), f);
    var blocks, a := Blocks(s), s.replies[q][i];
    HandleAnswers(s, q, i, f);
    SafeLeader(s');
    ConfirmedKeepsCounts(s.nodes[0], a, q, blocks, f);
    forall k | 1 <= k <= |blocks|
      ensures k in s'.nodes[0].log && VotersOk(s', k)
    {
      assert VotersOk(s, k);
    }
  }

  lemma TakenAnswers(link: seq<Sending>, replies: seq<Reply>, blocks: Contents, i: nat, k: int)
    requires AnswersOk(link, replies, blocks) && i < |replies|
    ensures AnswersOk(link, Without(replies, i), blocks)
    ensures Replying(Without(replies, i), k) <==> Replying(replies, k) && k != replies[i].prepared
  {
    forall x
      ensures Replying(Without(replies, i), x) <==> Replying(replies, x) && x != replies[i].prepared
      ensures DistinctReplies(Without(replies, i))
    {
      ReplyTaken(replies, i, x);
    }
  }

  lemma LocalLeavesLinks(s: Cluster, step: Step, f: nat)
    requires Shape(s) && Enabled(s, step) && (step.Certify? || step.Execute?)
    ensures var s' := Next(s, step, f);
            && Shape(s') && s'.requests == s.requests && s'.replies == s.replies && |s'.nodes| == |s.nodes|
            && s'.nodes[0].log == s.nodes[0].log && s'.nodes[0].index == s.nodes[0].index
            && Blocks(s') == Blocks(s)
  {
    hide Receive;
  }

  lemma LocalKeepsQuorum(s: Cluster, step: Step, f: nat)
    requires Quorum(s, f) && Enabled(s, step) && (step.Certify? || step.Execute?)
    ensures Quorum(Next(s, step, f), f)
  {
    hide Safe, Next, Blocks, CountOk, Handled, Replying;
    SafeLeader(s);
    var s' := Next(s, step, f);
    LocalKeepsSafe(s, step, f);
    LocalLeavesLinks(s, step, f);
    forall k | 1 <= k <= |Blocks(s)|
      ensures VotersOk(s', k)
    {
      assert VotersOk(s, k);
      assert forall q: NodeId :: 1 <= q < |s.nodes| ==> (Answered(s', q, k) <==> Answered(s, q, k));
    }
  }

  lemma StepKeepsQuorum(s: Cluster, step: Step, f: nat)
    requires Quorum(s, f) && Enabled(s, step) && f >= 1
    ensures Quorum(Next(s, step, f), f)
  {
    hide Quorum, Next;
    match step
    case Propose => ProposeKeepsQuorum(s, f);
    case Deliver(q, i) => DeliverKeepsQuorum(s, q, i, f);
    case Handle(q, i) => HandleKeepsQuorum(s, q, i, f);
    case _ => LocalKeepsQuorum(s, step, f);
  }

  lemma {:induction false} RunKeepsQuorum(n: nat, steps: seq<Step>, f: nat)
    requires n >= 1 && f >= 1 && Legal(Boot(n), steps, f)
    ensures Quorum(After(Boot(n), steps, f), f)
  {
    hide Quorum, Next;
    if steps == [] {
      BootQuorum(n, f);
    } else {
      RunKeepsQuorum(n, steps[..|steps| - 1], f);
      StepKeepsQuorum(After(Boot(n), steps[..|steps| - 1], f), steps[|steps| - 1], f);
    }
  }

  // ---- What a queued height stands on ----

  /** Whatever the order, a height the proposer queued has at least f distinct followers that handled its
      announcement and at least f that handled its commit notice; the proposer has heard from all of them. */
  lemma QueuedHasQuorums(s: Cluster, f: nat, k: int)
    requires Quorum(s, f) && f >= 1 && k in s.nodes[0].ch
    ensures 1 <= k < |Blocks(s)|
    ensures QuorumAnswered(s, f, k) && QuorumAnswered(s, f, k + 1)
  {
    hide Safe, Answered, Blocks;
    SafeLeader(s);
    var r, blocks := s.nodes[0], Blocks(s);
    QueuedIsCounted(s, f, k);
    assert CountOk(r.log, |blocks|, f, k);
    assert VotersOk(s, k) && VotersOk(s, k + 1);
  }

  lemma QueuedIsCounted(s: Cluster, f: nat, k: int)
    requires Quorum(s, f) && f >= 1 && k in s.nodes[0].ch
    ensures 1 <= k < |Blocks(s)| && Decided(s.nodes[0].log, k)
  {
    var r := s.nodes[0];
    assert NodeOk(r, Blocks(s));
    assert QueuedOk(r.log, Blocks(s), k);
    assert CountOk(r.log, |Blocks(s)|, f, k);
  }

  /** At least f distinct followers handled announcement k and were heard by the proposer. */
  ghost predicate QuorumAnswered(s: Cluster, f: nat, k: int)
    requires Shape(s) && k in s.nodes[0].log
  {
    var voters := s.nodes[0].log[k].prepareConfirms;
    && |voters| >= f && NoRepeats(voters)
    && forall q :: q in voters ==> 1 <= q < |s.nodes| && Answered(s, q, k)
  }
}
