/** Tree mode of the request broadcast, as the servers run it: the root's calls, a peer's handler, and the
    gathering of a peer's children. */
module TreeDuplication {
  import opened Types
  import opened Server
  import opened Tree
  import B = TreeBroadcast
  import C = Certification
  import T = TreeSpec

  const FAN_OUT := 2

  /** A call to a child; the tree it was read from travels along. */
  datatype TreeCall = TreeCall(to: int, caller: int, seqNo: int, origin: NodeId, req: Request)

  /** The ids of a list of tree positions. */
  ghost function Named(ids: seq<int>, positions: seq<int>): (r: seq<int>)
    requires forall j :: j in positions ==> 0 <= j < |ids|
    ensures |r| == |positions|
  {
    seq(|positions|, i requires 0 <= i < |positions| => assert positions[i] in positions; ids[positions[i]])
  }

  /** The relay awaits the children of position p in the tree over `ids`, and has what the broadcast has gathered there. */
  ghost predicate Awaits(nextNodes: seq<int>, gathered: seq<int>, k: int, ids: seq<int>, s: B.Net, p: int)
    requires k >= 1
  {
    && NoRepeats(ids) && 0 <= p < |ids| == |s.batches|
    && nextNodes == T.Search([T.Complete(k, ids, 0)], ids[p])
    && (forall j :: j in s.batches[p] ==> 0 <= j < |ids|)
    && gathered == Named(ids, s.batches[p])
  }

  /** The part of a peer's handler that outlives the call: it waits for the peer's children and reports to the root. */
  class Relay {
    const nextNodes: seq<int>
    const root: int
    var gathered: seq<int>

    constructor (nextNodes: seq<int>, root: int)
      ensures this.nextNodes == nextNodes && this.root == root && gathered == []
    {
      this.nextNodes, this.root, gathered := nextNodes, root, [];
    }

    /** The confirmation of the child with id `voter` comes back; the last one completes the batch for the root.
        In terms of positions this is the gathering step of the broadcast at position p, for the child at j. */
    method OnReturn(voter: int, ghost k: int, ghost ids: seq<int>, ghost s: B.Net, ghost p: int, ghost j: int)
      returns (batch: Option<seq<int>>)
      requires k >= 1 && Awaits(nextNodes, gathered, k, ids, s, p)
      requires 0 <= j < |ids| && ids[j] == voter
      modifies this
      ensures var s' := B.Gathered(B.ParentsOf(k, |ids|), s, p, j);
              && Awaits(nextNodes, gathered, k, ids, s', p)
              && s'.backs == (if batch.Some? then s.backs + multiset{B.Back(p, s'.batches[p])} else s.backs)
              && (batch.Some? ==> batch.value == Named(ids, s'.batches[p]))
    {
      gathered := gathered + [voter];
      batch := if |gathered| == |nextNodes| then Some(gathered) else None;
      ChildCount(k, ids, p);
      assert gathered == Named(ids, s.batches[p] + [j]);
    }
  }

  /** As many ids are read from the tree as the position has children. */
  lemma ChildCount(k: int, ids: seq<int>, p: int)
    requires k >= 1 && NoRepeats(ids) && 0 <= p < |ids|
    ensures |T.Search([T.Complete(k, ids, 0)], ids[p])| == |B.Kids(B.ParentsOf(k, |ids|), p)|
  {
    T.SearchComplete(k, ids, p);
    var n := |ids|;
    var lo, hi := T.FirstChild(k, n, p), T.FirstChild(k, n, p + 1);
    var kids := B.Kids(B.ParentsOf(k, n), p);
    forall j ensures j in kids <==> j in Range(lo, hi) {
      RangeIs(lo, hi);
      if 1 <= j < n {
        T.ParentIff(k, n, p, j);
      }
    }
    RangeIs(lo, hi);
    assert kids == Range(lo, hi);
  }

  ghost function Range(lo: int, hi: int): set<int>
    decreases hi - lo
  {
    if hi <= lo then {} else Range(lo, hi - 1) + {hi - 1}
  }

  lemma {:induction false} RangeIs(lo: int, hi: int)
    requires lo <= hi
    ensures |Range(lo, hi)| == hi - lo && forall j :: j in Range(lo, hi) <==> lo <= j < hi
    decreases hi - lo
  {
    if lo < hi {
      RangeIs(lo, hi - 1);
    }
  }

  /** The root builds a binary tree over itself and its peers and calls its children: the first two peers. */
  method TreeDuplicate(server: Server, peers: set<int>)
    returns (tree: TreeNode, calls: seq<int>, ghost order: seq<int>, ghost repr: set<TreeNode>)
    requires server.id !in peers
    ensures NoRepeats(order) && (forall id :: id in order <==> id in peers) && T.IdleFirst(order)
    ensures Represents(tree, T.Complete(FAN_OUT, [server.id] + order, 0), repr)
    ensures calls == if |order| <= 2 then order else order[..2]
    ensures |calls| == (if |peers| <= 2 then |peers| else 2)
    ensures NoRepeats(calls) && forall c :: c in calls ==> c in peers
    ensures forall c, p :: c in calls && T.Busy(c) && p in peers && !T.Busy(p) ==> p in calls
  {
    ghost var nodes;
    tree, order, nodes := MakeTree(peers, FAN_OUT, server.id);
    ghost var ids := [server.id] + order;
    repr := set n | n in nodes;
    calls := TraverseTree(tree, server.id, T.Complete(FAN_OUT, ids, 0), repr);
    assert ids[0] == server.id && NoRepeats(ids);
    T.SearchComplete(FAN_OUT, ids, 0);
    FirstPeers(order, peers, |calls|);
  }

  lemma FirstPeers(order: seq<int>, peers: set<int>, n: nat)
    requires NoRepeats(order) && (forall id :: id in order <==> id in peers) && n <= |order|
    requires T.IdleFirst(order)
    ensures |order| == |peers| && NoRepeats(order[..n])
    ensures forall c, p :: c in order[..n] && T.Busy(c) && p in peers && !T.Busy(p) ==> p in order[..n]
  {
    SizeOfElements(order);
    var elements := set id | id in order;
    assert forall id :: id in elements <==> id in peers;
    assert elements == peers;
    forall c, p | c in order[..n] && T.Busy(c) && p in peers && !T.Busy(p)
      ensures p in order[..n]
    {
      var i :| 0 <= i < n && order[i] == c;
      var j :| 0 <= j < |order| && order[j] == p;
      assert order[..n][j] == p;
    }
  }

  /** The calls of node `self` to the given children, leaving itself out. */
  ghost function CallsTo(ids: seq<int>, self: int, msg: C.Msg): seq<TreeCall>
    requires msg.Dup?
  {
    if ids == [] then []
    else CallsTo(ids[..|ids| - 1], self, msg)
         + if ids[|ids| - 1] == self then []
           else [TreeCall(ids[|ids| - 1], self, msg.seqNo, msg.origin, msg.req)]
  }

  lemma {:induction false} CallsToIs(ids: seq<int>, self: int, msg: C.Msg)
    requires msg.Dup? && self !in ids
    ensures |CallsTo(ids, self, msg)| == |ids|
    ensures forall i :: 0 <= i < |ids|
              ==> CallsTo(ids, self, msg)[i] == TreeCall(ids[i], self, msg.seqNo, msg.origin, msg.req)
  {
    if ids != [] {
      CallsToIs(ids[..|ids| - 1], self, msg);
    }
  }

  ghost predicate Calls(calls: seq<TreeCall>, x: int) {
    exists i :: 0 <= i < |calls| && calls[i].to == x
  }

  /** Whatever the ids, the calls go to those other than the caller and carry the request unchanged. */
  lemma {:induction false} CallsToIff(ids: seq<int>, self: int, msg: C.Msg, x: int)
    requires msg.Dup?
    ensures Calls(CallsTo(ids, self, msg), x) <==> x in ids && x != self
    ensures forall i :: 0 <= i < |CallsTo(ids, self, msg)|
              ==> CallsTo(ids, self, msg)[i] == TreeCall(CallsTo(ids, self, msg)[i].to, self, msg.seqNo, msg.origin, msg.req)
  {
    if ids != [] {
      var init, last := ids[..|ids| - 1], ids[|ids| - 1];
      CallsToIff(init, self, msg, x);
      var earlier, calls := CallsTo(init, self, msg), CallsTo(ids, self, msg);
      if Calls(earlier, x) {
        var i :| 0 <= i < |earlier| && earlier[i].to == x;
        assert calls[i].to == x;
      }
      if last != self && x == last {
        assert calls[|earlier|].to == x;
      }
      if Calls(calls, x) {
        var i :| 0 <= i < |calls| && calls[i].to == x;
        assert i < |earlier| ==> earlier[i].to == x;
      }
    }
  }

  /** In a tree over distinct ids, a peer calls each child of its position exactly once, with the request it was
      sent; so the broadcast's step of handling a call puts out the calls it says. */
  lemma CallsReachTheKids(k: int, ids: seq<int>, p: int, msg: C.Msg)
    requires k >= 1 && NoRepeats(ids) && 0 <= p < |ids| && msg.Dup?
    ensures var calls := CallsTo(T.Search([T.Complete(k, ids, 0)], ids[p]), ids[p], msg);
            && |calls| == |B.Kids(B.ParentsOf(k, |ids|), p)|
            && (forall a, b :: 0 <= a < b < |calls| ==> calls[a].to != calls[b].to)
            && (forall i :: 0 <= i < |calls| ==> calls[i] == TreeCall(calls[i].to, ids[p], msg.seqNo, msg.origin, msg.req))
            && forall j :: 0 <= j < |ids| ==> ((exists i :: 0 <= i < |calls| && calls[i].to == ids[j])
                                              <==> j in B.Kids(B.ParentsOf(k, |ids|), p))
  {
    var next := T.Search([T.Complete(k, ids, 0)], ids[p]);
    T.SearchComplete(k, ids, p);
    ChildCount(k, ids, p);
    NotItsOwnChild(k, ids, p);
    CallsToIs(next, ids[p], msg);
    hide T.Search, T.Complete, CallsTo;
    var calls := CallsTo(next, ids[p], msg);
    forall j | 0 <= j < |ids|
      ensures (exists i :: 0 <= i < |calls| && calls[i].to == ids[j]) <==> j in B.Kids(B.ParentsOf(k, |ids|), p)
    {
      B.KidsAreWhatIsRead(k, ids, p, j);
      if ids[j] in next {
        var i :| 0 <= i < |next| && next[i] == ids[j];
        assert calls[i].to == ids[j];
      }
    }
  }

  lemma NotItsOwnChild(k: int, ids: seq<int>, p: int)
    requires k >= 1 && NoRepeats(ids) && 0 <= p < |ids|
    ensures ids[p] !in T.Search([T.Complete(k, ids, 0)], ids[p])
  {
    B.KidsAreWhatIsRead(k, ids, p, p);
  }

  /** A peer stores the request, reads its children from the tree, calls them with the same request, and confirms
      to its caller. What it gathers will go to the root. */
  method TreeDuplicateRpc(server: Server, msg: C.Msg, tree: TreeNode, ghost t: T.Tree, ghost repr: set<TreeNode>)
    returns (confirm: C.Msg, calls: seq<TreeCall>, relay: Relay)
    requires server.CertsValid() && msg.Dup? && Represents(tree, t, repr)
    modifies server`seq2cert, server.seq2cert.Values
    ensures server.CertsValid()
    ensures server.Certifier() == C.Stored(old(server.Certifier()), msg.seqNo, msg.req)
    ensures confirm == C.Conf(msg.seqNo, msg.origin, server.self)
    ensures calls == CallsTo(T.Search([t], server.id), server.id, msg)
    ensures fresh(relay) && relay.gathered == [] && relay.nextNodes == T.Search([t], server.id) && relay.root == t.id
  {
    var nextNodes := TraverseTree(tree, server.id, t, repr);
    var root := tree.id;
    confirm := server.DuplicateRpc(msg);
    calls := [];
    for i := 0 to |nextNodes|
      invariant calls == CallsTo(nextNodes[..i], server.id, msg)
    {
      assert nextNodes[..i + 1][..i] == nextNodes[..i];
      if nextNodes[i] != server.id {
        calls := calls + [TreeCall(nextNodes[i], server.id, msg.seqNo, msg.origin, msg.req)];
      }
    }
    assert nextNodes[..|nextNodes|] == nextNodes;
    relay := new Relay(nextNodes, root);
  }

  // ---- What a finished broadcast achieves ----

  /** The confirmations of the peers at the given positions, as the root counts them. */
  ghost function ConfirmsOf(x: int, at: seq<NodeId>, positions: seq<int>): (batch: seq<C.Confirm>)
    requires forall j :: j in positions ==> 0 <= j < |at|
    ensures |batch| == |positions|
    ensures forall i :: 0 <= i < |batch| ==> positions[i] in positions && batch[i] == C.Confirm(x, at[positions[i]])
  {
    seq(|positions|, i requires 0 <= i < |positions| => assert positions[i] in positions; C.Confirm(x, at[positions[i]]))
  }

  /** A broadcast that can go no further has certified its request: `at` tells which node is at which position,
      and the root counts the confirmations in the order in which they came. */
  lemma FinishedBroadcastCertifies(par: seq<int>, steps: seq<B.Step>, at: seq<NodeId>, s: C.System, f: nat,
                                   p: NodeId, x: int, nexts: seq<Request>)
    requires B.IsTree(par) && B.Legal(par, steps) && B.Stuck(par, B.After(par, steps))
    requires |at| == |par| && NoRepeats(at) && 1 <= f < |par|
    requires C.Inv(s, f) && p < |s.nodes| && C.Own(s.nodes[p], x)
    requires |nexts| == |B.After(par, steps).confirms|
    ensures forall j :: j in B.After(par, steps).confirms ==> 0 <= j < |at|
    ensures var after := C.ConfirmedAll(s.nodes[p], ConfirmsOf(x, at, B.After(par, steps).confirms), nexts, f);
            x in after.certs && after.certs[x].duplicated
  {
    hide B.After, B.Legal, B.Inv, B.Stuck, C.Inv, C.Own;
    B.EveryoneConfirms(par, steps);
    var confirms := B.After(par, steps).confirms;
    forall j ensures j in confirms <==> 1 <= j < |par| {
      assert j in confirms <==> j in multiset(confirms);
    }
    OwnIsCounted(s, f, p, x);
    var batch := ConfirmsOf(x, at, confirms);
    C.EnoughConfirmsCertify(s.nodes[p], x, batch, nexts, f);
    hide C.ConfirmedAll;
    ManyVoters(x, at, confirms);
    SubsetSize(C.Voters(batch), s.nodes[p].certs[x].votes + C.Voters(batch));
  }

  lemma ManyVoters(x: int, at: seq<NodeId>, confirms: seq<int>)
    requires NoRepeats(at) && forall j :: j in confirms <==> 1 <= j < |at|
    ensures at != [] ==> |C.Voters(ConfirmsOf(x, at, confirms))| >= |at| - 1
  {
    if at != [] {
      var peers, batch := at[1..], ConfirmsOf(x, at, confirms);
      forall v | v in peers
        ensures v in C.Voters(batch)
      {
        var j :| 0 <= j < |peers| && peers[j] == v;
        assert j + 1 in confirms;
        var i :| 0 <= i < |confirms| && confirms[i] == j + 1;
        assert batch[i].voter == v;
      }
      SizeOfElements(peers);
      SubsetSize((set v | v in peers), C.Voters(batch));
    }
  }

  lemma OwnIsCounted(s: C.System, f: nat, p: NodeId, x: int)
    requires C.Inv(s, f) && f >= 1 && p < |s.nodes| && C.Own(s.nodes[p], x)
    ensures x in s.nodes[p].certs && s.nodes[p].certs[x].req.Some? && C.CountedUp(s.nodes[p].certs[x], f)
  {
    C.CertifiedIff(s, f, p, x);
    C.InvFacts(s, f, p);
  }
}
