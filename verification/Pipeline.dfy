/** The block pipeline as a transition system: one proposer numbers blocks and announces block h together
    with the commit of h - 1, followers store blocks and report their certified requests, and every node
    feeds committed heights to its executor. */
module Pipeline {
  import opened Types
  import opened ExecSpec

  /** The announcement of block `height`, which also carries the commit notice for `commit`. */
  datatype Sending = Sending(height: int, commit: int, reqs: seq<Unit>)

  /** A follower's answer, with the certified requests it had collected. */
  datatype Reply = Reply(prepared: int, committed: int, gathered: seq<Unit>, from: NodeId)

  /** The pipeline part of one server. `ch` is everything ever put on the execution channel and `taken`
      how much of it the executor has received. */
  datatype Replica = Replica(
    index: nat,
    committedTx: int,
    pool: seq<Unit>,
    log: Log,
    ch: seq<int>,
    taken: nat,
    exec: Exec)

  const EMPTY_ENTRY := Entry([], [], [], false, false, false)

  /** A server at start: height 0 has a placeholder entry. */
  const BOOT := Replica(0, 0, [], map[0 := EMPTY_ENTRY], [], 0, FRESH)

  function TxSum(reqs: seq<Unit>): int {
    if reqs == [] then 0 else TxSum(reqs[..|reqs| - 1]) + reqs[|reqs| - 1].txNum
  }

  // ---- Transaction counts ----

  /** The transactions of a bag of requests, counted in any order. */
  ghost function Weight(bag: multiset<Unit>): int
    decreases |bag|
  {
    if bag == multiset{} then 0
    else
      var u :| u in bag;
      u.txNum + Weight(bag - multiset{u})
  }

  lemma {:induction false} WeightWithout(bag: multiset<Unit>, u: Unit)
    requires u in bag
    ensures Weight(bag) == u.txNum + Weight(bag - multiset{u})
    decreases |bag|
  {
    var v :| v in bag && Weight(bag) == v.txNum + Weight(bag - multiset{v});
    if u != v {
      WeightWithout(bag - multiset{v}, u);
      WeightWithout(bag - multiset{u}, v);
      assert bag - multiset{v} - multiset{u} == bag - multiset{u} - multiset{v};
    }
  }

  /** A request weighs its transactions, and bags add up. */
  lemma {:induction false} WeightAddsUp(a: multiset<Unit>, b: multiset<Unit>)
    ensures Weight(a + b) == Weight(a) + Weight(b)
    decreases |b|
  {
    if b == multiset{} {
      assert a + b == a;
    } else {
      var u :| u in b;
      WeightWithout(b, u);
      WeightWithout(a + b, u);
      assert a + b - multiset{u} == a + (b - multiset{u});
      WeightAddsUp(a, b - multiset{u});
    }
  }

  lemma WeightOfOne(u: Unit)
    ensures Weight(multiset{u}) == u.txNum
  {
    WeightWithout(multiset{u}, u);
    assert multiset{u} - multiset{u} == multiset{};
  }

  /** The proposer's sum counts every transaction of every request: one request counts its own, and sums add up. */
  lemma {:induction false} TxSumAddsUp(u: Unit, a: seq<Unit>, b: seq<Unit>)
    ensures TxSum([]) == 0 && TxSum([u]) == u.txNum
    ensures TxSum(a + b) == TxSum(a) + TxSum(b)
    decreases |b|
  {
    assert [u][..0] == [];
    if b == [] {
      assert a + b == a;
    } else {
      assert (a + b)[..|a + b| - 1] == a + b[..|b| - 1];
      TxSumAddsUp(u, a, b[..|b| - 1]);
    }
  }

  lemma {:induction false} TxSumIsWeight(reqs: seq<Unit>)
    ensures TxSum(reqs) == Weight(multiset(reqs))
  {
    if reqs != [] {
      var init, last := reqs[..|reqs| - 1], reqs[|reqs| - 1];
      TxSumIsWeight(init);
      assert reqs == init + [last];
      assert multiset(reqs) == multiset(init) + multiset{last};
      WeightAddsUp(multiset(init), multiset{last});
      WeightOfOne(last);
    }
  }

  // ---- Local steps ----

  function Collected(r: Replica, u: Unit): Replica {
    r.(pool := r.pool + [u])
  }

  /** The proposer turns its pool into the next block. */
  function Proposed(r: Replica): Replica {
    r.(index := r.index + 1,
       committedTx := r.committedTx + TxSum(r.pool),
       pool := [],
       log := r.log[r.index + 1 := EMPTY_ENTRY.(reqs := r.pool)])
  }

  function Announcement(r: Replica): Sending {
    Sending(r.index + 1, r.index, r.pool)
  }

  /** An entry with both flags that was not queued yet goes to the execution channel. */
  function Queue(r: Replica, height: int): Replica
    requires height in r.log
  {
    var e := r.log[height];
    if e.prepared && e.committed && !e.executed
    then r.(log := r.log[height := e.(executed := true)], ch := r.ch + [height])
    else r
  }

  /** First half of handling an announcement: store the block, or only mark it if its height is known already. */
  function Stored(r: Replica, m: Sending): Replica {
    r.(log := r.log[m.height := if m.height in r.log then r.log[m.height].(prepared := true)
                                else EMPTY_ENTRY.(reqs := m.reqs, prepared := true)])
  }

  /** Second half: the commit notice. An unknown height gets an entry without contents. */
  function Noticed(r: Replica, commit: int): Replica {
    if commit in r.log then Queue(r.(log := r.log[commit := r.log[commit].(committed := true)]), commit)
    else r.(log := r.log[commit := EMPTY_ENTRY.(committed := true)])
  }

  function Followed(r: Replica, m: Sending): Replica {
    Noticed(Stored(r, m), m.commit).(pool := [])
  }

  function Answer(r: Replica, m: Sending, self: NodeId): Reply {
    Reply(m.height, m.commit, r.pool, self)
  }

  /** The confirmation counts of an entry against the fault number. */
  function Checked(e: Entry, f: nat): Entry {
    e.(prepared := e.prepared || |e.prepareConfirms| >= f,
       committed := e.committed || |e.commitConfirms| >= f)
  }

  /** The proposer handles an answer. An answer about unknown heights is ignored altogether. */
  function Confirmed(r: Replica, a: Reply, f: nat): Replica {
    if a.prepared !in r.log || a.committed !in r.log then r
    else
      var log1 := r.log[a.prepared := r.log[a.prepared].(prepareConfirms := r.log[a.prepared].prepareConfirms + [a.from])];
      var log2 := log1[a.committed := log1[a.committed].(commitConfirms := log1[a.committed].commitConfirms + [a.from])];
      var log3 := log2[a.prepared := Checked(log2[a.prepared], f)];
      var log4 := log3[a.committed := Checked(log3[a.committed], f)];
      var queued := Queue(r.(log := log4), a.committed);
      queued.(pool := queued.pool + a.gathered)
  }

  /** The executor takes the next height from the channel. */
  function Took(r: Replica, held: Requests): Replica
    requires r.taken < |r.ch|
  {
    r.(exec := Receive(r.exec, r.ch[r.taken], r.log, held), taken := r.taken + 1)
  }

  // ---- The system ----

  /** Node 0 is the proposer. `requests[q]` and `replies[q]` are in flight between it and node q. */
  datatype Cluster = Cluster(nodes: seq<Replica>, requests: seq<seq<Sending>>, replies: seq<seq<Reply>>)

  datatype Step =
    | Certify(p: NodeId, u: Unit)
    | Propose
    | Deliver(q: NodeId, i: nat)
    | Handle(q: NodeId, i: nat)
    | Execute(p: NodeId, held: Requests)

  function Boot(n: nat): Cluster
    requires n >= 1
  {
    Cluster(seq(n, _ => BOOT), seq(n, _ => []), seq(n, _ => []))
  }

  predicate Shape(s: Cluster) {
    |s.nodes| == |s.requests| == |s.replies| >= 1
  }

  predicate Enabled(s: Cluster, step: Step)
    requires Shape(s)
  {
    match step
    case Certify(p, _) => p < |s.nodes|
    case Propose => true
    case Deliver(q, i) => 1 <= q < |s.nodes| && i < |s.requests[q]|
    case Handle(q, i) => 1 <= q < |s.nodes| && i < |s.replies[q]|
    case Execute(p, _) => p < |s.nodes| && s.nodes[p].taken < |s.nodes[p].ch|
  }

  /** Every message is delivered at most once; `i` picks which one, so any order is possible. */
  function Next(s: Cluster, step: Step, f: nat): Cluster
    requires Shape(s) && Enabled(s, step)
  {
    match step
    case Certify(p, u) => s.(nodes := s.nodes[p := Collected(s.nodes[p], u)])
    case Propose =>
      s.(nodes := s.nodes[0 := Proposed(s.nodes[0])],
         requests := seq(|s.requests|, q requires 0 <= q < |s.requests| =>
           if q == 0 then s.requests[q] else s.requests[q] + [Announcement(s.nodes[0])]))
    case Deliver(q, i) =>
      var m := s.requests[q][i];
      s.(nodes := s.nodes[q := Followed(s.nodes[q], m)],
         requests := s.requests[q := Without(s.requests[q], i)],
         replies := s.replies[q := s.replies[q] + [Answer(s.nodes[q], m, q)]])
    case Handle(q, i) =>
      s.(nodes := s.nodes[0 := Confirmed(s.nodes[0], s.replies[q][i], f)],
         replies := s.replies[q := Without(s.replies[q], i)])
    case Execute(p, held) => s.(nodes := s.nodes[p := Took(s.nodes[p], held)])
  }

  lemma KeepsNodes(s: Cluster, step: Step, f: nat)
    requires Shape(s) && Enabled(s, step)
    ensures Shape(Next(s, step, f)) && |Next(s, step, f).nodes| == |s.nodes|
  {
  }

  lemma MessagesLeaveExecutors(s: Cluster, step: Step, f: nat, p: NodeId)
    requires Shape(s) && Enabled(s, step) && p < |s.nodes| && !step.Execute?
    ensures |Next(s, step, f).nodes| == |s.nodes| && Next(s, step, f).nodes[p].exec == s.nodes[p].exec
  {
  }

  /** The steps can be taken one after the other. */
  ghost predicate Legal(s: Cluster, steps: seq<Step>, f: nat)
    decreases |steps|, 0
  {
    steps == [] || (Legal(s, steps[..|steps| - 1], f)
                    && var mid := After(s, steps[..|steps| - 1], f);
                       Shape(mid) && Enabled(mid, steps[|steps| - 1]))
  }

  ghost function After(s: Cluster, steps: seq<Step>, f: nat): Cluster
    requires Legal(s, steps, f)
    decreases |steps|, 1
  {
    if steps == [] then s
    else Next(After(s, steps[..|steps| - 1], f), steps[|steps| - 1], f)
  }

  /** Messages are taken from each link in the order they were sent. */
  predicate Fifo(step: Step) {
    (step.Deliver? || step.Handle?) ==> step.i == 0
  }

  /** The contents of the proposer's blocks 1, 2, ... */
  ghost function Blocks(s: Cluster): seq<seq<Unit>>
    requires Shape(s)
  {
    var r := s.nodes[0];
    seq(r.index, k requires 0 <= k < r.index => if k + 1 in r.log then r.log[k + 1].reqs else [])
  }
}
