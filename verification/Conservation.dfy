/** No certified request is lost or duplicated on its way into a block. */
module Conservation {
  import opened Types
  import opened ExecSpec
  import opened Pipeline
  import opened PipelineSafety

  type Bag = multiset<Unit>

  function Union(bags: seq<Bag>): Bag {
    if bags == [] then multiset{} else Union(bags[..|bags| - 1]) + bags[|bags| - 1]
  }

  lemma AddBoth(a: Bag, b: Bag, c: Bag, d: Bag, e: Bag)
    requires a + b == c + d
    ensures (a + e) + b == (c + e) + d
  {
    assert (a + e) + b == (a + b) + e;
    assert (c + e) + d == (c + d) + e;
  }

  lemma CancelBag(after: Bag, before: Bag, own: Bag, gain: Bag)
    requires after + own == before + (own + gain)
    ensures after == before + gain
  {
    assert forall u :: (after + own)[u] == after[u] + own[u];
    assert forall u :: (before + (own + gain))[u] == before[u] + own[u] + gain[u];
    assert forall u :: after[u] == (before + gain)[u];
  }

  /** Moving `m` from one place to another, beside `rest`, keeps the sum. */
  lemma Moved(from: Bag, from': Bag, to: Bag, to': Bag, m: Bag, rest: Bag)
    requires from' + m == from && to' == to + m
    ensures from' + to' == from + to
    ensures from' + rest + to' == from + rest + to && from' + to' + rest == from + to + rest
  {
    assert from' + to' == (from' + m) + to;
    assert from' + rest + to' == (from' + to') + rest;
    assert from + rest + to == (from + to) + rest;
  }

  lemma {:induction false} UnionUpdate(bags: seq<Bag>, i: nat, b: Bag)
    requires i < |bags|
    ensures Union(bags[i := b]) + bags[i] == Union(bags) + b
  {
    var last := |bags| - 1;
    if i == last {
      assert bags[i := b][..last] == bags[..last];
    } else {
      assert bags[i := b][..last] == bags[..last][i := b];
      UnionUpdate(bags[..last], i, b);
      AddBoth(Union(bags[..last][i := b]), bags[i], Union(bags[..last]), b, bags[last]);
    }
  }

  lemma UnionSnoc(bags: seq<Bag>, b: Bag)
    ensures Union(bags + [b]) == Union(bags) + b
  {
    assert (bags + [b])[..|bags|] == bags;
  }

  lemma {:induction false} UnionWithout(bags: seq<Bag>, i: nat)
    requires i < |bags|
    ensures Union(Without(bags, i)) + bags[i] == Union(bags)
  {
    var last := |bags| - 1;
    if i == last {
      assert Without(bags, i) == bags[..last];
    } else {
      assert Without(bags, i) == Without(bags[..last], i) + [bags[last]];
      UnionSnoc(Without(bags[..last], i), bags[last]);
      UnionWithout(bags[..last], i);
    }
  }

  lemma {:induction false} UnionOfEmpty(bags: seq<Bag>)
    requires forall i :: 0 <= i < |bags| ==> bags[i] == multiset{}
    ensures Union(bags) == multiset{}
  {
    if bags != [] {
      UnionOfEmpty(bags[..|bags| - 1]);
    }
  }

  // ---- Where certified requests can be ----

  function PoolBags(nodes: seq<Replica>): seq<Bag> {
    seq(|nodes|, p requires 0 <= p < |nodes| => multiset(nodes[p].pool))
  }

  function LinkBag(link: seq<Reply>): Bag {
    Union(seq(|link|, i requires 0 <= i < |link| => multiset(link[i].gathered)))
  }

  function ReplyBags(links: seq<seq<Reply>>): seq<Bag> {
    seq(|links|, q requires 0 <= q < |links| => LinkBag(links[q]))
  }

  function BlockBags(blocks: Contents): seq<Bag> {
    seq(|blocks|, k requires 0 <= k < |blocks| => multiset(blocks[k]))
  }

  /** All certified requests of a state: in a pool, in a reply on its way, or in a block. */
  ghost function Certified(s: Cluster): Bag
    requires Shape(s)
  {
    Union(PoolBags(s.nodes)) + Union(ReplyBags(s.replies)) + Union(BlockBags(Blocks(s)))
  }

  ghost function TxTotal(blocks: Contents): int {
    if blocks == [] then 0 else TxTotal(blocks[..|blocks| - 1]) + TxSum(blocks[|blocks| - 1])
  }

  ghost function NewlyCertified(step: Step): Bag {
    if step.Certify? then multiset{step.u} else multiset{}
  }

  lemma PoolUpdate(nodes: seq<Replica>, p: nat, r: Replica)
    requires p < |nodes|
    ensures Union(PoolBags(nodes[p := r])) + multiset(nodes[p].pool) == Union(PoolBags(nodes)) + multiset(r.pool)
  {
    assert PoolBags(nodes[p := r]) == PoolBags(nodes)[p := multiset(r.pool)];
    UnionUpdate(PoolBags(nodes), p, multiset(r.pool));
  }

  lemma ReplyUpdate(links: seq<seq<Reply>>, q: nat, link: seq<Reply>)
    requires q < |links|
    ensures Union(ReplyBags(links[q := link])) + LinkBag(links[q]) == Union(ReplyBags(links)) + LinkBag(link)
  {
    assert ReplyBags(links[q := link]) == ReplyBags(links)[q := LinkBag(link)];
    UnionUpdate(ReplyBags(links), q, LinkBag(link));
  }

  function GatheredBags(link: seq<Reply>): seq<Bag> {
    seq(|link|, i requires 0 <= i < |link| => multiset(link[i].gathered))
  }

  lemma LinkGains(link: seq<Reply>, a: Reply)
    ensures LinkBag(link + [a]) == LinkBag(link) + multiset(a.gathered)
  {
    assert GatheredBags(link + [a]) == GatheredBags(link) + [multiset(a.gathered)];
    UnionSnoc(GatheredBags(link), multiset(a.gathered));
  }

  lemma LinkLoses(link: seq<Reply>, i: nat)
    requires i < |link|
    ensures LinkBag(Without(link, i)) + multiset(link[i].gathered) == LinkBag(link)
  {
    assert GatheredBags(Without(link, i)) == Without(GatheredBags(link), i);
    UnionWithout(GatheredBags(link), i);
  }

  // ---- Every step conserves them ----

  lemma ProposeConserves(s: Cluster, f: nat)
    requires Shape(s) && Safe(s)
    ensures Shape(Next(s, Propose, f)) && Certified(Next(s, Propose, f)) == Certified(s)
  {
    hide Safe, Union, Blocks;
    var s' := Next(s, Propose, f);
    var r := s.nodes[0];
    ProposeKeepsSafe(s, f);
    PoolUpdate(s.nodes, 0, Proposed(r));
    assert Proposed(r).pool == [];
    assert s'.nodes == s.nodes[0 := Proposed(r)] && s'.replies == s.replies;
    assert BlockBags(Blocks(s')) == BlockBags(Blocks(s)) + [multiset(r.pool)];
    UnionSnoc(BlockBags(Blocks(s)), multiset(r.pool));
    Moved(Union(PoolBags(s.nodes)), Union(PoolBags(s'.nodes)), Union(BlockBags(Blocks(s))), Union(BlockBags(Blocks(s'))),
          multiset(r.pool), Union(ReplyBags(s.replies)));
  }

  lemma DeliverConserves(s: Cluster, q: NodeId, i: nat, f: nat)
    requires Shape(s) && Safe(s) && Enabled(s, Deliver(q, i))
    ensures Shape(Next(s, Deliver(q, i), f)) && Certified(Next(s, Deliver(q, i), f)) == Certified(s)
  {
    hide Safe, Union, Blocks, LinkBag, Noticed, Stored;
    var r, m := s.nodes[q], s.requests[q][i];
    DeliverKeepsSafe(s, q, i, f);
    var s' := Next(s, Deliver(q, i), f);
    PoolUpdate(s.nodes, q, Followed(r, m));
    assert Followed(r, m).pool == [];
    LinkGains(s.replies[q], Answer(r, m, q));
    ReplyUpdate(s.replies, q, s.replies[q] + [Answer(r, m, q)]);
    CancelBag(Union(ReplyBags(s'.replies)), Union(ReplyBags(s.replies)), LinkBag(s.replies[q]), multiset(r.pool));
    Moved(Union(PoolBags(s.nodes)), Union(PoolBags(s'.nodes)), Union(ReplyBags(s.replies)), Union(ReplyBags(s'.replies)),
          multiset(r.pool), Union(BlockBags(Blocks(s))));
  }

  lemma HandleConserves(s: Cluster, q: NodeId, i: nat, f: nat)
    requires Shape(s) && Safe(s) && Enabled(s, Handle(q, i))
    ensures Shape(Next(s, Handle(q, i), f)) && Certified(Next(s, Handle(q, i), f)) == Certified(s)
  {
    hide Confirmed, Safe, Union, Blocks, LinkBag;
    var r, a := s.nodes[0], s.replies[q][i];
    HandleKeepsSafe(s, q, i, f);
    ConfirmedPool(s, q, i, f);
    var s' := Next(s, Handle(q, i), f);
    PoolUpdate(s.nodes, 0, Confirmed(r, a, f));
    assert multiset(r.pool + a.gathered) == multiset(r.pool) + multiset(a.gathered);
    CancelBag(Union(PoolBags(s'.nodes)), Union(PoolBags(s.nodes)), multiset(r.pool), multiset(a.gathered));
    LinkLoses(s.replies[q], i);
    ReplyUpdate(s.replies, q, Without(s.replies[q], i));
    CancelBag(Union(ReplyBags(s.replies)), Union(ReplyBags(s'.replies)), LinkBag(Without(s.replies[q], i)), multiset(a.gathered));
    Moved(Union(ReplyBags(s.replies)), Union(ReplyBags(s'.replies)), Union(PoolBags(s.nodes)), Union(PoolBags(s'.nodes)),
          multiset(a.gathered), Union(BlockBags(Blocks(s))));
  }

  lemma LocalConserves(s: Cluster, step: Step, f: nat)
    requires Shape(s) && Safe(s) && Enabled(s, step) && (step.Certify? || step.Execute?)
    ensures Shape(Next(s, step, f)) && Certified(Next(s, step, f)) == Certified(s) + NewlyCertified(step)
  {
    hide Safe, Union, Blocks, Receive;
    LocalKeepsSafe(s, step, f);
    var r := s.nodes[step.p];
    var s' := Next(s, step, f);
    PoolUpdate(s.nodes, step.p, s'.nodes[step.p]);
    assert multiset(s'.nodes[step.p].pool) == multiset(r.pool) + NewlyCertified(step);
    CancelBag(Union(PoolBags(s'.nodes)), Union(PoolBags(s.nodes)), multiset(r.pool), NewlyCertified(step));
  }

  /** In a safe state no answer is ignored, so the reported requests reach the proposer's pool. */
  lemma ConfirmedPool(s: Cluster, q: NodeId, i: nat, f: nat)
    requires Safe(s) && Enabled(s, Handle(q, i))
    ensures Confirmed(s.nodes[0], s.replies[q][i], f).pool == s.nodes[0].pool + s.replies[q][i].gathered
  {
    assert PeerOk(s, q);
    assert ReplyOk(s.replies[q][i], q, Blocks(s));
  }

  lemma StepConserves(s: Cluster, step: Step, f: nat)
    requires Shape(s) && Safe(s) && Enabled(s, step)
    ensures Shape(Next(s, step, f)) && Certified(Next(s, step, f)) == Certified(s) + NewlyCertified(step)
  {
    hide Safe, Certified, Next;
    match step
    case Propose => ProposeConserves(s, f);
    case Deliver(q, i) => DeliverConserves(s, q, i, f);
    case Handle(q, i) => HandleConserves(s, q, i, f);
    case _ => LocalConserves(s, step, f);
  }

  lemma OnlyProposingCounts(s: Cluster, step: Step, f: nat)
    requires Shape(s) && Enabled(s, step)
    ensures Shape(Next(s, step, f))
    ensures Next(s, step, f).nodes[0].committedTx
         == s.nodes[0].committedTx + (if step.Propose? then TxSum(s.nodes[0].pool) else 0)
  {
    hide TxSum, Receive;
  }

  /** The proposer's count of committed transactions is the sum over its blocks. */
  lemma StepCounts(s: Cluster, step: Step, f: nat)
    requires Shape(s) && Safe(s) && Enabled(s, step) && s.nodes[0].committedTx == TxTotal(Blocks(s))
    ensures Shape(Next(s, step, f))
    ensures Next(s, step, f).nodes[0].committedTx == TxTotal(Blocks(Next(s, step, f)))
  {
    hide Safe, Next, Blocks, TxSum;
    OnlyProposingCounts(s, step, f);
    match step
    case Propose =>
      ProposeKeepsSafe(s, f);
      assert (Blocks(s) + [s.nodes[0].pool])[..|Blocks(s)|] == Blocks(s);
    case Deliver(q, i) => DeliverKeepsSafe(s, q, i, f);
    case Handle(q, i) => HandleKeepsSafe(s, q, i, f);
    case _ => LocalKeepsSafe(s, step, f);
  }

  lemma BootHoldsNothing(n: nat)
    requires n >= 1
    ensures Certified(Boot(n)) == multiset{}
  {
    var s := Boot(n);
    UnionOfEmpty(PoolBags(s.nodes));
    assert forall q :: 0 <= q < n ==> GatheredBags(s.replies[q]) == [];
    UnionOfEmpty(ReplyBags(s.replies));
    assert BlockBags(Blocks(s)) == [];
  }

  ghost function AllCertified(steps: seq<Step>): Bag {
    if steps == [] then multiset{} else AllCertified(steps[..|steps| - 1]) + NewlyCertified(steps[|steps| - 1])
  }

  /** In every run the certified requests are exactly those in a pool, in a reply on its way, or in a block,
      each as often as it was certified; and the transaction count is that of the blocks. */
  lemma {:induction false} RunConserves(n: nat, steps: seq<Step>, f: nat)
    requires n >= 1 && Legal(Boot(n), steps, f)
    ensures var s := After(Boot(n), steps, f);
            Shape(s) && Safe(s) && Certified(s) == AllCertified(steps) && s.nodes[0].committedTx == TxTotal(Blocks(s))
  {
    hide Certified, Safe, Boot;
    RunIsSafe(n, steps, f);
    SafeHasShape(After(Boot(n), steps, f));
    if steps == [] {
      BootHoldsNothing(n);
      BootCountsNothing(n);
    } else {
      var before := steps[..|steps| - 1];
      RunConserves(n, before, f);
      StepConserves(After(Boot(n), before, f), steps[|steps| - 1], f);
      StepCounts(After(Boot(n), before, f), steps[|steps| - 1], f);
    }
  }

  lemma BootCountsNothing(n: nat)
    requires n >= 1
    ensures Shape(Boot(n)) && Boot(n).nodes[0].committedTx == TxTotal(Blocks(Boot(n)))
  {
    assert Blocks(Boot(n)) == [];
  }

  // ---- At most once ----

  lemma {:induction false} TotalIsWeight(blocks: Contents)
    ensures TxTotal(blocks) == Weight(Union(BlockBags(blocks)))
  {
    if blocks != [] {
      var init, last := blocks[..|blocks| - 1], blocks[|blocks| - 1];
      TotalIsWeight(init);
      TxSumIsWeight(last);
      assert BlockBags(blocks) == BlockBags(init) + [multiset(last)];
      UnionSnoc(BlockBags(init), multiset(last));
      WeightAddsUp(Union(BlockBags(init)), multiset(last));
    }
  }

  /** In every run the proposer's transaction count and the transactions of all requests still in pools and replies
      add up to the transactions of all requests certified. */
  lemma CountPlusPendingIsCertified(n: nat, steps: seq<Step>, f: nat)
    requires n >= 1 && Legal(Boot(n), steps, f)
    ensures var s := After(Boot(n), steps, f);
            && Shape(s)
            && s.nodes[0].committedTx + Weight(Union(PoolBags(s.nodes))) + Weight(Union(ReplyBags(s.replies)))
               == Weight(AllCertified(steps))
  {
    hide Legal, After, Boot, Safe, Blocks, Weight;
    RunConserves(n, steps, f);
    var s := After(Boot(n), steps, f);
    TotalIsWeight(Blocks(s));
    var pools, replies, blocks := Union(PoolBags(s.nodes)), Union(ReplyBags(s.replies)), Union(BlockBags(Blocks(s)));
    WeightAddsUp(pools, replies);
    WeightAddsUp(pools + replies, blocks);
  }

  ghost predicate Once(b: Bag) {
    forall u :: b[u] <= 1
  }

  lemma {:induction false} BagInUnion(bags: seq<Bag>, i: nat)
    requires i < |bags|
    ensures bags[i] <= Union(bags)
  {
    if i < |bags| - 1 {
      BagInUnion(bags[..|bags| - 1], i);
    }
  }

  lemma {:induction false} TwoBagsInUnion(bags: seq<Bag>, i: nat, j: nat)
    requires i < j < |bags|
    ensures bags[i] + bags[j] <= Union(bags)
  {
    if j < |bags| - 1 {
      TwoBagsInUnion(bags[..|bags| - 1], i, j);
    } else {
      BagInUnion(bags[..j], i);
    }
  }

  /** When nothing is certified twice, no request is in two blocks, none is twice in a block, and none that is
      in a block is still in a pool or in a reply. */
  lemma BlockedAtMostOnce(s: Cluster, i: nat, j: nat, u: Unit)
    requires Shape(s) && Once(Certified(s))
    requires i < |Blocks(s)| && j < |Blocks(s)| && u in Blocks(s)[i]
    ensures multiset(Blocks(s)[i])[u] == 1
    ensures u in Blocks(s)[j] ==> i == j
    ensures u !in Union(PoolBags(s.nodes)) && u !in Union(ReplyBags(s.replies))
  {
    var bags := BlockBags(Blocks(s));
    BagInUnion(bags, i);
    if i < j {
      TwoBagsInUnion(bags, i, j);
    } else if j < i {
      TwoBagsInUnion(bags, j, i);
    }
    assert Certified(s)[u] <= 1;
    assert bags[i][u] >= 1;
  }

  /** A request executed by a node is executed there once: at one height, and once at that height. */
  lemma ExecutedAtMostOnce(s: Cluster, p: NodeId, i: nat, j: nat, u: Unit)
    requires Safe(s) && Once(Certified(s)) && p < |s.nodes|
    requires i < |s.nodes[p].exec.done| && j < |s.nodes[p].exec.done|
    requires u in s.nodes[p].exec.done[i].reqs && u in s.nodes[p].exec.done[j].reqs
    ensures i == j && multiset(s.nodes[p].exec.done[i].reqs)[u] == 1
  {
    SafeExecutions(s, p);
    assert s.nodes[p].exec.done[i] == Chain(s)[i] && s.nodes[p].exec.done[j] == Chain(s)[j];
    BlockedAtMostOnce(s, i, j, u);
  }
}
