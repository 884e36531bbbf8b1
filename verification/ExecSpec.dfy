/** In-order execution of the heights a node takes from its execution channel. */
module ExecSpec {
  import opened Types
  import opened Ycsb

  /** The executor: next height, heights received ahead of it, what it has executed and the store.
      `aborted` records the panic on a height without a prepared and committed entry. */
  datatype Exec = Exec(cur: int, ahead: set<int>, done: seq<Block>, kv: Store, aborted: bool)

  const FRESH := Exec(1, {}, [], map[], false)

  predicate Present(reqs: seq<Unit>, held: Requests) {
    forall i :: 0 <= i < |reqs| ==> reqs[i].seqNo in held
  }

  function TxsOf(held: Requests, seqNo: int): seq<Tx> {
    if seqNo in held then held[seqNo].txs else []
  }

  /** The store after the requests of one block. */
  function ApplyUnits(kv: Store, reqs: seq<Unit>, held: Requests): Store {
    if reqs == [] then kv
    else ApplyTxs(ApplyUnits(kv, reqs[..|reqs| - 1], held), TxsOf(held, reqs[|reqs| - 1].seqNo))
  }

  /** The store after a sequence of blocks. */
  function Replay(blocks: seq<Block>, held: Requests): Store {
    if blocks == [] then map[]
    else ApplyUnits(Replay(blocks[..|blocks| - 1], held), blocks[|blocks| - 1].reqs, held)
  }

  predicate Decided(log: Log, height: int) {
    height in log && log[height].prepared && log[height].committed
  }

  /** The inner loop: executes while the next height has been received. A height whose requests are not
      all held is dropped without being executed. */
  function Drain(e: Exec, log: Log, held: Requests): Exec
    decreases |e.ahead|
  {
    if e.aborted || e.cur !in e.ahead then e
    else
      var taken := e.(ahead := e.ahead - {e.cur});
      if !Decided(log, e.cur) then taken.(aborted := true)
      else if !Present(log[e.cur].reqs, held) then taken
      else Drain(Executed(taken, log[e.cur].reqs, held), log, held)
  }

  function Executed(e: Exec, reqs: seq<Unit>, held: Requests): Exec {
    e.(cur := e.cur + 1, done := e.done + [Block(e.cur, reqs)], kv := ApplyUnits(e.kv, reqs, held))
  }

  /** One height arriving from the channel. */
  function Receive(e: Exec, height: int, log: Log, held: Requests): Exec {
    if e.aborted || height < e.cur then e else Drain(e.(ahead := e.ahead + {height}), log, held)
  }

  function Feed(e: Exec, heights: seq<int>, log: Log, held: Requests): Exec {
    if heights == [] then e
    else Receive(Feed(e, heights[..|heights| - 1], log, held), heights[|heights| - 1], log, held)
  }

  // ---- Order and at-most-once, whatever is received and held ----

  /** Executed heights are 1, 2, ..., cur - 1, once each and in that order. */
  ghost predicate InOrder(e: Exec) {
    && e.cur >= 1 && |e.done| == e.cur - 1
    && (forall i :: 0 <= i < |e.done| ==> e.done[i].height == i + 1)
    && forall h :: h in e.ahead ==> h >= e.cur
  }

  /** How one drain relates to the state before it. */
  ghost predicate Extends(e: Exec, e': Exec, log: Log)
    requires InOrder(e) && InOrder(e')
  {
    && e.cur <= e'.cur
    && e.done <= e'.done
    && e'.ahead <= e.ahead
    && (forall h :: e.cur <= h < e'.cur ==> RanFrom(e, e', log, h))
    && forall h :: h in e.ahead && h > e'.cur ==> h in e'.ahead
  }

  /** Height h was waiting in `e`, and `e'` executed it with the contents of the log. */
  ghost predicate RanFrom(e: Exec, e': Exec, log: Log, h: int)
    requires InOrder(e') && 1 <= h < e'.cur
  {
    h in e.ahead && h in log && e'.done[h - 1].reqs == log[h].reqs
  }

  lemma {:induction false} DrainInOrder(e: Exec, log: Log, held: Requests)
    requires InOrder(e)
    ensures InOrder(Drain(e, log, held))
    decreases |e.ahead|
  {
    if !e.aborted && e.cur in e.ahead && Decided(log, e.cur) && Present(log[e.cur].reqs, held) {
      DrainInOrder(Executed(e.(ahead := e.ahead - {e.cur}), log[e.cur].reqs, held), log, held);
    }
  }

  lemma {:induction false} DrainExtends(e: Exec, log: Log, held: Requests)
    requires InOrder(e)
    ensures InOrder(Drain(e, log, held)) && Extends(e, Drain(e, log, held), log)
    decreases |e.ahead|
  {
    DrainInOrder(e, log, held);
    if !e.aborted && e.cur in e.ahead {
      var taken := e.(ahead := e.ahead - {e.cur});
      if Decided(log, e.cur) && Present(log[e.cur].reqs, held) {
        var next := Executed(taken, log[e.cur].reqs, held);
        DrainExtends(next, log, held);
        var e' := Drain(next, log, held);
        forall h | e.cur <= h < e'.cur
          ensures RanFrom(e, e', log, h)
        {
          if h == e.cur {
            assert next.done[h - 1] == e'.done[h - 1];
          } else {
            assert RanFrom(next, e', log, h);
          }
        }
      }
    }
  }

  /** A drain aborts only on a received height without a prepared and committed entry. */
  lemma {:induction false} DrainDoesNotAbort(e: Exec, log: Log, held: Requests)
    requires !e.aborted && forall h :: h in e.ahead ==> Decided(log, h)
    ensures !Drain(e, log, held).aborted
    decreases |e.ahead|
  {
    if e.cur in e.ahead {
      var taken := e.(ahead := e.ahead - {e.cur});
      if Present(log[e.cur].reqs, held) {
        DrainDoesNotAbort(Executed(taken, log[e.cur].reqs, held), log, held);
      }
    }
  }

  ghost predicate Submap(a: Requests, b: Requests) {
    forall s :: s in a ==> s in b && b[s] == a[s]
  }

  lemma {:induction false} ApplyUnitsAgree(kv: Store, reqs: seq<Unit>, a: Requests, b: Requests)
    requires Present(reqs, a) && Submap(a, b)
    ensures ApplyUnits(kv, reqs, a) == ApplyUnits(kv, reqs, b)
  {
    if reqs != [] {
      ApplyUnitsAgree(kv, reqs[..|reqs| - 1], a, b);
    }
  }

  /** The store is always the replay of the executed blocks over any larger set of requests. */
  lemma {:induction false} DrainReplays(e: Exec, log: Log, held: Requests, all: Requests)
    requires Submap(held, all) && e.kv == Replay(e.done, all)
    ensures Drain(e, log, held).kv == Replay(Drain(e, log, held).done, all)
    decreases |e.ahead|
  {
    if !e.aborted && e.cur in e.ahead {
      var taken := e.(ahead := e.ahead - {e.cur});
      if Decided(log, e.cur) && Present(log[e.cur].reqs, held) {
        var next := Executed(taken, log[e.cur].reqs, held);
        ApplyUnitsAgree(e.kv, log[e.cur].reqs, held, all);
        assert next.done[..|next.done| - 1] == e.done;
        DrainReplays(next, log, held, all);
      }
    }
  }

  ghost predicate AllPresent(blocks: seq<Block>, all: Requests) {
    forall i :: 0 <= i < |blocks| ==> Present(blocks[i].reqs, all)
  }

  lemma {:induction false} DrainExecutesHeld(e: Exec, log: Log, held: Requests, all: Requests)
    requires Submap(held, all) && AllPresent(e.done, all)
    ensures AllPresent(Drain(e, log, held).done, all)
    decreases |e.ahead|
  {
    if !e.aborted && e.cur in e.ahead {
      var taken := e.(ahead := e.ahead - {e.cur});
      if Decided(log, e.cur) && Present(log[e.cur].reqs, held) {
        DrainExecutesHeld(Executed(taken, log[e.cur].reqs, held), log, held, all);
      }
    }
  }

  lemma {:induction false} ReplayAgrees(blocks: seq<Block>, a: Requests, b: Requests)
    requires AllPresent(blocks, a) && Submap(a, b)
    ensures Replay(blocks, a) == Replay(blocks, b) && AllPresent(blocks, b)
  {
    if blocks != [] {
      var init, last := blocks[..|blocks| - 1], blocks[|blocks| - 1];
      ReplayAgrees(init, a, b);
      ApplyUnitsAgree(Replay(init, a), last.reqs, a, b);
    }
  }

  // ---- What is executed, exactly ----

  ghost predicate Runnable(log: Log, held: Requests, height: int) {
    Decided(log, height) && Present(log[height].reqs, held)
  }

  /** The closed form: everything before `cur` was received and could run, `cur` was not received or could
      not run, and what was received above `cur` waits. */
  ghost predicate Settled(e: Exec, received: set<int>, log: Log, held: Requests) {
    && InOrder(e) && !e.aborted
    && (forall h :: 1 <= h < e.cur ==> h in received && Runnable(log, held, h) && e.done[h - 1].reqs == log[h].reqs)
    && !(e.cur in received && Runnable(log, held, e.cur))
    && forall h :: h in e.ahead <==> h in received && h > e.cur
  }

  ghost function HeightSet(heights: seq<int>): set<int> {
    set h | h in heights
  }

  /** Whatever sequence of heights arrives - reordered, repeated or old - the executor ends in the closed form
      of the set of received heights. */
  lemma {:induction false} FeedSettles(heights: seq<int>, log: Log, held: Requests)
    requires forall h :: h in heights && h >= 1 ==> Decided(log, h)
    ensures Settled(Feed(FRESH, heights, log, held), HeightSet(heights), log, held)
  {
    if heights != [] {
      var init, last := heights[..|heights| - 1], heights[|heights| - 1];
      assert heights == init + [last];
      FeedSettles(init, log, held);
      assert HeightSet(heights) == HeightSet(init) + {last};
      ReceiveSettles(Feed(FRESH, init, log, held), HeightSet(init), last, log, held);
    }
  }

  lemma ReceiveSettles(e: Exec, received: set<int>, height: int, log: Log, held: Requests)
    requires Settled(e, received, log, held) && (height >= 1 ==> Decided(log, height))
    requires forall h :: h in received && h >= 1 ==> Decided(log, h)
    ensures Settled(Receive(e, height, log, held), received + {height}, log, held)
  {
    if height >= e.cur {
      var fed := e.(ahead := e.ahead + {height});
      DrainSettles(fed, received + {height}, log, held);
    }
  }

  /** A state on its way to the closed form. */
  ghost predicate Settling(e: Exec, received: set<int>, log: Log, held: Requests) {
    && InOrder(e) && !e.aborted
    && (forall h :: 1 <= h < e.cur ==> h in received && Runnable(log, held, h) && e.done[h - 1].reqs == log[h].reqs)
    && (e.cur in received && Runnable(log, held, e.cur) ==> e.cur in e.ahead)
    && (forall h :: h in e.ahead ==> h in received)
    && forall h :: h in received && h > e.cur ==> h in e.ahead
  }

  lemma {:induction false} DrainSettles(e: Exec, received: set<int>, log: Log, held: Requests)
    requires Settling(e, received, log, held)
    requires forall h :: h in received && h >= 1 ==> Decided(log, h)
    ensures Settled(Drain(e, log, held), received, log, held)
    decreases |e.ahead|
  {
    if e.cur in e.ahead {
      var taken := e.(ahead := e.ahead - {e.cur});
      if Present(log[e.cur].reqs, held) {
        DrainSettles(Executed(taken, log[e.cur].reqs, held), received, log, held);
      }
    }
  }

  // ---- Dropped heights ----

  /** The executor waits for a height that it has already taken and dropped. */
  ghost predicate Stalled(e: Exec, taken: set<int>) {
    !e.aborted && InOrder(e) && e.cur in taken && e.cur !in e.ahead
  }

  /** Once a height was taken while a request was missing, no later arrival other than that height itself
      moves the executor again, even if all requests are held by then. */
  lemma {:induction false} StallIsPermanent(e: Exec, taken: set<int>, heights: seq<int>, log: Log, held: Requests)
    requires Stalled(e, taken) && e.cur !in heights
    ensures Feed(e, heights, log, held).cur == e.cur && Feed(e, heights, log, held).done == e.done
    ensures Stalled(Feed(e, heights, log, held), taken)
  {
    if heights != [] {
      var init, last := heights[..|heights| - 1], heights[|heights| - 1];
      assert heights == init + [last];
      StallIsPermanent(e, taken, init, log, held);
      var before := Feed(e, init, log, held);
      if last >= e.cur {
        assert e.cur !in before.ahead + {last};
      }
    }
  }

  /** Taking the next height stalls the executor exactly when one of its requests is missing at that moment. */
  lemma TakeStallsIff(e: Exec, log: Log, held: Requests)
    requires InOrder(e) && !e.aborted && e.cur !in e.ahead && Decided(log, e.cur)
    requires forall h :: h in e.ahead ==> Decided(log, h)
    ensures Receive(e, e.cur, log, held).cur > e.cur <==> Present(log[e.cur].reqs, held)
    ensures !Present(log[e.cur].reqs, held) ==> Stalled(Receive(e, e.cur, log, held), {e.cur})
  {
    var fed := e.(ahead := e.ahead + {e.cur});
    if Present(log[e.cur].reqs, held) {
      var next := Executed(fed.(ahead := fed.ahead - {e.cur}), log[e.cur].reqs, held);
      DrainExtends(next, log, held);
    }
  }
}
