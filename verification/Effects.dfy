/** What executing blocks does to each key, by the place of the operations: block, request, transaction, operation. */
module Effects {
  import opened Types
  import opened Ycsb
  import opened ExecSpec

  // ---- One block ----

  /** Operation `o` of transaction `t` of request `r` of a block. */
  ghost predicate InBlock(reqs: seq<Unit>, held: Requests, r: nat, t: nat, o: nat) {
    r < |reqs| && reqs[r].seqNo in held && HasOp(held[reqs[r].seqNo].txs, t, o)
  }

  function OpIn(reqs: seq<Unit>, held: Requests, r: nat, t: nat, o: nat): Op
    requires InBlock(reqs, held, r, t, o)
  {
    held[reqs[r].seqNo].txs[t].ops[o]
  }

  /** Operations come in the order of their requests, and within a request in their own order. */
  ghost predicate LaterInBlock(r: nat, t: nat, o: nat, r': nat, t': nat, o': nat) {
    r < r' || (r == r' && Later(t, o, t', o'))
  }

  ghost predicate BlockNeverWrites(reqs: seq<Unit>, held: Requests, key: string) {
    forall r: nat, t: nat, o: nat :: InBlock(reqs, held, r, t, o) ==> !Writes(OpIn(reqs, held, r, t, o), key)
  }

  ghost predicate LastInBlock(reqs: seq<Unit>, held: Requests, key: string, r: nat, t: nat, o: nat) {
    && InBlock(reqs, held, r, t, o) && Writes(OpIn(reqs, held, r, t, o), key)
    && forall r': nat, t': nat, o': nat :: InBlock(reqs, held, r', t', o') && LaterInBlock(r, t, o, r', t', o')
         ==> !Writes(OpIn(reqs, held, r', t', o'), key)
  }

  /** What a block makes of a store: each key holds the value of its last write over the whole block, or what it
      held before if the block never writes it. */
  ghost predicate BlockEffect(before: Store, after: Store, reqs: seq<Unit>, held: Requests) {
    && (forall key :: BlockNeverWrites(reqs, held, key) ==> Lookup(after, key) == Lookup(before, key))
    && forall key, r: nat, t: nat, o: nat :: LastInBlock(reqs, held, key, r, t, o)
         ==> Lookup(after, key) == Some(OpIn(reqs, held, r, t, o).val)
  }

  /** The last request of a block is executed last. */
  lemma SplitBlock(reqs: seq<Unit>, held: Requests)
    requires reqs != [] && Present(reqs, held)
    ensures var init, last := reqs[..|reqs| - 1], reqs[|reqs| - 1].seqNo;
            && Present(init, held) && last in held && TxsOf(held, last) == held[last].txs
            && (forall kv :: ApplyUnits(kv, reqs, held) == ApplyTxs(ApplyUnits(kv, init, held), held[last].txs))
            && forall r: nat, t: nat, o: nat ::
                 InBlock(reqs, held, r, t, o) <==> InBlock(init, held, r, t, o) || (r == |init| && HasOp(held[last].txs, t, o))
  {
  }

  lemma {:induction false} BlockKeeps(kv: Store, reqs: seq<Unit>, held: Requests, key: string)
    requires Present(reqs, held) && BlockNeverWrites(reqs, held, key)
    ensures Lookup(ApplyUnits(kv, reqs, held), key) == Lookup(kv, key)
  {
    if reqs != [] {
      var init, last, n := reqs[..|reqs| - 1], reqs[|reqs| - 1].seqNo, |reqs| - 1;
      SplitBlock(reqs, held);
      hide ApplyUnits;
      forall t: nat, o: nat | HasOp(held[last].txs, t, o)
        ensures !Writes(held[last].txs[t].ops[o], key)
      {
        assert InBlock(reqs, held, n, t, o);
      }
      assert forall r: nat, t: nat, o: nat :: InBlock(init, held, r, t, o) ==> InBlock(reqs, held, r, t, o);
      BlockKeeps(kv, init, held, key);
      NeverWrittenKeeps(ApplyUnits(kv, init, held), held[last].txs, key);
    }
  }

  lemma {:induction false} BlockLastStays(kv: Store, reqs: seq<Unit>, held: Requests, key: string, r: nat, t: nat, o: nat)
    requires Present(reqs, held) && LastInBlock(reqs, held, key, r, t, o)
    ensures Lookup(ApplyUnits(kv, reqs, held), key) == Some(OpIn(reqs, held, r, t, o).val)
  {
    var init, last, n := reqs[..|reqs| - 1], reqs[|reqs| - 1].seqNo, |reqs| - 1;
    SplitBlock(reqs, held);
    hide ApplyUnits;
    assert forall t': nat, o': nat :: HasOp(held[last].txs, t', o') ==> InBlock(reqs, held, n, t', o');
    if r == n {
      LastWriteInStays(ApplyUnits(kv, init, held), held[last].txs, key, t, o);
    } else {
      assert forall r': nat, t': nat, o': nat :: InBlock(init, held, r', t', o') ==> InBlock(reqs, held, r', t', o');
      BlockLastStays(kv, init, held, key, r, t, o);
      NeverWrittenKeeps(ApplyUnits(kv, init, held), held[last].txs, key);
    }
  }

  lemma {:induction false} BlockLastExists(reqs: seq<Unit>, held: Requests, key: string) returns (r: nat, t: nat, o: nat)
    requires Present(reqs, held) && !BlockNeverWrites(reqs, held, key)
    ensures LastInBlock(reqs, held, key, r, t, o)
  {
    var init, last, n := reqs[..|reqs| - 1], reqs[|reqs| - 1].seqNo, |reqs| - 1;
    SplitBlock(reqs, held);
    if NeverWritten(held[last].txs, key) {
      r, t, o := BlockLastExists(init, held, key);
    } else {
      r := n;
      t, o := LastWriteInExists(held[last].txs, key);
    }
  }

  /** Executing a block whose requests are all held has the block's effect. */
  lemma BlockHasItsEffect(kv: Store, reqs: seq<Unit>, held: Requests)
    requires Present(reqs, held)
    ensures BlockEffect(kv, ApplyUnits(kv, reqs, held), reqs, held)
  {
    hide ApplyUnits, BlockNeverWrites, Present;
    forall key | BlockNeverWrites(reqs, held, key)
      ensures Lookup(ApplyUnits(kv, reqs, held), key) == Lookup(kv, key)
    {
      BlockKeeps(kv, reqs, held, key);
    }
    forall key, r: nat, t: nat, o: nat | LastInBlock(reqs, held, key, r, t, o)
      ensures InBlock(reqs, held, r, t, o) && Lookup(ApplyUnits(kv, reqs, held), key) == Some(OpIn(reqs, held, r, t, o).val)
    {
      BlockLastStays(kv, reqs, held, key, r, t, o);
    }
  }

  /** The effect determines the store. */
  lemma BlockEffectDetermines(before: Store, a: Store, b: Store, reqs: seq<Unit>, held: Requests)
    requires Present(reqs, held) && BlockEffect(before, a, reqs, held) && BlockEffect(before, b, reqs, held)
    ensures a == b
  {
    forall key ensures Lookup(a, key) == Lookup(b, key) {
      if !BlockNeverWrites(reqs, held, key) {
        var r, t, o := BlockLastExists(reqs, held, key);
      }
    }
    SameLookups(a, b);
  }

  // ---- A chain of blocks ----

  /** The operation at a place of a chain of blocks. */
  datatype Place = Place(b: nat, r: nat, t: nat, o: nat)

  ghost predicate InChain(blocks: seq<Block>, held: Requests, p: Place) {
    p.b < |blocks| && InBlock(blocks[p.b].reqs, held, p.r, p.t, p.o)
  }

  function OpAt(blocks: seq<Block>, held: Requests, p: Place): Op
    requires InChain(blocks, held, p)
  {
    OpIn(blocks[p.b].reqs, held, p.r, p.t, p.o)
  }

  /** The lexicographic order of places. */
  ghost predicate Precedes(p: Place, q: Place) {
    p.b < q.b || (p.b == q.b && (p.r < q.r || (p.r == q.r && (p.t < q.t || (p.t == q.t && p.o < q.o)))))
  }

  ghost predicate ChainNeverWrites(blocks: seq<Block>, held: Requests, key: string) {
    forall p :: InChain(blocks, held, p) ==> !Writes(OpAt(blocks, held, p), key)
  }

  ghost predicate LastInChain(blocks: seq<Block>, held: Requests, key: string, p: Place) {
    && InChain(blocks, held, p) && Writes(OpAt(blocks, held, p), key)
    && forall q :: InChain(blocks, held, q) && Precedes(p, q) ==> !Writes(OpAt(blocks, held, q), key)
  }

  /** The store a chain of blocks leaves: it has exactly the keys that are written somewhere in the chain, each
      with the value of its last write. */
  ghost predicate IsStoreOf(kv: Store, blocks: seq<Block>, held: Requests) {
    && (forall key :: key in kv <==> !ChainNeverWrites(blocks, held, key))
    && forall key, p :: LastInChain(blocks, held, key, p) ==> key in kv && kv[key] == OpAt(blocks, held, p).val
  }

  lemma SplitChain(blocks: seq<Block>, held: Requests)
    requires blocks != [] && AllPresent(blocks, held)
    ensures var init, last := blocks[..|blocks| - 1], blocks[|blocks| - 1];
            && AllPresent(init, held) && Present(last.reqs, held)
            && Replay(blocks, held) == ApplyUnits(Replay(init, held), last.reqs, held)
            && forall p :: InChain(blocks, held, p)
                 <==> InChain(init, held, p) || (p.b == |init| && InBlock(last.reqs, held, p.r, p.t, p.o))
  {
  }

  lemma {:induction false} ChainKeeps(blocks: seq<Block>, held: Requests, key: string)
    requires AllPresent(blocks, held) && ChainNeverWrites(blocks, held, key)
    ensures key !in Replay(blocks, held)
  {
    if blocks != [] {
      var init, last, n := blocks[..|blocks| - 1], blocks[|blocks| - 1], |blocks| - 1;
      SplitChain(blocks, held);
      hide Replay;
      forall r: nat, t: nat, o: nat | InBlock(last.reqs, held, r, t, o)
        ensures !Writes(OpIn(last.reqs, held, r, t, o), key)
      {
        assert InChain(blocks, held, Place(n, r, t, o));
      }
      assert forall p :: InChain(init, held, p) ==> InChain(blocks, held, p);
      ChainKeeps(init, held, key);
      BlockKeeps(Replay(init, held), last.reqs, held, key);
    }
  }

  lemma {:induction false} ChainLastStays(blocks: seq<Block>, held: Requests, key: string, p: Place)
    requires AllPresent(blocks, held) && LastInChain(blocks, held, key, p)
    ensures Lookup(Replay(blocks, held), key) == Some(OpAt(blocks, held, p).val)
  {
    var init, last, n := blocks[..|blocks| - 1], blocks[|blocks| - 1], |blocks| - 1;
    SplitChain(blocks, held);
    hide Replay;
    assert forall r: nat, t: nat, o: nat :: InBlock(last.reqs, held, r, t, o) ==> InChain(blocks, held, Place(n, r, t, o));
    if p.b == n {
      BlockLastStays(Replay(init, held), last.reqs, held, key, p.r, p.t, p.o);
    } else {
      assert forall q :: InChain(init, held, q) ==> InChain(blocks, held, q);
      ChainLastStays(init, held, key, p);
      BlockKeeps(Replay(init, held), last.reqs, held, key);
    }
  }

  lemma {:induction false} ChainLastExists(blocks: seq<Block>, held: Requests, key: string) returns (p: Place)
    requires AllPresent(blocks, held) && !ChainNeverWrites(blocks, held, key)
    ensures LastInChain(blocks, held, key, p)
  {
    var init, last, n := blocks[..|blocks| - 1], blocks[|blocks| - 1], |blocks| - 1;
    SplitChain(blocks, held);
    if BlockNeverWrites(last.reqs, held, key) {
      p := ChainLastExists(init, held, key);
    } else {
      var r, t, o := BlockLastExists(last.reqs, held, key);
      p := Place(n, r, t, o);
    }
  }

  /** Replaying blocks whose requests are all held leaves the store of the chain. */
  lemma ReplayIsStore(blocks: seq<Block>, held: Requests)
    requires AllPresent(blocks, held)
    ensures IsStoreOf(Replay(blocks, held), blocks, held)
  {
    hide Replay, AllPresent, ChainNeverWrites;
    forall key
      ensures key in Replay(blocks, held) <==> !ChainNeverWrites(blocks, held, key)
    {
      if ChainNeverWrites(blocks, held, key) {
        ChainKeeps(blocks, held, key);
      } else {
        var p := ChainLastExists(blocks, held, key);
        ChainLastStays(blocks, held, key, p);
      }
    }
    forall key, p | LastInChain(blocks, held, key, p)
      ensures key in Replay(blocks, held) && InChain(blocks, held, p)
              && Replay(blocks, held)[key] == OpAt(blocks, held, p).val
    {
      ChainLastStays(blocks, held, key, p);
    }
  }
}
