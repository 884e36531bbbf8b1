/** The key-value store and the execution of transaction batches. */
module Ycsb {
  import opened Types

  type Store = map<string, string>

  function ApplyOp(kv: Store, op: Op): Store {
    if op.kind == OpRead then kv else kv[op.key := op.val]
  }

  function ApplyOps(kv: Store, ops: seq<Op>): Store {
    if ops == [] then kv else ApplyOp(ApplyOps(kv, ops[..|ops| - 1]), ops[|ops| - 1])
  }

  function ApplyTxs(kv: Store, txs: seq<Tx>): Store {
    if txs == [] then kv else ApplyOps(ApplyTxs(kv, txs[..|txs| - 1]), txs[|txs| - 1].ops)
  }

  // ---- What a batch does to each key, by the place of its operations ----

  function Lookup(kv: Store, key: string): Option<string> {
    if key in kv then Some(kv[key]) else None
  }

  /** Reads leave the store alone; writes and updates are writes. */
  predicate Writes(op: Op, key: string) {
    (op.kind == OpWrite || op.kind == OpUpdate) && op.key == key
  }

  /** Position of the last write of `key` in one transaction. */
  ghost predicate LastWriteAt(ops: seq<Op>, key: string, i: nat) {
    && i < |ops| && Writes(ops[i], key)
    && forall j :: i < j < |ops| ==> !Writes(ops[j], key)
  }

  ghost predicate Untouched(ops: seq<Op>, key: string) {
    forall j :: 0 <= j < |ops| ==> !Writes(ops[j], key)
  }

  lemma {:induction false} UntouchedKeeps(kv: Store, ops: seq<Op>, key: string)
    requires Untouched(ops, key)
    ensures Lookup(ApplyOps(kv, ops), key) == Lookup(kv, key)
  {
    if ops != [] {
      UntouchedKeeps(kv, ops[..|ops| - 1], key);
    }
  }

  lemma {:induction false} LastWriteStays(kv: Store, ops: seq<Op>, key: string, i: nat)
    requires LastWriteAt(ops, key, i)
    ensures Lookup(ApplyOps(kv, ops), key) == Some(ops[i].val)
  {
    if i < |ops| - 1 {
      LastWriteStays(kv, ops[..|ops| - 1], key, i);
    }
  }

  lemma {:induction false} LastWriteExists(ops: seq<Op>, key: string) returns (i: nat)
    requires !Untouched(ops, key)
    ensures LastWriteAt(ops, key, i)
  {
    i := |ops| - 1;
    if !Writes(ops[i], key) {
      i := LastWriteExists(ops[..|ops| - 1], key);
    }
  }

  /** Operation `o` of transaction `t`. */
  ghost predicate HasOp(txs: seq<Tx>, t: nat, o: nat) {
    t < |txs| && o < |txs[t].ops|
  }

  /** Operations come in the order of their transactions, and within a transaction in their own order. */
  ghost predicate Later(t: nat, o: nat, t': nat, o': nat) {
    t < t' || (t == t' && o < o')
  }

  ghost predicate NeverWritten(txs: seq<Tx>, key: string) {
    forall t: nat, o: nat :: HasOp(txs, t, o) ==> !Writes(txs[t].ops[o], key)
  }

  /** The write after which the batch does not write the key again. */
  ghost predicate LastWriteIn(txs: seq<Tx>, key: string, t: nat, o: nat) {
    && HasOp(txs, t, o) && Writes(txs[t].ops[o], key)
    && forall t': nat, o': nat :: HasOp(txs, t', o') && Later(t, o, t', o') ==> !Writes(txs[t'].ops[o'], key)
  }

  /** What a batch makes of a store: each key holds its last written value, or what it held before if the batch
      never writes it. */
  ghost predicate BatchEffect(before: Store, after: Store, txs: seq<Tx>) {
    && (forall key :: NeverWritten(txs, key) ==> Lookup(after, key) == Lookup(before, key))
    && forall key, t: nat, o: nat :: LastWriteIn(txs, key, t, o) ==> Lookup(after, key) == Some(txs[t].ops[o].val)
  }

  lemma {:induction false} NeverWrittenKeeps(kv: Store, txs: seq<Tx>, key: string)
    requires NeverWritten(txs, key)
    ensures Lookup(ApplyTxs(kv, txs), key) == Lookup(kv, key)
  {
    if txs != [] {
      var init, last, n := txs[..|txs| - 1], txs[|txs| - 1], |txs| - 1;
      assert forall o: nat :: o < |last.ops| ==> HasOp(txs, n, o);
      assert forall t: nat, o: nat :: HasOp(init, t, o) ==> HasOp(txs, t, o);
      NeverWrittenKeeps(kv, init, key);
      UntouchedKeeps(ApplyTxs(kv, init), last.ops, key);
    }
  }

  lemma {:induction false} LastWriteInStays(kv: Store, txs: seq<Tx>, key: string, t: nat, o: nat)
    requires LastWriteIn(txs, key, t, o)
    ensures Lookup(ApplyTxs(kv, txs), key) == Some(txs[t].ops[o].val)
  {
    var init, last, n := txs[..|txs| - 1], txs[|txs| - 1], |txs| - 1;
    assert forall o': nat :: o' < |last.ops| ==> HasOp(txs, n, o');
    if t == |txs| - 1 {
      LastWriteStays(ApplyTxs(kv, init), last.ops, key, o);
    } else {
      assert forall t': nat, o': nat :: HasOp(init, t', o') ==> HasOp(txs, t', o');
      LastWriteInStays(kv, init, key, t, o);
      UntouchedKeeps(ApplyTxs(kv, init), last.ops, key);
    }
  }

  lemma {:induction false} LastWriteInExists(txs: seq<Tx>, key: string) returns (t: nat, o: nat)
    requires !NeverWritten(txs, key)
    ensures LastWriteIn(txs, key, t, o)
  {
    var init, last := txs[..|txs| - 1], txs[|txs| - 1];
    if Untouched(last.ops, key) {
      assert forall t': nat, o': nat :: HasOp(txs, t', o') && t' < |txs| - 1 ==> HasOp(init, t', o');
      t, o := LastWriteInExists(init, key);
    } else {
      t := |txs| - 1;
      o := LastWriteExists(last.ops, key);
    }
  }

  /** After a batch every key holds its last written value, or what it held before if the batch never writes it. */
  lemma LastWriterWins(kv: Store, txs: seq<Tx>)
    ensures BatchEffect(kv, ApplyTxs(kv, txs), txs)
  {
    forall key | NeverWritten(txs, key)
      ensures Lookup(ApplyTxs(kv, txs), key) == Lookup(kv, key)
    {
      NeverWrittenKeeps(kv, txs, key);
    }
    forall key, t: nat, o: nat | LastWriteIn(txs, key, t, o)
      ensures Lookup(ApplyTxs(kv, txs), key) == Some(txs[t].ops[o].val)
    {
      LastWriteInStays(kv, txs, key, t, o);
    }
  }

  /** That leaves no choice: the effect determines the store. */
  lemma BatchEffectDetermines(before: Store, a: Store, b: Store, txs: seq<Tx>)
    requires BatchEffect(before, a, txs) && BatchEffect(before, b, txs)
    ensures a == b
  {
    forall key ensures Lookup(a, key) == Lookup(b, key) {
      if !NeverWritten(txs, key) {
        var t, o := LastWriteInExists(txs, key);
      }
    }
    SameLookups(a, b);
  }

  lemma SameLookups(a: Store, b: Store)
    requires forall key :: Lookup(a, key) == Lookup(b, key)
    ensures a == b
  {
    forall key ensures key in a <==> key in b {
      assert Lookup(a, key) == Lookup(b, key);
    }
    forall key | key in a ensures a[key] == b[key] {
      assert Lookup(a, key) == Lookup(b, key);
    }
  }

  class Database {
    var kv: Store

    constructor ()
      ensures kv == map[]
    {
      kv := map[];
    }

    method Read(key: string) returns (val: string)
      ensures val == if key in kv then kv[key] else ""
    {
      val := if key in kv then kv[key] else "";
    }

    method Write(key: string, val: string)
      modifies this
      ensures kv == old(kv)[key := val]
    {
      kv := kv[key := val];
    }

    method Update(key: string, val: string)
      modifies this
      ensures kv == old(kv)[key := val]
    {
      kv := kv[key := val];
    }

    /** Runs every operation of every transaction in order; returns the number of transactions. */
    method ExecTxSet(txs: seq<Tx>) returns (count: nat)
      modifies this
      ensures kv == ApplyTxs(old(kv), txs)
      ensures BatchEffect(old(kv), kv, txs)
      ensures count == |txs|
    {
      for i := 0 to |txs|
        invariant kv == ApplyTxs(old(kv), txs[..i])
      {
        ghost var before := kv;
        for j := 0 to |txs[i].ops|
          invariant kv == ApplyOps(before, txs[i].ops[..j])
        {
          var op := txs[i].ops[j];
          if op.kind == OpRead {
            var _ := Read(op.key);
          } else if op.kind == OpWrite {
            Write(op.key, op.val);
          } else {
            Update(op.key, op.val);
          }
          assert txs[i].ops[..j + 1][..j] == txs[i].ops[..j];
        }
        assert txs[i].ops[..|txs[i].ops|] == txs[i].ops;
        assert txs[..i + 1][..i] == txs[..i];
      }
      assert txs[..|txs|] == txs;
      LastWriterWins(old(kv), txs);
      count := |txs|;
    }
  }
}
