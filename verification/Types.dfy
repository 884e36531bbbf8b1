/** Values shared by the replication modules. */
module Types {

  datatype Option<+T> = None | Some(value: T)

  /** Position of a node in the configured peer list. Position 0 is the only proposer. */
  type NodeId = nat

  datatype OpType = OpRead | OpWrite | OpUpdate

  datatype Op = Op(kind: OpType, key: string, val: string)

  datatype Tx = Tx(ops: seq<Op>)

  /** A batch of transactions under certification. */
  datatype Request = Request(txs: seq<Tx>, txNum: int)

  /** A certified request, named by its sequence number. */
  datatype Unit = Unit(seqNo: int, origin: NodeId, txNum: int)

  /** A block as it is executed: its height and its requests. */
  datatype Block = Block(height: int, reqs: seq<Unit>)

  /** What a node keeps about one height. */
  datatype Entry = Entry(
    reqs: seq<Unit>,
    prepareConfirms: seq<NodeId>,
    commitConfirms: seq<NodeId>,
    prepared: bool,
    committed: bool,
    executed: bool)

  type Log = map<int, Entry>

  /** The requests a node holds, by sequence number. */
  type Requests = map<int, Request>

  ghost predicate NoRepeats<T>(s: seq<T>) {
    forall i, j :: 0 <= i < j < |s| ==> s[i] != s[j]
  }

  /** The sequence with position `i` taken out. */
  function Without<T>(s: seq<T>, i: nat): seq<T>
    requires i < |s|
  {
    s[..i] + s[i + 1..]
  }

  lemma {:induction false} SizeOfElements<T>(s: seq<T>)
    requires NoRepeats(s)
    ensures |set x | x in s| == |s|
  {
    if s != [] {
      var init, last := s[..|s| - 1], s[|s| - 1];
      SizeOfElements(init);
      assert s == init + [last];
      assert (set x | x in s) == (set x | x in init) + {last};
    }
  }

  lemma SubsetSize<T>(a: set<T>, b: set<T>)
    requires a <= b
    ensures |a| <= |b|
  {
    assert b == a + (b - a);
  }

  /** Distinct elements drawn from `b` are no more than `b` is long. */
  lemma DistinctFitsIn<T>(a: seq<T>, b: seq<T>)
    requires NoRepeats(a) && NoRepeats(b) && forall x :: x in a ==> x in b
    ensures |a| <= |b|
  {
    SizeOfElements(a);
    SizeOfElements(b);
    SubsetSize((set x | x in a), (set x | x in b));
  }
}
