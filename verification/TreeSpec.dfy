/** Broadcast trees as values: breadth-first lookup, and the complete k-ary tree over a list of ids. */
module TreeSpec {
  import opened Types
  import SeqNums

  datatype Tree = Node(id: int, children: seq<Tree>)

  // ---- Breadth-first lookup ----

  /** The ids of a forest, with multiplicity. */
  ghost function Ids(f: seq<Tree>): multiset<int>
    decreases f
  {
    if f == [] then multiset{} else multiset{f[0].id} + Ids(f[0].children) + Ids(f[1..])
  }

  lemma {:induction false} IdsInParts(a: seq<Tree>, b: seq<Tree>)
    ensures Ids(a + b) == Ids(a) + Ids(b)
  {
    if a == [] {
      assert a + b == b;
    } else {
      assert (a + b)[1..] == a[1..] + b;
      IdsInParts(a[1..], b);
    }
  }

  /** A step of the search keeps every other id. */
  lemma IdsOfNext(f: seq<Tree>)
    requires f != []
    ensures Ids(f) == multiset{f[0].id} + Ids(f[1..] + f[0].children)
    ensures |Ids(f[1..] + f[0].children)| < |Ids(f)|
  {
    IdsInParts(f[1..], f[0].children);
  }

  function ChildIds(t: Tree): seq<int> {
    seq(|t.children|, i requires 0 <= i < |t.children| => t.children[i].id)
  }

  /** The child ids of the first node with the id, breadth first, or none. */
  ghost function Search(f: seq<Tree>, id: int): seq<int>
    decreases |Ids(f)|
  {
    if f == [] then []
    else if f[0].id == id then ChildIds(f[0])
    else IdsOfNext(f); Search(f[1..] + f[0].children, id)
  }

  ghost predicate Occurs(s: Tree, f: seq<Tree>)
    decreases f
  {
    f != [] && (s == f[0] || Occurs(s, f[0].children) || Occurs(s, f[1..]))
  }

  lemma {:induction false} OccursInParts(s: Tree, a: seq<Tree>, b: seq<Tree>)
    ensures Occurs(s, a + b) <==> Occurs(s, a) || Occurs(s, b)
  {
    if a == [] {
      assert a + b == b;
    } else {
      assert (a + b)[1..] == a[1..] + b;
      OccursInParts(s, a[1..], b);
    }
  }

  lemma {:induction false} OccurrenceIsCounted(s: Tree, f: seq<Tree>)
    requires Occurs(s, f)
    ensures s.id in Ids(f)
    decreases f
  {
    if s == f[0] {
    } else if Occurs(s, f[0].children) {
      OccurrenceIsCounted(s, f[0].children);
    } else {
      OccurrenceIsCounted(s, f[1..]);
    }
  }

  /** With distinct ids the search returns exactly the children of the node with the id, wherever it is. */
  lemma {:induction false} SearchFinds(f: seq<Tree>, s: Tree)
    requires Occurs(s, f) && forall x :: Ids(f)[x] <= 1
    ensures Search(f, s.id) == ChildIds(s)
    decreases |Ids(f)|
  {
    IdsOfNext(f);
    IdsInParts(f[1..], f[0].children);
    OccursInParts(s, f[1..], f[0].children);
    var next := f[1..] + f[0].children;
    if s != f[0] {
      OccurrenceIsCounted(s, next);
      assert Ids(f)[s.id] <= 1;
      forall x ensures Ids(next)[x] <= 1 {
        assert Ids(f)[x] <= 1;
      }
      SearchFinds(next, s);
    }
  }

  /** An id that is nowhere in the tree has no children. */
  lemma {:induction false} SearchMisses(f: seq<Tree>, id: int)
    requires id !in Ids(f)
    ensures Search(f, id) == []
    decreases |Ids(f)|
  {
    if f != [] {
      IdsOfNext(f);
      SearchMisses(f[1..] + f[0].children, id);
    }
  }

  // ---- The complete tree ----

  /** Where the children of position j begin; they end where those of position j + 1 begin. */
  function FirstChild(k: int, n: nat, j: nat): (r: nat)
    requires k >= 1
    ensures r <= n && (j < n ==> j < r)
  {
    assert k * j >= j;
    if k * j + 1 < n then k * j + 1 else n
  }

  lemma FirstChildGrows(k: int, n: nat, i: nat, j: nat)
    requires k >= 1 && i <= j
    ensures k * i <= k * j
    ensures i < j ==> k * i + k <= k * j
    ensures FirstChild(k, n, i) <= FirstChild(k, n, j)
  {
    if i < j {
      assert k * (j - i - 1) >= 0;
    }
  }

  /** The subtree at position j when the ids are handed out level by level, k to a node. */
  ghost function Complete(k: int, ids: seq<int>, j: nat): Tree
    requires k >= 1 && j < |ids|
    decreases |ids| - j, 1
  {
    FirstChildGrows(k, |ids|, j, j + 1);
    Node(ids[j], Row(k, ids, FirstChild(k, |ids|, j), FirstChild(k, |ids|, j + 1)))
  }

  /** The subtrees at positions lo..hi. */
  ghost function Row(k: int, ids: seq<int>, lo: nat, hi: nat): (r: seq<Tree>)
    requires k >= 1 && lo <= hi <= |ids|
    ensures |r| == hi - lo
    ensures forall i :: 0 <= i < |r| ==> r[i] == Complete(k, ids, lo + i)
    decreases |ids| - lo, 2
  {
    if lo == hi then [] else [Complete(k, ids, lo)] + Row(k, ids, lo + 1, hi)
  }

  lemma ChildrenOf(k: int, ids: seq<int>, j: nat)
    requires k >= 1 && j < |ids|
    ensures FirstChild(k, |ids|, j) <= FirstChild(k, |ids|, j + 1)
    ensures ChildIds(Complete(k, ids, j)) == ids[FirstChild(k, |ids|, j)..FirstChild(k, |ids|, j + 1)]
    ensures |Complete(k, ids, j).children| <= k
  {
    FirstChildGrows(k, |ids|, j, j + 1);
  }

  /** What the search has left to look at when it comes to position j. */
  ghost function Pending(k: int, ids: seq<int>, j: nat): seq<Tree>
    requires k >= 1 && j <= |ids|
  {
    Row(k, ids, j, if j == |ids| then j else FirstChild(k, |ids|, j))
  }

  lemma PendingNext(k: int, ids: seq<int>, j: nat)
    requires k >= 1 && j < |ids|
    ensures Pending(k, ids, j) != [] && Pending(k, ids, j)[0] == Complete(k, ids, j)
    ensures Complete(k, ids, j).id == ids[j]
    ensures Pending(k, ids, j)[1..] + Complete(k, ids, j).children == Pending(k, ids, j + 1)
  {
    FirstChildGrows(k, |ids|, j, j + 1);
  }

  lemma PendingEnds(k: int, ids: seq<int>)
    requires k >= 1
    ensures Ids(Pending(k, ids, |ids|)) == multiset{}
  {
  }

  lemma PendingStep(k: int, ids: seq<int>, j: nat)
    requires k >= 1 && j < |ids|
    ensures Ids(Pending(k, ids, j)) == multiset{ids[j]} + Ids(Pending(k, ids, j + 1))
  {
    hide Pending, Complete, Row, FirstChild, Ids;
    PendingNext(k, ids, j);
    IdsOfNext(Pending(k, ids, j));
  }

  lemma TailElements(s: seq<int>, j: nat)
    requires j < |s|
    ensures multiset(s[j..]) == multiset{s[j]} + multiset(s[j + 1..])
  {
    assert s[j..] == [s[j]] + s[j + 1..];
  }

  lemma {:induction false} PendingIds(k: int, ids: seq<int>, j: nat)
    requires k >= 1 && j <= |ids|
    ensures Ids(Pending(k, ids, j)) == multiset(ids[j..])
    decreases |ids| - j
  {
    hide Pending, Ids;
    if j == |ids| {
      PendingEnds(k, ids);
    } else {
      PendingStep(k, ids, j);
      PendingIds(k, ids, j + 1);
      TailElements(ids, j);
    }
  }

  /** Every id is in the tree as often as in the list: none is dropped, none is repeated. */
  lemma CompleteSpans(k: int, ids: seq<int>)
    requires k >= 1 && ids != []
    ensures Ids([Complete(k, ids, 0)]) == multiset(ids)
  {
    PendingIds(k, ids, 0);
    assert Pending(k, ids, 0) == [Complete(k, ids, 0)];
    assert ids[0..] == ids;
  }

  lemma {:induction false} SearchPending(k: int, ids: seq<int>, j: nat, m: nat)
    requires k >= 1 && j <= m < |ids| && NoRepeats(ids)
    ensures Search(Pending(k, ids, j), ids[m]) == ChildIds(Complete(k, ids, m))
    decreases m - j
  {
    PendingNext(k, ids, j);
    if j < m {
      SearchPending(k, ids, j + 1, m);
    }
  }

  /** The m-th id's children are the ids at positions k*m + 1 to k*m + k, as far as there are any. */
  lemma SearchComplete(k: int, ids: seq<int>, m: nat)
    requires k >= 1 && m < |ids| && NoRepeats(ids)
    ensures FirstChild(k, |ids|, m) <= FirstChild(k, |ids|, m + 1)
    ensures Search([Complete(k, ids, 0)], ids[m]) == ids[FirstChild(k, |ids|, m)..FirstChild(k, |ids|, m + 1)]
  {
    SearchPending(k, ids, 0, m);
    assert Pending(k, ids, 0) == [Complete(k, ids, 0)];
    ChildrenOf(k, ids, m);
  }

  // ---- Depth ----

  /** A node with the id is d steps below the root of t. */
  ghost predicate At(t: Tree, d: nat, id: int) {
    if d == 0 then t.id == id else exists c :: c in t.children && At(c, d - 1, id)
  }

  lemma ProductNotNegative(a: int, b: int)
    requires a >= 0 && b >= 0
    ensures a * b >= 0
  {
  }

  lemma QuotientInRange(k: int, x: nat, q: int)
    requires k >= 1 && k * q <= x < k * q + k
    ensures 0 <= q <= x
  {
    assert k * (-q - 1) == -(k * q) - k;
    assert (k - 1) * q == k * q - q;
    if q < 0 {
      ProductNotNegative(k, -q - 1);
    } else {
      ProductNotNegative(k - 1, q);
    }
  }

  lemma DivideBounds(k: int, x: nat)
    requires k >= 1
    ensures 0 <= x / k <= x && k * (x / k) <= x < k * (x / k) + k
  {
    var q, r := x / k, x % k;
    assert x == q * k + r;
    assert 0 <= r < k;
    QuotientInRange(k, x, q);
  }

  function Parent(k: int, j: nat): (p: nat)
    requires k >= 1 && j >= 1
    ensures p < j && k * p <= j - 1 < k * p + k
  {
    DivideBounds(k, j - 1);
    (j - 1) / k
  }

  /** Position j is among the children of position p exactly when p is (j - 1) / k. */
  lemma ParentIff(k: int, n: nat, p: nat, j: nat)
    requires k >= 1 && p < n && 1 <= j < n
    ensures FirstChild(k, n, p) <= j < FirstChild(k, n, p + 1) <==> p == Parent(k, j)
  {
    var q := Parent(k, j);
    FirstChildGrows(k, n, q, q + 1);
    if p < q {
      FirstChildGrows(k, n, p + 1, q);
    } else if q < p {
      FirstChildGrows(k, n, q + 1, p);
    }
  }

  function Depth(k: int, j: nat): nat
    requires k >= 1
  {
    if j == 0 then 0 else Depth(k, Parent(k, j)) + 1
  }

  lemma {:induction false} DepthGrows(k: int, i: nat, j: nat)
    requires k >= 1 && i <= j
    ensures Depth(k, i) <= Depth(k, j)
    decreases j
  {
    if 0 < i < j {
      assert Parent(k, i) <= Parent(k, j) by {
        var p, q := Parent(k, i), Parent(k, j);
        if q < p {
          FirstChildGrows(k, 0, q + 1, p);
        }
      }
      DepthGrows(k, Parent(k, i), Parent(k, j));
    }
  }

  /** The subtrees of position i are those of the positions whose parent is i. */
  lemma ChildOf(k: int, ids: seq<int>, i: nat, c: Tree) returns (j: nat)
    requires k >= 1 && i < |ids| && c in Complete(k, ids, i).children
    ensures 1 <= j < |ids| && i == Parent(k, j) && c == Complete(k, ids, j)
  {
    hide Parent;
    FirstChildGrows(k, |ids|, i, i + 1);
    var first := FirstChild(k, |ids|, i);
    var t := Complete(k, ids, i);
    var x :| 0 <= x < |t.children| && t.children[x] == c;
    j := first + x;
    ParentIff(k, |ids|, i, j);
  }

  lemma IsChild(k: int, ids: seq<int>, j: nat)
    requires k >= 1 && 1 <= j < |ids|
    ensures Complete(k, ids, j) in Complete(k, ids, Parent(k, j)).children
  {
    hide Parent;
    var i := Parent(k, j);
    ParentIff(k, |ids|, i, j);
    FirstChildGrows(k, |ids|, i, i + 1);
    var t := Complete(k, ids, i);
    assert t.children[j - FirstChild(k, |ids|, i)] == Complete(k, ids, j);
  }

  lemma AtRoot(k: int, ids: seq<int>, i: nat, id: int)
    requires k >= 1 && i < |ids| && At(Complete(k, ids, i), 0, id)
    ensures ids[i] == id
  {
  }

  lemma {:induction false} AtIsPosition(k: int, ids: seq<int>, i: nat, d: nat, id: int) returns (j: nat)
    requires k >= 1 && i < |ids| && At(Complete(k, ids, i), d, id)
    ensures j < |ids| && ids[j] == id && Depth(k, j) == Depth(k, i) + d
    decreases d
  {
    hide Parent, Complete, Row, FirstChild;
    if d == 0 {
      AtRoot(k, ids, i, id);
      j := i;
    } else {
      var c :| c in Complete(k, ids, i).children && At(c, d - 1, id);
      j := ChildOf(k, ids, i, c);
      j := AtIsPosition(k, ids, j, d - 1, id);
    }
  }

  lemma {:induction false} UnderRoot(k: int, ids: seq<int>, j: nat, d: nat, id: int)
    requires k >= 1 && j < |ids| && At(Complete(k, ids, j), d, id)
    ensures At(Complete(k, ids, 0), d + Depth(k, j), id)
    decreases j
  {
    hide Parent, Complete;
    if j > 0 {
      IsChild(k, ids, j);
      assert At(Complete(k, ids, Parent(k, j)), d + 1, id);
      UnderRoot(k, ids, Parent(k, j), d + 1, id);
    }
  }

  /** The depths at which an id is found are the depths of its positions in the list. */
  lemma AtIff(k: int, ids: seq<int>, d: nat, id: int)
    requires k >= 1 && ids != []
    ensures At(Complete(k, ids, 0), d, id) <==> exists j: nat :: j < |ids| && ids[j] == id && Depth(k, j) == d
  {
    if At(Complete(k, ids, 0), d, id) {
      var j := AtIsPosition(k, ids, 0, d, id);
    }
    if j: nat :| j < |ids| && ids[j] == id && Depth(k, j) == d {
      UnderRoot(k, ids, j, 0, id);
    }
  }

  function Pow2(d: nat): nat {
    if d == 0 then 1 else 2 * Pow2(d - 1)
  }

  lemma {:induction false} PowOfDepth(j: nat)
    ensures Pow2(Depth(2, j)) <= j + 1
  {
    if j > 0 {
      PowOfDepth(Parent(2, j));
    }
  }

  /** A binary broadcast tree is only logarithmically deep. */
  lemma DepthIsLogarithmic(ids: seq<int>, d: nat, id: int)
    requires ids != [] && At(Complete(2, ids, 0), d, id)
    ensures Pow2(d) <= |ids|
  {
    var j := AtIsPosition(2, ids, 0, d, id);
    PowOfDepth(j);
  }

  // ---- Idle and busy peers ----

  /** Peers on the machine that is known to be busy. */
  predicate Busy(id: int) {
    id / 100 == 148045
  }

  /** Those are the peers at the addresses that end in 148.45, whatever the port. */
  lemma BusyIff(ip: seq<SeqNums.Span>, port: nat)
    requires |ip| == 4 && SeqNums.Octet(ip[2]) && SeqNums.Octet(ip[3])
    ensures SeqNums.IdOf(ip, port).Some?
    ensures Busy(SeqNums.IdOf(ip, port).value) <==> ip[2] == Some(148) && ip[3] == Some(45)
  {
    SeqNums.IdOfOctets(ip, port);
  }

  ghost predicate IdleFirst(order: seq<int>) {
    forall i, j :: 0 <= i < j < |order| && Busy(order[i]) ==> Busy(order[j])
  }

  lemma IdleBeforeBusy(order: seq<int>, a: nat, b: nat)
    requires IdleFirst(order) && a < |order| && b < |order| && !Busy(order[a]) && Busy(order[b])
    ensures a < b
  {
    hide Busy;
  }

  /** Where a peer is in the list of all ids. */
  lemma PeerPosition(self: int, order: seq<int>, id: int) returns (a: nat)
    requires id in order
    ensures a < |order| && order[a] == id && ([self] + order)[a + 1] == id
  {
    a :| 0 <= a < |order| && order[a] == id;
  }

  /** With distinct ids, an id is found at the depth of its one position. */
  lemma DepthOfPosition(k: int, ids: seq<int>, d: nat, i: nat)
    requires k >= 1 && i < |ids| && NoRepeats(ids) && At(Complete(k, ids, 0), d, ids[i])
    ensures d == Depth(k, i)
  {
    var j := AtIsPosition(k, ids, 0, d, ids[i]);
    hide At, Complete, Parent;
    assert i == j;
  }

  /** No idle peer is deeper in the tree than a busy one, whatever the fan-out. */
  lemma IdleNotBelowBusy(k: int, self: int, order: seq<int>, idle: int, d: nat, busy: int, e: nat)
    requires k >= 1 && IdleFirst(order) && idle in order && !Busy(idle) && busy in order && Busy(busy)
    requires NoRepeats([self] + order)
    requires At(Complete(k, [self] + order, 0), d, idle) && At(Complete(k, [self] + order, 0), e, busy)
    ensures d <= e
  {
    hide At, Complete, Row, Depth, Parent, FirstChild, Busy, IdleFirst, NoRepeats;
    var a := PeerPosition(self, order, idle);
    var b := PeerPosition(self, order, busy);
    IdleBeforeBusy(order, a, b);
    DepthOfPosition(k, [self] + order, d, a + 1);
    DepthOfPosition(k, [self] + order, e, b + 1);
    DepthGrows(k, a + 1, b + 1);
  }
}
