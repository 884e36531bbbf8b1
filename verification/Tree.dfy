/** The broadcast tree as the servers build it in memory and read it back. */
module Tree {
  import opened Types
  import T = TreeSpec

  class TreeNode {
    const id: int
    var childNum: int
    var children: seq<TreeNode>

    constructor (id: int)
      ensures this.id == id && childNum == 0 && children == []
    {
      this.id, childNum, children := id, 0, [];
    }
  }

  /** The nodes below `n`, all within `repr`, form the tree `t`. */
  ghost predicate Represents(n: TreeNode, t: T.Tree, repr: set<TreeNode>)
    reads repr
    decreases t
  {
    && n in repr && n.id == t.id
    && n.childNum == |n.children| == |t.children|
    && forall i :: 0 <= i < |t.children| ==> n.children[i] in repr && Represents(n.children[i], t.children[i], repr)
  }

  // ---- Building ----

  ghost function IdsOf(nodes: seq<TreeNode>): (r: seq<int>)
    ensures |r| == |nodes| && forall i :: 0 <= i < |r| ==> r[i] == nodes[i].id
  {
    seq(|nodes|, i requires 0 <= i < |nodes| => nodes[i].id)
  }

  ghost function Kids(nodes: seq<TreeNode>): (r: seq<seq<TreeNode>>)
    reads nodes
    ensures |r| == |nodes| && forall i :: 0 <= i < |r| ==> r[i] == nodes[i].children
  {
    seq(|nodes|, i requires 0 <= i < |nodes| reads nodes => nodes[i].children)
  }

  /** Each node has the children that its position in `nodes` entitles it to. */
  ghost predicate Shape(nodes: seq<TreeNode>, kids: seq<seq<TreeNode>>, k: int)
    requires k >= 1
  {
    |kids| == |nodes| && forall j :: 0 <= j < |nodes| ==> InPlace(nodes, kids[j], k, j)
  }

  ghost predicate InPlace(nodes: seq<TreeNode>, children: seq<TreeNode>, k: int, j: nat)
    requires k >= 1
  {
    var lo, hi := T.FirstChild(k, |nodes|, j), T.FirstChild(k, |nodes|, j + 1);
    lo <= hi && children == nodes[lo..hi]
  }

  ghost predicate Linked(nodes: seq<TreeNode>, k: int)
    requires k >= 1
    reads nodes
  {
    && Shape(nodes, Kids(nodes), k)
    && forall j :: 0 <= j < |nodes| ==> nodes[j].childNum == |nodes[j].children|
  }

  /** Handing the newest node to position c, while c has room, keeps the shape. */
  lemma AdoptionKeepsShape(nodes: seq<TreeNode>, kids: seq<seq<TreeNode>>, k: int, c: nat, t: TreeNode)
    requires k >= 1 && Shape(nodes, kids, k) && c < |nodes| && HasRoom(nodes, k, c)
    ensures Shape(nodes + [t], kids[c := kids[c] + [t]] + [[]], k)
  {
    var all, kids' := nodes + [t], kids[c := kids[c] + [t]] + [[]];
    forall j | 0 <= j < |all|
      ensures InPlace(all, kids'[j], k, j)
    {
      T.FirstChildGrows(k, |all|, j, j + 1);
      assert j < |nodes| ==> InPlace(nodes, kids[j], k, j);
      if j < c {
        T.FirstChildGrows(k, |all|, j + 1, c);
      } else if j > c {
        T.FirstChildGrows(k, |all|, c + 1, j);
      }
    }
  }

  /** Nodes linked by position represent the complete tree over their ids. */
  lemma {:induction false} LinkedIsComplete(nodes: seq<TreeNode>, k: int, j: nat, repr: set<TreeNode>)
    requires k >= 1 && j < |nodes| && Linked(nodes, k) && repr == (set n | n in nodes)
    ensures Represents(nodes[j], T.Complete(k, IdsOf(nodes), j), repr)
    decreases |nodes| - j
  {
    var ids := IdsOf(nodes);
    var lo, hi := T.FirstChild(k, |nodes|, j), T.FirstChild(k, |nodes|, j + 1);
    var t := T.Complete(k, ids, j);
    assert InPlace(nodes, Kids(nodes)[j], k, j);
    assert t.children == T.Row(k, ids, lo, hi);
    hide Linked, InPlace, T.Complete, T.Row, T.FirstChild;
    forall i | 0 <= i < |t.children|
      ensures nodes[j].children[i] in repr && Represents(nodes[j].children[i], t.children[i], repr)
    {
      assert nodes[j].children[i] == nodes[lo + i];
      LinkedIsComplete(nodes, k, lo + i, repr);
    }
  }

  /** Whether position c has fewer than k children and is the next to receive one. */
  ghost predicate HasRoom(nodes: seq<TreeNode>, k: int, c: nat) {
    k * c + 1 <= |nodes| < k * c + k + 1
  }

  ghost predicate Filling(nodes: seq<TreeNode>, k: int, c: nat) {
    k * c + 1 <= |nodes| <= k * c + k + 1
  }

  /** The child count tells whether there is room, and when there is none the next node has some. */
  lemma RoomIff(nodes: seq<TreeNode>, k: int, c: nat)
    requires k >= 1 && c < |nodes| && Linked(nodes, k) && Filling(nodes, k, c)
    ensures nodes[c].childNum < k <==> HasRoom(nodes, k, c)
    ensures nodes[c].childNum >= k ==> c + 1 < |nodes| && HasRoom(nodes, k, c + 1)
  {
    assert InPlace(nodes, Kids(nodes)[c], k, c);
    assert k * c >= c;
    assert k * (c + 1) == k * c + k;
  }

  /** Appends a new node to the children of another, which is at position c. */
  method Adopt(parent: TreeNode, child: TreeNode, ghost nodes: seq<TreeNode>, ghost k: int, ghost c: nat)
    requires c < |nodes| && parent == nodes[c] && child !in nodes && NoRepeats(nodes)
    requires k >= 1 && Linked(nodes, k) && HasRoom(nodes, k, c) && child.children == [] && child.childNum == 0
    modifies parent
    ensures Linked(nodes + [child], k) && Filling(nodes + [child], k, c)
  {
    hide Shape;
    AdoptionKeepsShape(nodes, Kids(nodes), k, c, child);
    ghost var kids := Kids(nodes);
    parent.children := parent.children + [child];
    parent.childNum := parent.childNum + 1;
    assert Kids(nodes + [child]) == kids[c := kids[c] + [child]] + [[]];
  }

  lemma OneMoreNode(nodes: seq<TreeNode>, t: TreeNode, ids: seq<int>, i: nat)
    requires i < |ids| && IdsOf(nodes) == ids[..i] && t.id == ids[i] && NoRepeats(nodes) && t !in nodes
    ensures IdsOf(nodes + [t]) == ids[..i + 1] && NoRepeats(nodes + [t])
  {
  }

  lemma RootAlone(root: TreeNode, k: int)
    requires root.childNum == 0 && root.children == []
    ensures k >= 1 ==> Linked([root], k) && Filling([root], k, 0)
    ensures Represents(root, T.Node(root.id, []), {root}) && IdsOf([root]) == [root.id] && NoRepeats([root])
  {
  }

  lemma NotEmpty(s: set<int>)
    requires s != {}
    ensures exists x :: x in s
  {
    assert (forall x :: x !in s) ==> s == {};
  }

  /** The order in which the peers are placed: idle ones before busy ones, each in the order the map yields. */
  method PlacementOrder(peers: set<int>) returns (treeIp: seq<int>)
    ensures NoRepeats(treeIp) && (forall id :: id in treeIp <==> id in peers)
    ensures T.IdleFirst(treeIp)
  {
    var idleIp, busyIp := [], [];
    var rest := peers;
    while rest != {}
      invariant rest <= peers && NoRepeats(idleIp) && NoRepeats(busyIp)
      invariant forall id :: id in idleIp <==> id in peers - rest && !T.Busy(id)
      invariant forall id :: id in busyIp <==> id in peers - rest && T.Busy(id)
      decreases rest
    {
      NotEmpty(rest);
      var id :| id in rest;
      rest := rest - {id};
      if T.Busy(id) {
        busyIp := busyIp + [id];
      } else {
        idleIp := idleIp + [id];
      }
    }
    treeIp := idleIp + busyIp;
    assert forall i :: 0 <= i < |idleIp| ==> treeIp[i] in idleIp;
    assert forall i :: |idleIp| <= i < |treeIp| ==> treeIp[i] in busyIp;
  }

  /** Builds the tree for a broadcast from `localNodeId`. With a positive fan-out it is the complete tree over
      the local node and all peers; with any other it is the local node alone. */
  method MakeTree(peers: set<int>, childNum: int, localNodeId: int)
    returns (rootNode: TreeNode, ghost order: seq<int>, ghost nodes: seq<TreeNode>)
    ensures NoRepeats(order) && (forall id :: id in order <==> id in peers) && T.IdleFirst(order)
    ensures forall n :: n in nodes ==> fresh(n)
    ensures childNum >= 1 ==> Represents(rootNode, T.Complete(childNum, [localNodeId] + order, 0), (set n | n in nodes))
    ensures childNum <= 0 ==> Represents(rootNode, T.Node(localNodeId, []), (set n | n in nodes))
  {
    hide Linked, HasRoom, Filling, Represents, IdsOf, T.IdleFirst, T.Complete, NoRepeats;
    var treeIp := PlacementOrder(peers);
    order := treeIp;
    ghost var ids := [localNodeId] + order;
    rootNode := new TreeNode(localNodeId);
    nodes := [rootNode];
    RootAlone(rootNode, childNum);
    var currentNode, noChildNodeSet := rootNode, [];
    ghost var c := 0;
    for i := 0 to |treeIp|
      invariant c < |nodes| && currentNode == nodes[c] && noChildNodeSet == nodes[c + 1..]
      invariant NoRepeats(nodes) && nodes[0] == rootNode
      invariant fresh(currentNode) && forall n :: n in nodes ==> fresh(n)
      invariant childNum >= 1 ==> IdsOf(nodes) == ids[..i + 1]
      invariant childNum >= 1 ==> Linked(nodes, childNum) && Filling(nodes, childNum, c)
      invariant childNum <= 0 ==> nodes == [rootNode] && rootNode.childNum == 0 && rootNode.children == []
    {
      var tN := new TreeNode(treeIp[i]);
      if childNum >= 1 {
        RoomIff(nodes, childNum, c);
        OneMoreNode(nodes, tN, ids, i + 1);
      }
      if currentNode.childNum < childNum {
        Adopt(currentNode, tN, nodes, childNum, c);
        noChildNodeSet := noChildNodeSet + [tN];
        nodes := nodes + [tN];
      } else if |noChildNodeSet| >= 1 {
        currentNode := noChildNodeSet[0];
        assert currentNode == nodes[c + 1] && currentNode in nodes;
        noChildNodeSet := noChildNodeSet[1..];
        assert noChildNodeSet == nodes[c + 2..];
        c := c + 1;
        Adopt(currentNode, tN, nodes, childNum, c);
        noChildNodeSet := noChildNodeSet + [tN];
        nodes := nodes + [tN];
      }
    }
    if childNum >= 1 {
      assert ids[..|ids|] == ids;
      LinkedIsComplete(nodes, childNum, 0, (set n | n in nodes));
    } else {
      assert (set n | n in nodes) == {rootNode};
      RootAlone(rootNode, childNum);
    }
  }

  // ---- Reading back ----

  ghost predicate RepresentAll(nodes: seq<TreeNode>, f: seq<T.Tree>, repr: set<TreeNode>)
    reads repr
  {
    |nodes| == |f| && forall i :: 0 <= i < |f| ==> nodes[i] in repr && Represents(nodes[i], f[i], repr)
  }

  /** What the search reads from the node at the head of its queue, and what it goes on with. */
  lemma HeadOfQueue(nodes: seq<TreeNode>, f: seq<T.Tree>, repr: set<TreeNode>)
    requires RepresentAll(nodes, f, repr) && nodes != []
    ensures f != [] && nodes[0].id == f[0].id && nodes[0].childNum == |nodes[0].children|
    ensures IdsOf(nodes[0].children) == T.ChildIds(f[0])
    ensures RepresentAll(nodes[1..] + nodes[0].children, f[1..] + f[0].children, repr)
  {
    assert Represents(nodes[0], f[0], repr);
  }

  /** The ids of the children of the node with the id, found breadth first. */
  method TraverseTree(rootNode: TreeNode, nodeId: int, ghost t: T.Tree, ghost repr: set<TreeNode>)
    returns (childNodeIds: seq<int>)
    requires Represents(rootNode, t, repr)
    ensures childNodeIds == T.Search([t], nodeId)
  {
    hide T.ChildIds, T.Ids;
    childNodeIds := [];
    var tempNode := [rootNode];
    ghost var f := [t];
    assert RepresentAll(tempNode, f, repr);
    hide Represents, RepresentAll;
    while |tempNode| != 0
      invariant RepresentAll(tempNode, f, repr) && |tempNode| == |f|
      invariant childNodeIds == [] && T.Search(f, nodeId) == T.Search([t], nodeId)
      decreases |T.Ids(f)|
    {
      HeadOfQueue(tempNode, f, repr);
      T.IdsOfNext(f);
      if tempNode[0].id == nodeId {
        for i := 0 to tempNode[0].childNum
          invariant childNodeIds == IdsOf(tempNode[0].children)[..i]
        {
          childNodeIds := childNodeIds + [tempNode[0].children[i].id];
        }
        return;
      }
      ghost var before := tempNode;
      for i := 0 to tempNode[0].childNum
        invariant tempNode == before + before[0].children[..i]
      {
        tempNode := tempNode + [tempNode[0].children[i]];
      }
      if |tempNode| >= 2 {
        tempNode := tempNode[1..];
      } else {
        tempNode := [];
      }
      assert tempNode == before[1..] + before[0].children;
      f := f[1..] + f[0].children;
    }
  }
}
