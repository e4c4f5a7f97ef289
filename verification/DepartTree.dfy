/** The department tree as linked nodes (pkg/app/server/service/depart/depart.go:39-177): nodes are made from
    the rows, linked through `Children` by a recursion over the pointer list, and searched. */
module DepartTree {
  import opened Forest
  import opened Sequences
  import opened Store
  import opened Inventory

  class DepartTreeNode {
    const name: string
    const id: int
    const pid: int
    var children: seq<DepartTreeNode>

    constructor (name: string, id: int, pid: int)
      ensures this.name == name && this.id == id && this.pid == pid && children == []
    {
      this.name, this.id, this.pid := name, id, pid;
      children := [];
    }
  }

  /** A place for the node a search finds. */
  class NodeRef {
    var target: DepartTreeNode?

    constructor ()
      ensures target == null
    {
      target := null;
    }
  }

  function NodeEdges(nodes: seq<DepartTreeNode>): (t: seq<Edge>)
    ensures |t| == |nodes|
  {
    seq(|nodes|, i requires 0 <= i < |nodes| => Edge(nodes[i].id, nodes[i].pid))
  }

  /** The listed nodes whose parent id is `id`, in list order. */
  function ChildrenOf(nodes: seq<DepartTreeNode>, id: int): seq<DepartTreeNode> {
    if nodes == [] then [] else (if nodes[0].pid == id then [nodes[0]] else []) + ChildrenOf(nodes[1..], id)
  }

  method FindChild(node: DepartTreeNode, ptrchild: seq<DepartTreeNode>) returns (ret: seq<DepartTreeNode>)
    ensures ret == ChildrenOf(ptrchild, node.id)
  {
    ret := [];
    for i := 0 to |ptrchild|
      invariant ret + ChildrenOf(ptrchild[i..], node.id) == ChildrenOf(ptrchild, node.id)
    {
      assert ptrchild[i..][1..] == ptrchild[i + 1..];
      if node.id == ptrchild[i].pid {
        Associative(ret, [ptrchild[i]], ChildrenOf(ptrchild[i + 1..], node.id));
        ret := ret + [ptrchild[i]];
      }
    }
    assert ptrchild[|ptrchild|..] == [];
  }

  method IsChildExist(node: DepartTreeNode, ptrchild: seq<DepartTreeNode>) returns (found: bool)
    ensures found <==> ChildrenOf(ptrchild, node.id) != []
  {
    for i := 0 to |ptrchild|
      invariant ChildrenOf(ptrchild, node.id) == ChildrenOf(ptrchild[i..], node.id)
    {
      assert ptrchild[i..][1..] == ptrchild[i + 1..];
      if node.id == ptrchild[i].pid {
        return true;
      }
    }
    assert ptrchild[|ptrchild|..] == [];
    return false;
  }

  lemma {:induction false} ChildrenIds(nodes: seq<DepartTreeNode>, id: int)
    ensures var kids, c := Kids(NodeEdges(nodes), id), ChildrenOf(nodes, id);
            && |kids| == |c|
            && forall i :: 0 <= i < |c| ==> c[i] in nodes && c[i].id == kids[i] && c[i].pid == id
  {
    if nodes != [] {
      ChildrenIds(nodes[1..], id);
      assert NodeEdges(nodes)[1..] == NodeEdges(nodes[1..]);
    }
  }

  lemma NodeById(nodes: seq<DepartTreeNode>, a: DepartTreeNode, b: DepartTreeNode)
    requires Ordered(NodeEdges(nodes)) && a in nodes && b in nodes && a.id == b.id
    ensures a == b
  {
    var i :| 0 <= i < |nodes| && nodes[i] == a;
    var j :| 0 <= j < |nodes| && nodes[j] == b;
    assert NodeEdges(nodes)[i].id == NodeEdges(nodes)[j].id;
  }

  /** Every listed node below `id` has exactly its listed children, in list order. */
  ghost predicate LinkedBelow(nodes: seq<DepartTreeNode>, id: int)
    requires Ordered(NodeEdges(nodes))
    reads nodes
  {
    forall p :: p in nodes && Under(NodeEdges(nodes), id, p.id) ==> p.children == ChildrenOf(nodes, p.id)
  }

  ghost predicate EmptyBelow(nodes: seq<DepartTreeNode>, id: int)
    requires Ordered(NodeEdges(nodes))
    reads nodes
  {
    forall p :: p in nodes && Under(NodeEdges(nodes), id, p.id) ==> p.children == []
  }

  /** `MakeTree`: links every node below `node`, and no other. */
  method MakeTree(node: DepartTreeNode, ptrchild: seq<DepartTreeNode>)
    requires Ordered(NodeEdges(ptrchild))
    requires node.children == [] && EmptyBelow(ptrchild, node.id)
    modifies node`children, (set p | p in ptrchild)`children
    ensures node.children == ChildrenOf(ptrchild, node.id) && LinkedBelow(ptrchild, node.id)
    ensures forall p :: p in ptrchild && p != node && !Under(NodeEdges(ptrchild), node.id, p.id) ==>
              p.children == old(p.children)
    decreases Gap(NodeEdges(ptrchild), node.id)
  {
    hide Reaches, Under, ChildrenOf, Kids, NodeEdges, Ordered;
    var childs := FindChild(node, ptrchild);
    ghost var t := NodeEdges(ptrchild);
    ghost var kids := Kids(t, node.id);
    ChildrenIds(ptrchild, node.id);
    KidsAreYounger(t, node.id);
    ReachesNone(t, kids);
    for i := 0 to |childs|
      invariant node.children == childs[..i]
      invariant forall p :: p in ptrchild && p != node ==>
                  p.children == if Reaches(t, kids[..i], p.id) then ChildrenOf(ptrchild, p.id) else old(p.children)
    {
      var value := childs[i];
      NotYetReached(ptrchild, node.id, i);
      node.children := node.children + [value];
      var more := IsChildExist(value, ptrchild);
      if more {
        MakeTree(value, ptrchild);
      } else {
        NothingBelow(ptrchild, value.id);
      }
      forall p | p in ptrchild && p != node
        ensures p.children == if Reaches(t, kids[..i + 1], p.id) then ChildrenOf(ptrchild, p.id) else old(p.children)
      {
        ReachesOneMore(t, kids, i, p.id);
        if p.id == value.id { NodeById(ptrchild, p, value); }
      }
    }
    assert kids[..|childs|] == kids;
    forall p | p in ptrchild
      ensures Reaches(t, kids, p.id) <==> Under(t, node.id, p.id)
    {
      UnderIffReached(t, node.id, p.id);
    }
    if Under(t, node.id, node.id) { UnderIsYounger(t, node.id, node.id); }
  }

  lemma ReachesNone(t: seq<Edge>, kids: seq<int>)
    requires Ordered(t)
    ensures forall x :: !Reaches(t, kids[..0], x)
  {
  }

  lemma ReachesOneMore(t: seq<Edge>, kids: seq<int>, i: nat, x: int)
    requires Ordered(t) && i < |kids|
    ensures Reaches(t, kids[..i + 1], x) <==> Reaches(t, kids[..i], x) || AtOrUnder(t, kids[i], x)
  {
  }

  /** Nodes at or below the next child have not been linked for an earlier one. */
  lemma NotYetReached(nodes: seq<DepartTreeNode>, id: int, i: nat)
    requires Ordered(NodeEdges(nodes)) && i < |Kids(NodeEdges(nodes), id)|
    ensures var t, kids := NodeEdges(nodes), Kids(NodeEdges(nodes), id);
            && !Reaches(t, kids[..i], kids[i]) && Under(t, id, kids[i]) && kids[i] != id
            && forall x :: Under(t, kids[i], x) ==> !Reaches(t, kids[..i], x) && Under(t, id, x) && x != id
  {
    var t, kids := NodeEdges(nodes), Kids(NodeEdges(nodes), id);
    KidIsUnder(t, id, kids[i]);
    KidsDistinct(t, id);
    forall x | AtOrUnder(t, kids[i], x)
      ensures !Reaches(t, kids[..i], x) && Under(t, id, x) && x != id
    {
      if x != kids[i] { UnderTransitive(t, id, kids[i], x); }
      UnderIsYounger(t, id, x);
      if Reaches(t, kids[..i], x) {
        var j :| 0 <= j < i && AtOrUnder(t, kids[..i][j], x);
        SiblingsDisjoint(t, id, kids[i], kids[j], x);
        SiblingsDisjoint(t, id, kids[j], kids[i], x);
      }
    }
  }

  lemma NothingBelow(nodes: seq<DepartTreeNode>, id: int)
    requires Ordered(NodeEdges(nodes)) && ChildrenOf(nodes, id) == []
    ensures forall x :: !Under(NodeEdges(nodes), id, x)
  {
    ChildrenIds(nodes, id);
    forall x
      ensures !Under(NodeEdges(nodes), id, x)
    {
      if Under(NodeEdges(nodes), id, x) {
        var k := StepDown(NodeEdges(nodes), id, x);
      }
    }
  }

  // ----- Searching the tree -----

  /** `LoopTree`: leaves the node with this id in `res` if there is one below `node`, else leaves `res` alone. */
  method LoopTree(node: DepartTreeNode, id: int, res: NodeRef, ghost nodes: seq<DepartTreeNode>)
    requires Ordered(NodeEdges(nodes))
    requires node.children == ChildrenOf(nodes, node.id) && LinkedBelow(nodes, node.id)
    modifies res
    ensures Under(NodeEdges(nodes), node.id, id) ==> res.target != null && res.target in nodes && res.target.id == id
    ensures !Under(NodeEdges(nodes), node.id, id) ==> res.target == old(res.target)
    decreases Gap(NodeEdges(nodes), node.id)
  {
    hide Reaches, Under, ChildrenOf, Kids, NodeEdges, Ordered;
    ghost var t := NodeEdges(nodes);
    ghost var kids := Kids(t, node.id);
    ChildrenIds(nodes, node.id);
    KidsAreYounger(t, node.id);
    ReachesNone(t, kids);
    for i := 0 to |node.children|
      invariant Reaches(t, kids[..i], id) ==> res.target != null && res.target in nodes && res.target.id == id
      invariant !Reaches(t, kids[..i], id) ==> res.target == old(res.target)
    {
      var value := node.children[i];
      ReachesOneMore(t, kids, i, id);
      NotYetReached(nodes, node.id, i);
      if value.id == id {
        res.target := value;
      }
      LoopTree(value, id, res, nodes);
    }
    assert kids[..|node.children|] == kids;
    UnderIffReached(t, node.id, id);
  }

  // ----- Reading the linked nodes back -----

  /** Children are listed nodes, younger than their parent. */
  ghost predicate Climbs(nodes: seq<DepartTreeNode>, children: seq<DepartTreeNode>, floor: int)
    requires Ordered(NodeEdges(nodes))
  {
    forall i :: 0 <= i < |children| ==> children[i] in nodes && floor < children[i].id <= Top(NodeEdges(nodes))
  }

  ghost predicate AllClimb(nodes: seq<DepartTreeNode>)
    requires Ordered(NodeEdges(nodes))
    reads nodes
  {
    forall p :: p in nodes ==> Climbs(nodes, p.children, p.id)
  }

  /** The ids met by walking the linked nodes below the given children. */
  ghost function IdsBelow(nodes: seq<DepartTreeNode>, floor: int, children: seq<DepartTreeNode>): seq<int>
    requires Ordered(NodeEdges(nodes)) && AllClimb(nodes) && Climbs(nodes, children, floor)
    reads nodes
    decreases Gap(NodeEdges(nodes), floor), |children|
  {
    if children == [] then []
    else
      [children[0].id] + IdsBelow(nodes, children[0].id, children[0].children) + IdsBelow(nodes, floor, children[1..])
  }

  lemma ChildrenClimb(nodes: seq<DepartTreeNode>, id: int)
    requires Ordered(NodeEdges(nodes))
    ensures Climbs(nodes, ChildrenOf(nodes, id), id)
  {
    ChildrenIds(nodes, id);
    KidsAreYounger(NodeEdges(nodes), id);
  }

  /** Walking the linked nodes meets the ids `ReturnSpecifiedDepart` lists, in the same order. */
  lemma {:induction false} IdsBelowIsPreorder(nodes: seq<DepartTreeNode>, floor: int, children: seq<DepartTreeNode>,
                                              kids: seq<int>)
    requires Ordered(NodeEdges(nodes)) && AllClimb(nodes) && Climbs(nodes, children, floor)
    requires Between(kids, floor, Top(NodeEdges(nodes)))
    requires |kids| == |children| && forall i :: 0 <= i < |kids| ==> children[i].id == kids[i]
    requires forall i :: 0 <= i < |kids| ==>
               children[i].children == ChildrenOf(nodes, kids[i]) && LinkedBelow(nodes, kids[i])
    ensures IdsBelow(nodes, floor, children) == PreorderAll(NodeEdges(nodes), floor, kids)
    decreases Gap(NodeEdges(nodes), floor), |children|
  {
    if children != [] {
      var t, first := NodeEdges(nodes), children[0];
      var below := Kids(t, first.id);
      ChildrenIds(nodes, first.id);
      LinkedAgain(nodes, first.id);
      IdsBelowIsPreorder(nodes, first.id, first.children, below);
      IdsBelowIsPreorder(nodes, floor, children[1..], kids[1..]);
    }
  }

  /** What holds below a node holds at and below each of its children. */
  lemma LinkedAgain(nodes: seq<DepartTreeNode>, id: int)
    requires Ordered(NodeEdges(nodes)) && LinkedBelow(nodes, id)
    ensures forall i :: 0 <= i < |Kids(NodeEdges(nodes), id)| ==>
              && LinkedBelow(nodes, Kids(NodeEdges(nodes), id)[i])
              && i < |ChildrenOf(nodes, id)|
              && ChildrenOf(nodes, id)[i].children == ChildrenOf(nodes, Kids(NodeEdges(nodes), id)[i])
  {
    var t, kids := NodeEdges(nodes), Kids(NodeEdges(nodes), id);
    ChildrenIds(nodes, id);
    forall i | 0 <= i < |kids|
      ensures LinkedBelow(nodes, kids[i]) && ChildrenOf(nodes, id)[i].children == ChildrenOf(nodes, kids[i])
    {
      NotYetReached(nodes, id, i);
    }
  }

  // ----- From rows to nodes -----

  /** The last row marked as root, as a root node: its parent id is written as 0. */
  function RootEdge(rows: seq<DepartNode>): Edge {
    if rows == [] then Edge(0, 0)
    else if rows[|rows| - 1].nodeLocate == ROOT then Edge(rows[|rows| - 1].id, 0)
    else RootEdge(rows[..|rows| - 1])
  }

  function NonRootEdges(rows: seq<DepartNode>): seq<Edge> {
    if rows == [] then []
    else NonRootEdges(rows[..|rows| - 1])
         + if rows[|rows| - 1].nodeLocate == ROOT then [] else [Edge(rows[|rows| - 1].id, rows[|rows| - 1].pid)]
  }

  /** The node list as edges: the root node, then the rows that are not roots. */
  function NodeList(rows: seq<DepartNode>): seq<Edge> {
    [RootEdge(rows)] + NonRootEdges(rows)
  }

  predicate HasRoot(rows: seq<DepartNode>) {
    exists i :: 0 <= i < |rows| && rows[i].nodeLocate == ROOT
  }

  /** The name is that of a row with this id. */
  predicate Named(rows: seq<DepartNode>, id: int, name: string) {
    exists i :: 0 <= i < |rows| && rows[i].id == id && rows[i].depart == name
  }

  /** `Returnptrchild`: one node per row that is not a root, behind a root node; the root node handed back
      is a copy, not the one in the list. */
  method ReturnPtrChild(depart: seq<DepartNode>) returns (ptrchild: seq<DepartTreeNode>, deptRoot: DepartTreeNode)
    ensures NodeEdges(ptrchild) == NodeList(depart)
    ensures Edge(deptRoot.id, deptRoot.pid) == RootEdge(depart)
    ensures deptRoot !in ptrchild && fresh(deptRoot) && deptRoot.children == []
    ensures forall p :: p in ptrchild ==> fresh(p) && p.children == []
    ensures HasRoot(depart) ==> Named(depart, deptRoot.id, deptRoot.name)
    ensures HasRoot(depart) ==> forall p :: p in ptrchild ==> Named(depart, p.id, p.name)
  {
    var departnode := [];
    var rootName, rootId := "", 0;
    for i := 0 to |depart|
      invariant NodeEdges(departnode) == NonRootEdges(depart[..i])
      invariant Edge(rootId, 0) == RootEdge(depart[..i])
      invariant forall p :: p in departnode ==> fresh(p) && p.children == [] && Named(depart, p.id, p.name)
      invariant HasRoot(depart[..i]) ==> Named(depart, rootId, rootName)
    {
      var value := depart[i];
      assert depart[..i + 1][..i] == depart[..i];
      if value.nodeLocate == ROOT {
        rootName, rootId := value.depart, value.id;
      } else {
        var n := new DepartTreeNode(value.depart, value.id, value.pid);
        assert NodeEdges(departnode + [n]) == NodeEdges(departnode) + [Edge(n.id, n.pid)];
        departnode := departnode + [n];
      }
    }
    assert depart[..|depart|] == depart;
    var listed := new DepartTreeNode(rootName, rootId, 0);
    ptrchild := [listed] + departnode;
    assert NodeEdges(ptrchild) == [Edge(listed.id, listed.pid)] + NodeEdges(departnode);
    deptRoot := new DepartTreeNode(rootName, rootId, 0);
  }

  lemma {:induction false} KidsConcat(a: seq<Edge>, b: seq<Edge>, id: int)
    ensures Kids(a + b, id) == Kids(a, id) + Kids(b, id)
  {
    if a == [] {
      assert a + b == b;
    } else {
      assert (a + b)[0] == a[0] && (a + b)[1..] == a[1..] + b;
      KidsConcat(a[1..], b, id);
      Associative(if a[0].pid == id then [a[0].id] else [], Kids(a[1..], id), Kids(b, id));
    }
  }

  /** Reading the rows without the root rows loses no edge below an id that is no root row's parent. */
  lemma {:induction false} NonRootKids(rows: seq<DepartNode>, id: int)
    requires forall i :: 0 <= i < |rows| && rows[i].nodeLocate == ROOT ==> rows[i].pid != id
    ensures Kids(NonRootEdges(rows), id) == Kids(Edges(rows), id)
  {
    if rows != [] {
      var n := |rows| - 1;
      var e := Edge(rows[n].id, rows[n].pid);
      NonRootKids(rows[..n], id);
      assert Edges(rows) == Edges(rows[..n]) + [e];
      KidsConcat(Edges(rows[..n]), [e], id);
      KidsConcat(NonRootEdges(rows[..n]), [e], id);
      var earlier := NonRootEdges(rows[..n]);
      assert NonRootEdges(rows) == (if rows[n].nodeLocate == ROOT then earlier else earlier + [e]);
    }
  }

  predicate IsNonRoot(r: DepartNode, e: Edge) {
    r.nodeLocate != ROOT && r.id == e.id && r.pid == e.pid
  }

  lemma {:induction false} NonRootMember(rows: seq<DepartNode>, e: Edge)
    ensures e in NonRootEdges(rows) <==> exists r :: r in rows && IsNonRoot(r, e)
  {
    if rows != [] {
      var n := |rows| - 1;
      NonRootMember(rows[..n], e);
      assert rows == rows[..n] + [rows[n]];
      assert e in NonRootEdges(rows) <==> e in NonRootEdges(rows[..n]) || IsNonRoot(rows[n], e);
    }
  }

  predicate LastRoot(rows: seq<DepartNode>, i: nat) {
    && i < |rows| && rows[i].nodeLocate == ROOT
    && forall j :: i < j < |rows| ==> rows[j].nodeLocate != ROOT
  }

  lemma {:induction false} RootEdgeIsLastRoot(rows: seq<DepartNode>) returns (i: nat)
    requires HasRoot(rows)
    ensures LastRoot(rows, i) && RootEdge(rows) == Edge(rows[i].id, 0)
  {
    i := |rows| - 1;
    if rows[i].nodeLocate != ROOT {
      var n := i;
      var j :| 0 <= j < |rows| && rows[j].nodeLocate == ROOT;
      assert rows[..n][j] == rows[j];
      i := RootEdgeIsLastRoot(rows[..n]);
      assert forall k :: 0 <= k < n ==> rows[..n][k] == rows[k];
    }
  }

  lemma {:induction false} NonRootAreEdges(rows: seq<DepartNode>, e: Edge)
    ensures e in NonRootEdges(rows) ==> e in Edges(rows)
  {
    if rows != [] {
      var n := |rows| - 1;
      NonRootAreEdges(rows[..n], e);
      assert Edges(rows) == Edges(rows[..n]) + [Edge(rows[n].id, rows[n].pid)];
    }
  }

  lemma {:induction false} NonRootDistinct(rows: seq<DepartNode>)
    requires Ordered(Edges(rows))
    ensures forall i, j :: 0 <= i < j < |NonRootEdges(rows)| ==> NonRootEdges(rows)[i].id != NonRootEdges(rows)[j].id
  {
    if rows != [] {
      var n := |rows| - 1;
      var t, earlier := Edges(rows), NonRootEdges(rows[..n]);
      assert t[..n] == Edges(rows[..n]);
      OrderedPrefix(t, n);
      NonRootDistinct(rows[..n]);
      forall i | 0 <= i < |earlier|
        ensures earlier[i].id != rows[n].id
      {
        assert earlier[i] in earlier;
        NonRootAreEdges(rows[..n], earlier[i]);
        var j :| 0 <= j < n && t[..n][j] == earlier[i];
        assert t[j].id != t[n].id;
      }
    }
  }

  lemma OrderedPrefix(t: seq<Edge>, n: nat)
    requires Ordered(t) && n <= |t|
    ensures Ordered(t[..n])
  {
  }

  lemma SameId(rows: seq<DepartNode>, i: nat, j: nat)
    requires Ordered(Edges(rows)) && i < |rows| && j < |rows| && rows[i].id == rows[j].id
    ensures i == j
  {
    var t := Edges(rows);
    assert t[i].id == t[j].id;
  }

  lemma NodeListOrdered(rows: seq<DepartNode>)
    requires Ordered(Edges(rows)) && HasRoot(rows)
    ensures Ordered(NodeList(rows)) && RootEdge(rows).id > 0
  {
    var i := RootEdgeIsLastRoot(rows);
    NonRootDistinct(rows);
    assert Edges(rows)[i].id > 0;
    NonRootIds(rows, i);
    forall k | 0 <= k < |NonRootEdges(rows)|
      ensures 0 <= NonRootEdges(rows)[k].pid < NonRootEdges(rows)[k].id
    {
      assert NonRootEdges(rows)[k] in NonRootEdges(rows);
      NonRootAreEdges(rows, NonRootEdges(rows)[k]);
      var m :| 0 <= m < |rows| && Edges(rows)[m] == NonRootEdges(rows)[k];
    }
  }

  /** No other root row lies below the last one. */
  predicate Lone(rows: seq<DepartNode>)
    requires Ordered(Edges(rows))
  {
    forall i :: 0 <= i < |rows| && rows[i].nodeLocate == ROOT ==> !Under(Edges(rows), RootEdge(rows).id, rows[i].id)
  }

  /** Below the root the node list has the children the table has, exactly when no other root row lies there: of
      several root rows only the last one becomes a node. */
  lemma RootAgreesIff(rows: seq<DepartNode>)
    requires Ordered(Edges(rows)) && HasRoot(rows)
    ensures Ordered(NodeList(rows))
    ensures Preorder(NodeList(rows), RootEdge(rows).id) == Preorder(Edges(rows), RootEdge(rows).id) <==> Lone(rows)
  {
    NodeListOrdered(rows);
    var t, u, r := NodeList(rows), Edges(rows), RootEdge(rows).id;
    if Lone(rows) {
      BelowRootAgrees(rows, r);
    } else {
      var i :| 0 <= i < |rows| && rows[i].nodeLocate == ROOT && Under(u, r, rows[i].id);
      PreorderMember(u, r, rows[i].id);
      PreorderMember(t, r, rows[i].id);
      if Under(t, r, rows[i].id) {
        OtherRootIsNoNode(rows, i);
      }
    }
  }

  /** No node but the root node is made from a root row. */
  lemma {:induction false} NonRootIds(rows: seq<DepartNode>, i: nat)
    requires Ordered(Edges(rows)) && i < |rows| && rows[i].nodeLocate == ROOT
    ensures forall e :: e in NonRootEdges(rows) ==> e.id != rows[i].id
  {
    forall e | e in NonRootEdges(rows)
      ensures e.id != rows[i].id
    {
      NonRootMember(rows, e);
      var r :| r in rows && IsNonRoot(r, e);
      var j :| 0 <= j < |rows| && rows[j] == r;
      if rows[j].id == rows[i].id { SameId(rows, i, j); }
    }
  }

  lemma {:induction false} OtherRootIsNoNode(rows: seq<DepartNode>, i: nat)
    requires Ordered(Edges(rows)) && HasRoot(rows) && Ordered(NodeList(rows))
    requires i < |rows| && rows[i].nodeLocate == ROOT
    ensures !Under(NodeList(rows), RootEdge(rows).id, rows[i].id)
  {
    var t, x := NodeList(rows), rows[i].id;
    NonRootIds(rows, i);
    ParentIffEdge(t, x, 0);
    if Under(t, RootEdge(rows).id, x) {
      UnderIsYounger(t, RootEdge(rows).id, x);
      ParentIffEdge(t, x, Parent(t, x));
    }
  }

  lemma ChildIsBelow(t: seq<Edge>, r: int, y: int, x: int)
    requires Ordered(t) && AtOrUnder(t, r, y)
    ensures Edge(x, y) in t ==> Under(t, r, x)
  {
    if Edge(x, y) in t {
      var i :| 0 <= i < |t| && t[i] == Edge(x, y);
      ParentIffEdge(t, x, y);
    }
  }

  lemma KidsBelowRootAgree(rows: seq<DepartNode>, y: int)
    requires Ordered(Edges(rows)) && HasRoot(rows) && Lone(rows)
    requires AtOrUnder(Edges(rows), RootEdge(rows).id, y)
    ensures Kids(NodeList(rows), y) == Kids(Edges(rows), y)
  {
    var u, r := Edges(rows), RootEdge(rows).id;
    NodeListOrdered(rows);
    if r != y { UnderIsYounger(u, r, y); }
    forall i | 0 <= i < |rows| && rows[i].nodeLocate == ROOT
      ensures rows[i].pid != y
    {
      assert u[i] == Edge(rows[i].id, rows[i].pid);
      ChildIsBelow(u, r, y, rows[i].id);
    }
    NonRootKids(rows, y);
    assert NodeList(rows)[1..] == NonRootEdges(rows);
  }

  /** At and below the root both walks list the same ids in the same order. */
  lemma BelowRootAgrees(rows: seq<DepartNode>, id: int)
    requires Ordered(Edges(rows)) && HasRoot(rows) && Lone(rows) && AtOrUnder(Edges(rows), RootEdge(rows).id, id)
    ensures Ordered(NodeList(rows)) && Preorder(NodeList(rows), id) == Preorder(Edges(rows), id)
  {
    NodeListOrdered(rows);
    forall y | AtOrUnder(Edges(rows), RootEdge(rows).id, y)
      ensures Kids(NodeList(rows), y) == Kids(Edges(rows), y)
    {
      KidsBelowRootAgree(rows, y);
    }
    SamePreorder(NodeList(rows), Edges(rows), RootEdge(rows).id, id);
  }

  // ----- Every run -----

  predicate Increasing(rows: seq<DepartNode>) {
    forall i, j :: 0 <= i < j < |rows| ==> rows[i].id < rows[j].id
  }

  lemma IncreasingIsLone(rows: seq<DepartNode>)
    requires Ordered(Edges(rows)) && Increasing(rows) && HasRoot(rows)
    ensures Lone(rows)
  {
    var k := RootEdgeIsLastRoot(rows);
    forall i | 0 <= i < |rows| && rows[i].nodeLocate == ROOT
      ensures !Under(Edges(rows), RootEdge(rows).id, rows[i].id)
    {
      if Under(Edges(rows), RootEdge(rows).id, rows[i].id) {
        UnderIsYounger(Edges(rows), RootEdge(rows).id, rows[i].id);
      }
    }
  }

  lemma {:induction false} RemovalKeepsIncreasing(rows: seq<DepartNode>, ids: seq<int>)
    requires Increasing(rows)
    ensures Increasing(RemoveDeparts(rows, ids))
  {
    if rows != [] {
      RemovalKeepsIncreasing(rows[1..], ids);
      var rest := RemoveDeparts(rows[1..], ids);
      forall j | 0 <= j < |rest|
        ensures rows[0].id < rest[j].id
      {
        RemoveDepartsMember(rows[1..], ids, rest[j]);
        var i :| 0 <= i < |rows| - 1 && rows[1..][i] == rest[j];
      }
    }
  }

  /** After every run whatsoever the rows are listed by increasing id, so wherever there is a root row the linked tree
      below it is that of the table, and `Dept` answers for exactly the departments at or below the root. */
  lemma {:induction false} EveryRunAgrees(ops: seq<Op>)
    ensures Increasing(Run(ops).departs) && Ordered(Edges(Run(ops).departs))
    ensures HasRoot(Run(ops).departs) ==> Lone(Run(ops).departs)
  {
    EveryRunSound(ops);
    if ops != [] {
      var n := |ops| - 1;
      EveryRunAgrees(ops[..n]);
      EveryRunSound(ops[..n]);
      StepKeepsIncreasing(Run(ops[..n]), ops[n]);
    }
    if HasRoot(Run(ops).departs) { IncreasingIsLone(Run(ops).departs); }
  }

  lemma StepKeepsIncreasing(s: Tables, op: Op)
    requires DepartsOk(s) && MachinesOk(s) && Increasing(s.departs)
    ensures Increasing(Apply(s, op).departs)
  {
    match op
    case ReassignOp(ids, departId) => ReassignAllKeeps(s, ids, departId);
    case DeleteDepartOp(id) => RemovalKeepsIncreasing(s.departs, [id] + Kids(Edges(s.departs), id));
    case _ =>
  }

  lemma {:induction false} SamePreorder(t: seq<Edge>, u: seq<Edge>, root: int, id: int)
    requires Ordered(t) && Ordered(u) && AtOrUnder(u, root, id)
    requires forall y :: AtOrUnder(u, root, y) ==> Kids(t, y) == Kids(u, y)
    ensures Preorder(t, id) == Preorder(u, id)
    decreases Gap(t, id), 1, 0
  {
    KidsAreYounger(t, id);
    KidsAreYounger(u, id);
    forall i | 0 <= i < |Kids(u, id)|
      ensures AtOrUnder(u, root, Kids(u, id)[i])
    {
      KidIsUnder(u, id, Kids(u, id)[i]);
      if id != root { UnderTransitive(u, root, id, Kids(u, id)[i]); }
    }
    SamePreorderAll(t, u, root, id, Kids(t, id));
  }

  lemma {:induction false} SamePreorderAll(t: seq<Edge>, u: seq<Edge>, root: int, floor: int, kids: seq<int>)
    requires Ordered(t) && Ordered(u)
    requires forall y :: AtOrUnder(u, root, y) ==> Kids(t, y) == Kids(u, y)
    requires Between(kids, floor, Top(t)) && Between(kids, floor, Top(u))
    requires forall i :: 0 <= i < |kids| ==> AtOrUnder(u, root, kids[i])
    ensures PreorderAll(t, floor, kids) == PreorderAll(u, floor, kids)
    decreases Gap(t, floor), 0, |kids|
  {
    if kids != [] {
      SamePreorder(t, u, root, kids[0]);
      SamePreorderAll(t, u, root, floor, kids[1..]);
    }
  }

  /** The linking recursion from the root node ends if and only if the table has a root row: without one the list
      starts with a zero node that is its own child. `Dept` asks no question about the table before it starts. */
  lemma LinkingEndsIff(rows: seq<DepartNode>)
    requires Ordered(Edges(rows))
    ensures (exists depth: nat :: EndsWithin(NodeList(rows), RootEdge(rows).id, depth)) <==> HasRoot(rows)
  {
    var t, r := NodeList(rows), RootEdge(rows).id;
    if HasRoot(rows) {
      NodeListOrdered(rows);
      var depth := Gap(t, r) + 1;
      OrderedWalkEnds(t, r, depth);
      assert EndsWithin(NodeList(rows), RootEdge(rows).id, depth);
    } else {
      NoRootEdge(rows);
      forall depth: nat
        ensures !EndsWithin(t, r, depth)
      {
        OwnParentNeverEnds(t, 0, depth);
      }
    }
  }

  lemma {:induction false} NoRootEdge(rows: seq<DepartNode>)
    requires forall i :: 0 <= i < |rows| ==> rows[i].nodeLocate != ROOT
    ensures RootEdge(rows) == Edge(0, 0)
  {
    if rows != [] {
      NoRootEdge(rows[..|rows| - 1]);
    }
  }

  // ----- The services -----

  /** How both services begin: the nodes are made and linked. A root row is needed, or this never ends. */
  method LinkNodes(depart: seq<DepartNode>) returns (departRoot: DepartTreeNode, ghost nodes: seq<DepartTreeNode>)
    requires Ordered(Edges(depart)) && HasRoot(depart)
    ensures NodeEdges(nodes) == NodeList(depart) && Ordered(NodeList(depart))
    ensures AllClimb(nodes) && LinkedBelow(nodes, departRoot.id)
    ensures departRoot.id == RootEdge(depart).id && departRoot !in nodes
    ensures Named(depart, departRoot.id, departRoot.name) && forall p :: p in nodes ==> Named(depart, p.id, p.name)
    ensures departRoot.children == ChildrenOf(nodes, departRoot.id) && Climbs(nodes, departRoot.children, departRoot.id)
    ensures IdsBelow(nodes, departRoot.id, departRoot.children) == Preorder(NodeList(depart), departRoot.id)
  {
    hide Ordered, NodeEdges, Edges, Under, ChildrenOf, NodeList, RootEdge, Preorder, Named;
    nodes := [];
    var ptrchild, root := ReturnPtrChild(depart);
    nodes := ptrchild;
    NodeListOrdered(depart);
    MakeTree(root, ptrchild);
    departRoot := root;
    ClimbAfterLinking(nodes, root.id);
    WalkAgrees(nodes, departRoot);
  }

  /** `DepartInfo`: the root node with every node of the list that climbs to it below it; an empty table is refused.
      Where the root is alone these are the departments of the table walk. */
  method DepartInfo(depart: seq<DepartNode>) returns (departRoot: DepartTreeNode?, ghost nodes: seq<DepartTreeNode>)
    requires Ordered(Edges(depart)) && (depart != [] ==> HasRoot(depart))
    ensures departRoot == null <==> depart == []
    ensures departRoot != null ==>
              && NodeEdges(nodes) == NodeList(depart) && Ordered(NodeList(depart)) && AllClimb(nodes)
              && departRoot.id == RootEdge(depart).id && Climbs(nodes, departRoot.children, departRoot.id)
              && IdsBelow(nodes, departRoot.id, departRoot.children) == Preorder(NodeList(depart), departRoot.id)
              && (Lone(depart) ==> Preorder(NodeList(depart), departRoot.id) == Preorder(Edges(depart), departRoot.id))
              && Named(depart, departRoot.id, departRoot.name)
              && forall p :: p in nodes ==> Named(depart, p.id, p.name)
  {
    hide Ordered, NodeEdges, Edges, Under, ChildrenOf, NodeList, RootEdge, Preorder, Lone, Named;
    if |depart| == 0 {
      return null, [];
    }
    departRoot, nodes := LinkNodes(depart);
    RootAgreesIff(depart);
  }

  /** `Dept`: answers the linked node of a department exactly when the id is the root's or its node lies below the
      root. Where the root is alone, that is when the table says so, and the ids below the node are the ones
      `ReturnSpecifiedDepart` appends. */
  method Dept(depart: seq<DepartNode>, id: int) returns (node: DepartTreeNode?, ghost nodes: seq<DepartTreeNode>)
    requires Ordered(Edges(depart)) && HasRoot(depart)
    ensures NodeEdges(nodes) == NodeList(depart) && Ordered(NodeList(depart)) && AllClimb(nodes)
    ensures node != null <==> AtOrUnder(NodeList(depart), RootEdge(depart).id, id)
    ensures node != null ==>
              && node.id == id && Climbs(nodes, node.children, id)
              && IdsBelow(nodes, id, node.children) == Preorder(NodeList(depart), id)
              && Named(depart, id, node.name) && forall p :: p in nodes ==> Named(depart, p.id, p.name)
    ensures Lone(depart) ==>
              && (node != null <==> AtOrUnder(Edges(depart), RootEdge(depart).id, id))
              && (node != null ==> Preorder(NodeList(depart), id) == Preorder(Edges(depart), id))
  {
    hide Ordered, NodeEdges, Edges, Under, ChildrenOf, NodeList, RootEdge, Preorder, Climbs, Lone, Named;
    var departRoot;
    departRoot, nodes := LinkNodes(depart);
    ghost var root := departRoot.id;
    node := departRoot;
    if node.id != id {
      var d := new NodeRef();
      LoopTree(departRoot, id, d, nodes);
      node := d.target;
      if node != null {
        FoundIsLinked(nodes, root, node);
      }
    }
    if Lone(depart) {
      RootAgreesIff(depart);
      PreorderMember(NodeList(depart), root, id);
      PreorderMember(Edges(depart), root, id);
      if AtOrUnder(Edges(depart), root, id) { BelowRootAgrees(depart, id); }
    }
  }

  lemma FoundIsLinked(nodes: seq<DepartTreeNode>, root: int, node: DepartTreeNode)
    requires Ordered(NodeEdges(nodes)) && AllClimb(nodes) && LinkedBelow(nodes, root)
    requires node in nodes && Under(NodeEdges(nodes), root, node.id)
    ensures Climbs(nodes, node.children, node.id)
    ensures IdsBelow(nodes, node.id, node.children) == Preorder(NodeEdges(nodes), node.id)
  {
    forall p | p in nodes && Under(NodeEdges(nodes), node.id, p.id)
      ensures p.children == ChildrenOf(nodes, p.id)
    {
      UnderTransitive(NodeEdges(nodes), root, node.id, p.id);
    }
    WalkAgrees(nodes, node);
  }

  /** Nodes that are linked or empty climb. */
  lemma ClimbAfterLinking(nodes: seq<DepartTreeNode>, id: int)
    requires Ordered(NodeEdges(nodes)) && LinkedBelow(nodes, id)
    requires forall p :: p in nodes && !Under(NodeEdges(nodes), id, p.id) ==> p.children == []
    ensures AllClimb(nodes)
  {
    forall p | p in nodes
      ensures Climbs(nodes, p.children, p.id)
    {
      ChildrenClimb(nodes, p.id);
    }
  }

  lemma WalkAgrees(nodes: seq<DepartTreeNode>, node: DepartTreeNode)
    requires Ordered(NodeEdges(nodes)) && AllClimb(nodes)
    requires node.children == ChildrenOf(nodes, node.id) && LinkedBelow(nodes, node.id)
    ensures Climbs(nodes, node.children, node.id)
    ensures IdsBelow(nodes, node.id, node.children) == Preorder(NodeEdges(nodes), node.id)
  {
    var t := NodeEdges(nodes);
    ChildrenClimb(nodes, node.id);
    ChildrenIds(nodes, node.id);
    LinkedAgain(nodes, node.id);
    IdsBelowIsPreorder(nodes, node.id, node.children, Kids(t, node.id));
  }
}
