/** The random statement generator: it grows a derivation tree of path nodes in place, saves trees that
    worked, and later replays a deep copy with one node pruned. */
module RandomGenerator {
  import opened Wrappers
  import opened GrammarTrees
  import opened GrammarRuns

  class PathNode {
    var id: nat
    var parent: PathNode?
    var exprProds: Option<Rule>
    var children: seq<PathNode>
    var isFav: bool

    constructor (id: nat, parent: PathNode?, isFav: bool)
      ensures this.id == id && this.parent == parent && exprProds == None && children == [] && this.isFav == isFav
    {
      this.id, this.parent, exprProds, children, this.isFav := id, parent, None, [], isFav;
    }
  }

  // ---------- Trees on the heap ----------

  /** Which nodes make up a tree. */
  datatype Shape = Shape(node: PathNode, kids: seq<Shape>)

  ghost function Nodes(sh: Shape): set<PathNode> {
    {sh.node} + (set k, n | 0 <= k < |sh.kids| && n in Nodes(sh.kids[k]) :: n)
  }

  ghost function NodesOf(shs: seq<Shape>): set<PathNode> {
    set k, n | 0 <= k < |shs| && n in Nodes(shs[k]) :: n
  }

  /** No node occurs twice. */
  ghost predicate Proper(sh: Shape) {
    && sh.node !in NodesOf(sh.kids)
    && Apart(sh.kids)
    && forall k :: 0 <= k < |sh.kids| ==> Proper(sh.kids[k])
  }

  ghost predicate Apart(shs: seq<Shape>) {
    forall i, j :: 0 <= i < j < |shs| ==> Nodes(shs[i]) !! Nodes(shs[j])
  }

  /** The children fields of the nodes are as the shape says. */
  ghost predicate Linked(sh: Shape)
    reads Nodes(sh)
  {
    && |sh.node.children| == |sh.kids|
    && (forall k :: 0 <= k < |sh.kids| ==> sh.node.children[k] == sh.kids[k].node)
    && forall k :: 0 <= k < |sh.kids| ==> Nodes(sh.kids[k]) <= Nodes(sh) && Linked(sh.kids[k])
  }

  /** The derivation tree that the nodes hold. */
  ghost function TreeOf(sh: Shape): Tree
    reads Nodes(sh)
  {
    Tree(sh.node.id, sh.node.isFav, sh.node.exprProds, TreesOf(sh.kids))
  }

  ghost function TreesOf(shs: seq<Shape>): (ts: seq<Tree>)
    reads NodesOf(shs)
    ensures |ts| == |shs|
  {
    seq(|shs|, k requires 0 <= k < |shs| reads NodesOf(shs) => TreeOf(shs[k]))
  }

  ghost predicate Good(sh: Shape)
    reads Nodes(sh)
  {
    Proper(sh) && Linked(sh)
  }

  ghost predicate AllGood(shs: seq<Shape>)
    reads NodesOf(shs)
  {
    Apart(shs) && forall k :: 0 <= k < |shs| ==> Nodes(shs[k]) <= NodesOf(shs) && Good(shs[k])
  }

  /** Below the root every node has the node above it as its parent. */
  ghost predicate Parented(sh: Shape)
    reads Nodes(sh)
    decreases sh
  {
    ParentedBy(sh.node, sh.kids)
  }

  ghost predicate ParentedBy(n: PathNode, shs: seq<Shape>)
    reads NodesOf(shs)
    decreases shs
  {
    forall k :: 0 <= k < |shs| ==> Nodes(shs[k]) <= NodesOf(shs) && shs[k].node.parent == n && Parented(shs[k])
  }

  ghost predicate Roots(ns: seq<PathNode>, shs: seq<Shape>) {
    |ns| == |shs| && forall k :: 0 <= k < |ns| ==> ns[k] == shs[k].node
  }

  /** A node over good subtrees. */
  lemma GoodNode(n: PathNode, kids: seq<Shape>)
    requires AllGood(kids) && Roots(n.children, kids) && n !in NodesOf(kids)
    ensures Good(Shape(n, kids)) && TreeOf(Shape(n, kids)) == Tree(n.id, n.isFav, n.exprProds, TreesOf(kids))
  {
  }

  lemma LoneNode(n: PathNode)
    requires n.children == []
    ensures var sh := Shape(n, []);
      Good(sh) && Nodes(sh) == {n} && TreeOf(sh) == Tree(n.id, n.isFav, n.exprProds, [])
  {
  }

  lemma GoodKids(sh: Shape)
    requires Good(sh)
    ensures AllGood(sh.kids) && Roots(sh.node.children, sh.kids) && sh.node !in NodesOf(sh.kids)
    ensures TreeOf(sh) == Tree(sh.node.id, sh.node.isFav, sh.node.exprProds, TreesOf(sh.kids))
    ensures Nodes(sh) == {sh.node} + NodesOf(sh.kids)
  {
  }

  lemma NodesMore(shs: seq<Shape>, sh: Shape)
    ensures NodesOf(shs + [sh]) == NodesOf(shs) + Nodes(sh)
  {
    hide Nodes;
    var all := shs + [sh];
    forall n | n in NodesOf(shs) + Nodes(sh) ensures n in NodesOf(all) {
      if n in Nodes(sh) {
        assert n in Nodes(all[|shs|]);
      } else {
        var k :| 0 <= k < |shs| && n in Nodes(shs[k]);
        assert n in Nodes(all[k]);
      }
    }
  }

  lemma PartOf(shs: seq<Shape>, k: nat)
    requires k < |shs|
    ensures Nodes(shs[k]) <= NodesOf(shs)
  {
    hide Nodes;
  }

  lemma ApartMore(shs: seq<Shape>, sh: Shape)
    requires Apart(shs) && NodesOf(shs) !! Nodes(sh)
    ensures Apart(shs + [sh])
  {
    hide Nodes, NodesOf;
    forall i, j | 0 <= i < j < |shs + [sh]| ensures Nodes((shs + [sh])[i]) !! Nodes((shs + [sh])[j]) {
      if j == |shs| { PartOf(shs, i); }
    }
  }

  lemma OneMore(shs: seq<Shape>, sh: Shape)
    requires AllGood(shs) && Good(sh) && NodesOf(shs) !! Nodes(sh)
    ensures AllGood(shs + [sh]) && NodesOf(shs + [sh]) == NodesOf(shs) + Nodes(sh)
    ensures TreesOf(shs + [sh]) == TreesOf(shs) + [TreeOf(sh)]
  {
    hide Nodes, NodesOf, Good, TreeOf, Apart;
    NodesMore(shs, sh);
    ApartMore(shs, sh);
    forall k: nat | k < |shs + [sh]| ensures Nodes((shs + [sh])[k]) <= NodesOf(shs + [sh]) && Good((shs + [sh])[k]) {
      PartOf(shs + [sh], k);
    }
  }

  lemma ParentedMore(n: PathNode, shs: seq<Shape>, sh: Shape)
    requires ParentedBy(n, shs) && sh.node.parent == n && Parented(sh)
    ensures ParentedBy(n, shs + [sh])
  {
    hide Nodes, NodesOf, Parented;
    forall k: nat | k < |shs + [sh]| ensures Nodes((shs + [sh])[k]) <= NodesOf(shs + [sh]) {
      PartOf(shs + [sh], k);
    }
  }

  lemma NoKids()
    ensures NodesOf([]) == {} && AllGood([]) && TreesOf([]) == []
  {
  }

  lemma OneOf(shs: seq<Shape>, k: nat)
    requires k < |shs| && AllGood(shs)
    ensures Good(shs[k]) && Nodes(shs[k]) <= NodesOf(shs) && TreesOf(shs)[k] == TreeOf(shs[k])
  {
  }

  // ---------- Copying and listing ----------

  lemma {:induction false} NodesExist(sh: Shape)
    ensures forall n :: n in Nodes(sh) ==> allocated(n)
  {
    forall k | 0 <= k < |sh.kids| { NodesExist(sh.kids[k]); }
  }

  lemma AllExist(shs: seq<Shape>)
    ensures forall n :: n in NodesOf(shs) ==> allocated(n)
  {
    forall k | 0 <= k < |shs| { NodesExist(shs[k]); }
  }

  /** A new tree with the same contents, and with parents of its own. */
  method DeepCopy(src: PathNode, destParent: PathNode?, ghost sh: Shape) returns (dest: PathNode, ghost copy: Shape)
    requires Good(sh) && sh.node == src
    ensures Good(copy) && copy.node == dest && fresh(Nodes(copy)) && dest.parent == destParent
    ensures TreeOf(copy) == old(TreeOf(sh)) && Parented(copy)
    decreases sh, 1
  {
    hide Good, AllGood, TreeOf, TreesOf, Nodes, NodesOf, ParentedBy;
    ghost var ts := TreesOf(sh.kids);
    GoodKids(sh);
    dest := CopyNode(src, destParent, sh.kids);
    ghost var kids: seq<Shape> := [];
    NoKids();
    NoParents(dest);
    for i := 0 to |src.children|
      invariant |kids| == i && AllGood(kids) && fresh(NodesOf(kids)) && dest !in NodesOf(kids) &&
        Roots(dest.children, kids)
      invariant fresh(dest) && dest.exprProds == src.exprProds && dest.id == src.id && dest.isFav == src.isFav &&
        dest.parent == destParent
      invariant AllGood(sh.kids) && TreesOf(sh.kids) == ts && TreesOf(kids) == ts[..i] && dest !in NodesOf(sh.kids)
      invariant ParentedBy(dest, kids)
    {
      OneOf(sh.kids, i);
      var c;
      ghost var sub;
      c, sub := CopyChild(src.children[i], dest, sh.kids[i], kids, sh.kids);
      OneMore(kids, sub);
      ParentedMore(dest, kids, sub);
      kids := kids + [sub];
      AppendChild(dest, c, kids, sh.kids);
    }
    copy := Shape(dest, kids);
    GoodNode(dest, kids);
    GoodKids(copy);
  }

  lemma NoParents(n: PathNode)
    ensures ParentedBy(n, [])
  {
  }

  // Each step leaves the trees alone that it has nothing to do with.

  method CopyNode(src: PathNode, destParent: PathNode?, ghost others: seq<Shape>) returns (dest: PathNode)
    requires AllGood(others)
    ensures fresh(dest) && dest.exprProds == src.exprProds && dest.id == src.id && dest.isFav == src.isFav
    ensures dest.parent == destParent && dest.children == []
    ensures AllGood(others) && TreesOf(others) == old(TreesOf(others)) && dest !in NodesOf(others)
  {
    hide Nodes, NodesOf, Good, TreeOf, Apart;
    AllExist(others);
    dest := new PathNode(src.id, destParent, src.isFav);
    dest.exprProds := src.exprProds;
  }

  method CopyChild(src: PathNode, destParent: PathNode, ghost sh: Shape, ghost done: seq<Shape>,
                   ghost others: seq<Shape>)
    returns (dest: PathNode, ghost copy: Shape)
    requires Good(sh) && sh.node == src && AllGood(done) && AllGood(others)
    ensures Good(copy) && copy.node == dest && fresh(Nodes(copy)) && dest.parent == destParent
    ensures TreeOf(copy) == old(TreeOf(sh))
    ensures AllGood(done) && TreesOf(done) == old(TreesOf(done)) && Nodes(copy) !! NodesOf(done)
    ensures AllGood(others) && TreesOf(others) == old(TreesOf(others))
    ensures Parented(copy) && (old(ParentedBy(destParent, done)) ==> ParentedBy(destParent, done))
    decreases sh, 2
  {
    hide Nodes, NodesOf, Good, TreeOf, Apart, ParentedBy;
    AllExist(done);
    AllExist(others);
    dest, copy := DeepCopy(src, destParent, sh);
  }

  method AppendChild(n: PathNode, c: PathNode, ghost kids: seq<Shape>, ghost others: seq<Shape>)
    requires AllGood(kids) && n !in NodesOf(kids) && AllGood(others) && n !in NodesOf(others)
    modifies n`children
    ensures n.children == old(n.children) + [c]
    ensures AllGood(kids) && TreesOf(kids) == old(TreesOf(kids))
    ensures AllGood(others) && TreesOf(others) == old(TreesOf(others))
    ensures old(ParentedBy(n, kids)) ==> ParentedBy(n, kids)
  {
    hide Nodes, NodesOf, Good, TreeOf, Apart, ParentedBy;
    n.children := n.children + [c];
  }

  // ---------- Listing and pruning ----------

  ghost function Flat(sh: Shape): seq<PathNode>
    decreases sh, 0
  {
    [sh.node] + FlatAll(sh.kids, |sh.kids|)
  }

  ghost function FlatAll(shs: seq<Shape>, n: nat): seq<PathNode>
    requires n <= |shs|
    decreases shs, n
  {
    if n == 0 then [] else FlatAll(shs, n - 1) + Flat(shs[n - 1])
  }

  /** The list names the nodes of the tree. */
  lemma {:induction false} FlatIsNodes(sh: Shape, n: PathNode)
    ensures n in Flat(sh) <==> n in Nodes(sh)
    decreases sh, 0
  {
    FlatAllIsNodes(sh.kids, |sh.kids|, n);
    assert n in Nodes(sh) <==> n == sh.node || exists k :: 0 <= k < |sh.kids| && n in Nodes(sh.kids[k]);
  }

  lemma {:induction false} FlatAllIsNodes(shs: seq<Shape>, m: nat, n: PathNode)
    requires m <= |shs|
    ensures n in FlatAll(shs, m) <==> exists k :: 0 <= k < m && n in Nodes(shs[k])
    decreases shs, m
  {
    hide Nodes;
    if m > 0 {
      FlatAllIsNodes(shs, m - 1, n);
      FlatIsNodes(shs[m - 1], n);
    }
  }

  lemma {:induction false} FlatSize(sh: Shape)
    ensures |Flat(sh)| == TreeSize(TreeOf(sh))
    decreases sh, 0
  {
    FlatAllSize(sh.kids, |sh.kids|);
    assert TreesOf(sh.kids)[..|sh.kids|] == TreeOf(sh).kids;
  }

  lemma {:induction false} FlatAllSize(shs: seq<Shape>, n: nat)
    requires n <= |shs|
    ensures |FlatAll(shs, n)| == TreeSizes(TreesOf(shs)[..n])
    decreases shs, n
  {
    hide TreeOf, Flat;
    if n > 0 {
      FlatAllSize(shs, n - 1);
      FlatSize(shs[n - 1]);
      assert TreesOf(shs)[..n][..n - 1] == TreesOf(shs)[..n - 1];
    }
  }

  /** The root is listed first and nowhere else. */
  lemma RootIsFirst(sh: Shape, n: PathNode)
    requires Proper(sh) && n in Flat(sh)[1..]
    ensures n != sh.node
  {
    hide Nodes;
    FlatAllIsNodes(sh.kids, |sh.kids|, n);
  }

  /** All nodes of a tree, parents first. */
  method GatherAllPathNodes(cur: PathNode, ghost sh: Shape) returns (path: seq<PathNode>)
    requires Good(sh) && sh.node == cur
    ensures path == Flat(sh) && Good(sh)
    decreases sh, 0
  {
    hide Nodes, NodesOf, Flat, FlatAll, Good;
    ChildCount(sh);
    var below: seq<PathNode> := [];
    FlatAllNone(sh.kids);
    for i := 0 to |cur.children|
      invariant Good(sh) && below == FlatAll(sh.kids, i)
    {
      FlatAllMore(sh.kids, i);
      var sub := GatherChild(cur, i, sh);
      below := below + sub;
    }
    FlatMeans(sh);
    path := [cur] + below;
  }

  method GatherChild(cur: PathNode, i: nat, ghost sh: Shape) returns (path: seq<PathNode>)
    requires Good(sh) && sh.node == cur && i < |sh.kids|
    ensures path == Flat(sh.kids[i]) && Good(sh)
    decreases sh.kids[i], 1
  {
    KidOf(sh, i);
    NodesExist(sh);
    hide Nodes, NodesOf, Flat, Proper, Linked;
    path := GatherAllPathNodes(cur.children[i], sh.kids[i]);
  }

  lemma ChildCount(sh: Shape)
    requires Good(sh)
    ensures |sh.node.children| == |sh.kids|
  {
    hide Proper, Nodes, NodesOf;
  }

  lemma FlatAllNone(shs: seq<Shape>)
    ensures FlatAll(shs, 0) == []
  {
  }

  lemma FlatAllMore(shs: seq<Shape>, i: nat)
    requires i < |shs|
    ensures FlatAll(shs, i + 1) == FlatAll(shs, i) + Flat(shs[i])
  {
  }

  lemma FlatMeans(sh: Shape)
    ensures Flat(sh) == [sh.node] + FlatAll(sh.kids, |sh.kids|)
  {
  }

  lemma KidOf(sh: Shape, i: nat)
    requires Good(sh) && i < |sh.kids|
    ensures |sh.node.children| == |sh.kids| && sh.node.children[i] == sh.kids[i].node && Good(sh.kids[i])
  {
  }

  /** The shape that is left when a node loses its children. */
  ghost function PruneAt(sh: Shape, n: PathNode): Shape {
    if sh.node == n then Shape(n, [])
    else Shape(sh.node, seq(|sh.kids|, k requires 0 <= k < |sh.kids| => PruneAt(sh.kids[k], n)))
  }

  lemma {:induction false} PrunedNodes(sh: Shape, n: PathNode)
    ensures Nodes(PruneAt(sh, n)) <= Nodes(sh) && PruneAt(sh, n).node == sh.node
    ensures Proper(sh) ==> Proper(PruneAt(sh, n))
  {
    forall k | 0 <= k < |sh.kids| { PrunedNodes(sh.kids[k], n); }
  }

  /** What the nodes hold, written down. */
  datatype Fields = Fields(id: nat, isFav: bool, rule: Option<Rule>, children: seq<PathNode>)

  type Record = map<PathNode, Fields>

  ghost predicate Recorded(ns: set<PathNode>, f: Record)
    reads ns
  {
    forall n :: n in ns ==> n in f && f[n] == Fields(n.id, n.isFav, n.exprProds, n.children)
  }

  ghost predicate LinkedIn(sh: Shape, f: Record)
    requires Nodes(sh) <= f.Keys
  {
    && |f[sh.node].children| == |sh.kids|
    && (forall k :: 0 <= k < |sh.kids| ==> f[sh.node].children[k] == sh.kids[k].node)
    && forall k :: 0 <= k < |sh.kids| ==> Nodes(sh.kids[k]) <= Nodes(sh) && LinkedIn(sh.kids[k], f)
  }

  ghost function TreeIn(sh: Shape, f: Record): Tree
    requires Nodes(sh) <= f.Keys
  {
    var r := f[sh.node];
    Tree(r.id, r.isFav, r.rule, seq(|sh.kids|, k requires 0 <= k < |sh.kids| =>
      assert Nodes(sh.kids[k]) <= Nodes(sh) by { PartOf(sh.kids, k); }
      TreeIn(sh.kids[k], f)))
  }

  lemma {:induction false} RecordTellsTree(sh: Shape, f: Record)
    requires Nodes(sh) <= f.Keys && Recorded(Nodes(sh), f)
    ensures Linked(sh) <==> LinkedIn(sh, f)
    ensures TreeOf(sh) == TreeIn(sh, f)
  {
    forall k | 0 <= k < |sh.kids|
      ensures Nodes(sh.kids[k]) <= Nodes(sh) && (Linked(sh.kids[k]) <==> LinkedIn(sh.kids[k], f))
      ensures TreeOf(sh.kids[k]) == TreeIn(sh.kids[k], f)
    {
      PartOf(sh.kids, k);
      RecordTellsTree(sh.kids[k], f);
    }
    assert TreesOf(sh.kids) == TreeIn(sh, f).kids;
  }

  lemma {:induction false} Pruned(sh: Shape, n: PathNode, f: Record, h: Record)
    requires Nodes(sh) <= f.Keys == h.Keys && LinkedIn(sh, f) && n in f
    requires h == f[n := Fields(f[n].id, f[n].isFav, None, [])]
    ensures Nodes(PruneAt(sh, n)) <= h.Keys && LinkedIn(PruneAt(sh, n), h)
    ensures Pruning(TreeIn(PruneAt(sh, n), h), TreeIn(sh, f))
  {
    PrunedNodes(sh, n);
    if sh.node != n {
      var p := PruneAt(sh, n);
      forall k | 0 <= k < |sh.kids|
        ensures Nodes(p.kids[k]) <= Nodes(p) <= h.Keys && LinkedIn(p.kids[k], h) && p.kids[k].node == sh.kids[k].node
        ensures Nodes(sh.kids[k]) <= Nodes(sh) && Pruning(TreeIn(p.kids[k], h), TreeIn(sh.kids[k], f))
      {
        PartOf(sh.kids, k);
        PartOf(p.kids, k);
        PrunedNodes(sh.kids[k], n);
        Pruned(sh.kids[k], n, f, h);
      }
    }
  }

  /** Away from node `n` nothing changes. */
  lemma {:induction false} Untouched(sh: Shape, n: PathNode, f: Record, h: Record)
    requires Nodes(sh) <= f.Keys == h.Keys && n in f && n !in Nodes(sh)
    requires h == f[n := Fields(f[n].id, f[n].isFav, None, [])]
    ensures PruneAt(sh, n) == sh && TreeIn(sh, h) == TreeIn(sh, f)
  {
    forall k | 0 <= k < |sh.kids|
      ensures Nodes(sh.kids[k]) <= Nodes(sh)
      ensures PruneAt(sh.kids[k], n) == sh.kids[k] && TreeIn(sh.kids[k], h) == TreeIn(sh.kids[k], f)
    {
      PartOf(sh.kids, k);
      Untouched(sh.kids[k], n, f, h);
    }
    assert PruneAt(sh, n).kids == sh.kids;
  }

  lemma OnlyThere(sh: Shape, n: PathNode, i: nat)
    requires Proper(sh) && i < |sh.kids| && n in Nodes(sh.kids[i])
    ensures n != sh.node && Proper(sh.kids[i])
    ensures forall k :: 0 <= k < |sh.kids| && k != i ==> n !in Nodes(sh.kids[k])
  {
    hide Nodes;
    PartOf(sh.kids, i);
    forall k | 0 <= k < |sh.kids| && k != i ensures n !in Nodes(sh.kids[k]) {
      assert Nodes(sh.kids[if i < k then i else k]) !! Nodes(sh.kids[if i < k then k else i]);
    }
  }

  lemma InSomeKid(sh: Shape, n: PathNode) returns (i: nat)
    requires n in Nodes(sh) && n != sh.node
    ensures i < |sh.kids| && n in Nodes(sh.kids[i])
  {
    i :| 0 <= i < |sh.kids| && n in Nodes(sh.kids[i]);
  }

  lemma KidIn(sh: Shape, k: nat, f: Record)
    requires Nodes(sh) <= f.Keys && k < |sh.kids|
    ensures Nodes(sh.kids[k]) <= Nodes(sh) && |TreeIn(sh, f).kids| == |sh.kids|
    ensures TreeIn(sh, f).kids[k] == TreeIn(sh.kids[k], f)
  {
    PartOf(sh.kids, k);
  }

  /** Pruning gives up exactly the node `n`, which is at some position. */
  lemma {:induction false} PrunedOnce(sh: Shape, n: PathNode, f: Record, h: Record) returns (p: seq<nat>)
    requires Nodes(sh) <= f.Keys == h.Keys && Proper(sh) && n in Nodes(sh)
    requires h == f[n := Fields(f[n].id, f[n].isFav, None, [])]
    ensures Nodes(PruneAt(sh, n)) <= h.Keys && GivenUpAt(TreeIn(PruneAt(sh, n), h), TreeIn(sh, f), p)
    ensures p == [] <==> n == sh.node
  {
    PrunedNodes(sh, n);
    if sh.node == n {
      p := [];
    } else {
      hide Nodes, Proper, TreeIn, PruneAt;
      var i := InSomeKid(sh, n);
      OnlyThere(sh, n, i);
      KidIn(sh, i, f);
      var q := PrunedOnce(sh.kids[i], n, f, h);
      p := [i] + q;
      assert p[0] == i && p[1..] == q;
      PrunedKids(sh, n, i, f, h);
    }
  }

  lemma PrunedKids(sh: Shape, n: PathNode, i: nat, f: Record, h: Record)
    requires Nodes(sh) <= f.Keys == h.Keys && Proper(sh) && i < |sh.kids| && n in Nodes(sh.kids[i])
    requires h == f[n := Fields(f[n].id, f[n].isFav, None, [])]
    ensures Nodes(PruneAt(sh, n)) <= h.Keys && Nodes(sh.kids[i]) <= Nodes(sh) && Nodes(PruneAt(sh.kids[i], n)) <= h.Keys
    ensures var u, t := TreeIn(PruneAt(sh, n), h), TreeIn(sh, f);
      && |u.kids| == |t.kids| == |sh.kids| && u.kids[i] == TreeIn(PruneAt(sh.kids[i], n), h)
      && t.kids[i] == TreeIn(sh.kids[i], f)
      && u == Tree(t.id, t.isFav, t.rule, t.kids[i := u.kids[i]])
  {
    hide Nodes, Proper;
    PrunedNodes(sh, n);
    KidIn(sh, i, f);
    PrunedNodes(sh.kids[i], n);
    OnlyThere(sh, n, i);
    var p := PruneAt(sh, n);
    assert p.node == sh.node && |p.kids| == |sh.kids| && p.kids[i] == PruneAt(sh.kids[i], n);
    KidIn(p, i, h);
    var u, t := TreeIn(p, h), TreeIn(sh, f);
    assert u.id == t.id && u.isFav == t.isFav && u.rule == t.rule;
    forall k | 0 <= k < |sh.kids| && k != i ensures u.kids[k] == t.kids[k] {
      KidIn(sh, k, f);
      KidIn(p, k, h);
      Untouched(sh.kids[k], n, f, h);
    }
    hide TreeIn, PruneAt;
    assert u.kids == t.kids[i := u.kids[i]];
  }

  /** Gives up the choices at one node of a tree. */
  method Prune(n: PathNode, ghost sh: Shape) returns (ghost p: seq<nat>)
    requires Good(sh) && n in Nodes(sh)
    modifies n
    ensures GivenUpAt(TreeOf(PruneAt(sh, n)), old(TreeOf(sh)), p) && (p == [] <==> n == sh.node)
    ensures Good(PruneAt(sh, n)) && Nodes(PruneAt(sh, n)) <= Nodes(sh) && PruneAt(sh, n).node == sh.node
    ensures Pruning(TreeOf(PruneAt(sh, n)), old(TreeOf(sh)))
  {
    hide Nodes, Linked, TreeOf, Proper, LinkedIn, TreeIn, PruneAt, Pruning, GivenUpAt;
    ghost var f := map m | m in Nodes(sh) :: Fields(m.id, m.isFav, m.exprProds, m.children);
    RecordTellsTree(sh, f);
    n.exprProds := None;
    n.children := [];
    ghost var h := f[n := Fields(f[n].id, f[n].isFav, None, [])];
    PrunedNodes(sh, n);
    Pruned(sh, n, f, h);
    p := PrunedOnce(sh, n, f, h);
    RecordTellsTree(PruneAt(sh, n), h);
  }

  // ---------- Generating ----------

  lemma Fits(whole: seq<Shape>, i: nat, sub: Shape)
    requires i < |whole|
    ensures NodesOf(whole) == NodesOf(whole[..i] + whole[i + 1..]) + Nodes(whole[i])
    ensures NodesOf(whole[i := sub]) == NodesOf(whole[..i] + whole[i + 1..]) + Nodes(sub)
  {
    hide Nodes;
    var rest, next := whole[..i] + whole[i + 1..], whole[i := sub];
    forall n | n in NodesOf(whole) ensures n in NodesOf(rest) + Nodes(whole[i]) {
      var k :| 0 <= k < |whole| && n in Nodes(whole[k]);
      if k < i { assert n in Nodes(rest[k]); } else if k > i { assert n in Nodes(rest[k - 1]); }
    }
    forall n | n in NodesOf(next) ensures n in NodesOf(rest) + Nodes(sub) {
      var k :| 0 <= k < |next| && n in Nodes(next[k]);
      if k < i { assert n in Nodes(rest[k]); } else if k > i { assert n in Nodes(rest[k - 1]); }
    }
    forall n | n in NodesOf(rest) ensures n in NodesOf(whole) && n in NodesOf(next) {
      var k :| 0 <= k < |rest| && n in Nodes(rest[k]);
      if k < i { assert n in Nodes(whole[k]) && n in Nodes(next[k]); }
      else { assert n in Nodes(whole[k + 1]) && n in Nodes(next[k + 1]); }
    }
    assert forall n :: n in Nodes(sub) ==> n in Nodes(next[i]);
    assert forall n :: n in Nodes(whole[i]) ==> n in NodesOf(whole);
  }

  /** Taking one tree out of a row. */
  lemma TakeOut(whole: seq<Shape>, i: nat)
    requires i < |whole| && AllGood(whole)
    ensures var rest := whole[..i] + whole[i + 1..];
      && AllGood(rest) && Good(whole[i]) && NodesOf(rest) !! Nodes(whole[i])
      && NodesOf(whole) == NodesOf(rest) + Nodes(whole[i])
      && TreesOf(rest) == TreesOf(whole)[..i] + TreesOf(whole)[i + 1..] && TreeOf(whole[i]) == TreesOf(whole)[i]
  {
    hide Nodes, Good, TreeOf;
    Fits(whole, i, whole[i]);
    var rest := whole[..i] + whole[i + 1..];
    forall k: nat | k < |rest|
      ensures Nodes(rest[k]) <= NodesOf(rest) && Good(rest[k]) && Nodes(rest[k]) !! Nodes(whole[i]) {
      PartOf(rest, k);
    }
  }

  /** Putting another tree in its place. */
  lemma PutBack(whole: seq<Shape>, i: nat, sub: Shape)
    requires i < |whole| && AllGood(whole[..i] + whole[i + 1..]) && Good(sub)
    requires NodesOf(whole[..i] + whole[i + 1..]) !! Nodes(sub)
    ensures AllGood(whole[i := sub])
    ensures var ts := TreesOf(whole[..i] + whole[i + 1..]);
      TreesOf(whole[i := sub]) == ts[..i] + [TreeOf(sub)] + ts[i..]
  {
    hide Nodes, Good, TreeOf, NodesOf;
    var rest, next := whole[..i] + whole[i + 1..], whole[i := sub];
    var ts := TreesOf(rest);
    forall k: nat | k < |next| ensures TreesOf(next)[k] == (ts[..i] + [TreeOf(sub)] + ts[i..])[k] {
      if k < i { assert next[k] == rest[k]; } else if k > i { assert next[k] == rest[k - 1]; }
    }
    forall k: nat | k < |next| ensures Nodes(next[k]) <= NodesOf(next) && Good(next[k]) {
      PartOf(next, k);
      if k < i { assert next[k] == rest[k]; } else if k > i { assert next[k] == rest[k - 1]; }
    }
    forall x: nat, y: nat | x < y < |next| ensures Nodes(next[x]) !! Nodes(next[y]) {
      if x == i { PartOf(rest, y - 1); assert next[y] == rest[y - 1]; }
      else if y == i { PartOf(rest, x); assert next[x] == rest[x]; }
      else { assert next[x] == rest[if x < i then x else x - 1] && next[y] == rest[if y < i then y else y - 1]; }
    }
  }

  // ---------- Saved trees ----------

  /** The list of nodes of a derivation from `root`, root node first. */
  ghost predicate IsDerivation(g: Grammar, root: Symbol, path: seq<PathNode>, sh: Shape)
    reads Nodes(sh)
  {
    Good(sh) && path == Flat(sh) && Derives(g, root, TreeOf(sh))
  }

  type Paths = map<Symbol, seq<seq<PathNode>>>
  type Shapes = map<Symbol, seq<Shape>>

  /** Every saved list is a derivation from the root it is saved under. */
  ghost predicate Library(g: Grammar, paths: Paths, shapes: Shapes, known: set<PathNode>)
    reads known
  {
    && paths.Keys == shapes.Keys
    && forall r :: r in paths ==> |paths[r]| == |shapes[r]| && AllDerivations(g, r, paths[r], shapes[r], known)
  }

  ghost predicate AllDerivations(g: Grammar, r: Symbol, ps: seq<seq<PathNode>>, shs: seq<Shape>, known: set<PathNode>)
    requires |ps| == |shs|
    reads known
  {
    forall k :: 0 <= k < |ps| ==> Nodes(shs[k]) <= known && IsDerivation(g, r, ps[k], shs[k])
  }

  lemma SavedOne(g: Grammar, paths: Paths, shapes: Shapes, known: set<PathNode>, r: Symbol, k: nat)
    requires Library(g, paths, shapes, known) && r in paths && k < |paths[r]|
    ensures r in shapes && k < |shapes[r]| && Nodes(shapes[r][k]) <= known &&
      IsDerivation(g, r, paths[r][k], shapes[r][k])
    ensures |paths[r][k]| > 0 && paths[r][k][0] == shapes[r][k].node
  {
    FlatMeans(shapes[r][k]);
  }

  function Listed<T>(m: map<Symbol, seq<T>>, r: Symbol): seq<T> {
    if r in m then m[r] else []
  }

  /** One of the trees is `t`. */
  ghost predicate Holds(shs: seq<Shape>, known: set<PathNode>, t: Tree)
    reads known
  {
    exists k :: 0 <= k < |shs| && Nodes(shs[k]) <= known && TreeOf(shs[k]) == t
  }

  /** One more saved derivation. */
  lemma SaveOne(g: Grammar, paths: Paths, shapes: Shapes, known: set<PathNode>, r: Symbol, p: seq<PathNode>, sh: Shape)
    requires Library(g, paths, shapes, known) && Nodes(sh) <= known && IsDerivation(g, r, p, sh)
    ensures Library(g, paths[r := Listed(paths, r) + [p]], shapes[r := Listed(shapes, r) + [sh]], known)
  {
    hide IsDerivation, Nodes;
  }

  lemma DropFirst(g: Grammar, paths: Paths, shapes: Shapes, known: set<PathNode>, r: Symbol)
    requires Library(g, paths, shapes, known) && r in paths && |paths[r]| > 0
    ensures |shapes[r]| > 0 && Library(g, paths[r := paths[r][1..]], shapes[r := shapes[r][1..]], known)
  {
    hide IsDerivation, Nodes;
  }

  /** The library does not mind nodes that it does not know. */
  lemma KnowMore(g: Grammar, paths: Paths, shapes: Shapes, known: set<PathNode>, more: set<PathNode>)
    requires Library(g, paths, shapes, known)
    ensures Library(g, paths, shapes, known + more)
  {
    hide IsDerivation, Nodes;
  }

  /** The parts of a text with `sep` between them. */
  function Glued(parts: seq<string>, sep: string): string {
    if |parts| == 0 then "" else if |parts| == 1 then parts[0] else parts[0] + sep + Glued(parts[1..], sep)
  }

  /** The words with blanks between them. */
  function Joined(ws: seq<string>): string {
    Glued(ws, " ")
  }

  /** `s` without the occurrences of `part`, found from left to right. */
  function Erased(s: string, part: string): string {
    if s == "" || part == "" then s
    else if |part| <= |s| && s[..|part|] == part then Erased(s[|part|..], part)
    else [s[0]] + Erased(s[1..], part)
  }

  ghost predicate OccursAt(part: string, s: string, i: nat) {
    i + |part| <= |s| && s[i..i + |part|] == part
  }

  ghost predicate HoldNone(pieces: seq<string>, part: string) {
    forall k, i: nat :: 0 <= k < |pieces| ==> !OccursAt(part, pieces[k], i)
  }

  /** A text is what stands between the occurrences of `part`, with `part` put back between; erasing leaves the
      same pieces with nothing between, and none of them holds `part`. */
  lemma {:induction false} ErasedMeans(s: string, part: string) returns (pieces: seq<string>)
    requires part != ""
    ensures |pieces| > 0 && s == Glued(pieces, part) && Erased(s, part) == Glued(pieces, "")
    ensures HoldNone(pieces, part)
  {
    hide Glued, HoldNone;
    if s == "" {
      pieces := [""];
      NoPiece(part);
    } else if |part| <= |s| && s[..|part|] == part {
      var rest := ErasedMeans(s[|part|..], part);
      pieces := [""] + rest;
      assert s == part + s[|part|..];
      GluedBefore(rest, part);
      GluedBefore(rest, "");
      HoldNoneBefore(rest, part);
    } else {
      var rest := ErasedMeans(s[1..], part);
      pieces := [[s[0]] + rest[0]] + rest[1..];
      assert s == [s[0]] + s[1..];
      GluedMore(s[0], rest, part);
      GluedMore(s[0], rest, "");
      HoldNoneMore(s[0], rest, part);
    }
  }

  lemma NoPiece(part: string)
    requires part != ""
    ensures Glued([""], part) == "" && Glued([""], "") == "" && HoldNone([""], part)
  {
  }

  lemma GluedBefore(parts: seq<string>, sep: string)
    requires |parts| > 0
    ensures Glued([""] + parts, sep) == sep + Glued(parts, sep)
  {
    assert ([""] + parts)[1..] == parts;
  }

  lemma GluedMore(c: char, parts: seq<string>, sep: string)
    requires |parts| > 0
    ensures Glued([[c] + parts[0]] + parts[1..], sep) == [c] + Glued(parts, sep)
  {
    var more := [[c] + parts[0]] + parts[1..];
    assert more[1..] == parts[1..];
    if |parts| > 1 {
      assert ([c] + parts[0]) + sep + Glued(parts[1..], sep) == [c] + (parts[0] + sep + Glued(parts[1..], sep));
    }
  }

  lemma HoldNoneBefore(pieces: seq<string>, part: string)
    requires part != "" && HoldNone(pieces, part)
    ensures HoldNone([""] + pieces, part)
  {
  }

  lemma HoldNoneMore(c: char, pieces: seq<string>, part: string)
    requires part != "" && |pieces| > 0 && HoldNone(pieces, part)
    requires !(part <= [c] + Glued(pieces, part))
    ensures HoldNone([[c] + pieces[0]] + pieces[1..], part)
  {
    var first := [c] + pieces[0];
    GluedStart(pieces, part);
    assert first <= [c] + Glued(pieces, part);
    forall i: nat | i > 0 && i + |part| <= |first| ensures !OccursAt(part, first, i) {
      assert first[i..i + |part|] == pieces[0][i - 1..i - 1 + |part|];
      assert !OccursAt(part, pieces[0], i - 1);
    }
  }

  lemma GluedStart(parts: seq<string>, sep: string)
    requires |parts| > 0
    ensures parts[0] <= Glued(parts, sep)
  {
  }

  class StatementGenerator {
    const g: Grammar
    var pathId: nat
    var savedPath: Paths
    var savedFavPath: Paths
    var curChosenPath: seq<PathNode>
    var curMutatingType: Symbol
    ghost var savedShapes: Shapes
    ghost var favShapes: Shapes
    ghost var curShapes: seq<Shape>            // the shape of the current tree, if there is one
    ghost var known: set<PathNode>             // all nodes of these trees

    /** What is saved is sound. */
    ghost predicate Stocked()
      reads this, known
    {
      Sound(g) && Library(g, savedPath, savedShapes, known) && Library(g, savedFavPath, favShapes, known)
    }

    ghost predicate Valid()
      reads this, known
    {
      && Stocked()
      && ((curChosenPath == [] && curShapes == []) ||
          (|curShapes| == 1 && Nodes(curShapes[0]) <= known &&
              IsDerivation(g, curMutatingType, curChosenPath, curShapes[0])))
    }

    constructor (g: Grammar)
      requires Sound(g)
      ensures Valid() && this.g == g && savedPath == map[] && savedFavPath == map[] && curChosenPath == []
    {
      this.g, pathId, savedPath, savedFavPath, curChosenPath, curMutatingType := g, 0, map[], map[], [], "";
      savedShapes, favShapes, curShapes, known := map[], map[], [], {};
    }

    /** The first words of an item that is not expanded. */
    method ItemText(it: Item, ghost kids: seq<Shape>) returns (v: seq<string>)
      requires Sound(g) && SoundItem(it) && !Expandable(g, it) && AllGood(kids)
      ensures ItemWords(g, it, v)
      ensures AllGood(kids) && TreesOf(kids) == old(TreesOf(kids))
    {
      hide AllGood, TreesOf, Nodes, NodesOf;
      match it
      case Literal(text) => v := [text[1..|text| - 1]];
      case Token(sym) =>
        if sym in g.words {
          var k: nat :| k < |g.words[sym]|;
          v := [g.words[sym][k]];
        } else {
          v := [Terminal(sym)];
        }
    }

    /** Generates the statement of a node: afresh if it has no rule, else by its rule and children. */
    method GenerateMySQL(root: Symbol, node: PathNode, depth: int, fuel: nat, ghost sh: Shape)
      returns (ret: Outcome, ghost after: Shape, ghost tr: Trace)
      requires Sound(g) && Good(sh) && sh.node == node && Derives(g, root, TreeOf(sh))
      requires root in g.prods || root in SKIPPED || node.exprProds.Some?
      modifies Nodes(sh), `pathId
      ensures ret != OutOfFuel ==> Good(after) && after.node == node && fresh(Nodes(after) - Nodes(sh))
      ensures ret != OutOfFuel ==> Generated(g, root, depth, old(TreeOf(sh)), TreeOf(after), ret)
      ensures ret.Words? ==> Happened(g, root, depth, old(TreeOf(sh)), tr, ret.words, TreeOf(after))
      decreases fuel, 2
    {
      after, tr := sh, Skip;
      if root in SKIPPED {
        SkippedRoot(g, root, depth, TreeOf(sh));
        NothingHappened(g, root, depth, TreeOf(sh));
        return Words([]), sh, Skip;
      }
      if fuel == 0 { return OutOfFuel, sh, Skip; }
      hide Derives, Generated, Happened, Nodes, NodesOf, Proper, Linked, TreesOf;
      GoodKids(sh);
      if node.exprProds == None {
        var k: nat :| k < |g.prods[root]|;
        ret, after, tr := Expand(root, node, g.prods[root][k], depth, fuel, sh);
      } else {
        ret, after, tr := Replay(root, node, node.exprProds.value, depth, fuel, sh);
      }
    }

    /** A node without a rule: picks up the rule and grows a child for every expandable item. Once the
        depth is used up, a token that can be cut short discards rule and children again. */
    method Expand(root: Symbol, node: PathNode, rule: Rule, depth: int, fuel: nat, ghost sh: Shape)
      returns (ret: Outcome, ghost after: Shape, ghost tr: Trace)
      requires fuel > 0 && Sound(g) && Good(sh) && sh.node == node && node.exprProds == None
      requires root in g.prods && root !in SKIPPED && rule in g.prods[root]
      modifies node, `pathId
      ensures ret != OutOfFuel ==> Good(after) && after.node == node && fresh(Nodes(after) - {node})
      ensures ret != OutOfFuel ==> Generated(g, root, depth, old(TreeOf(sh)), TreeOf(after), ret)
      ensures ret.Words? ==> Happened(g, root, depth, old(TreeOf(sh)), tr, ret.words, TreeOf(after))
      decreases fuel, 1
    {
      hide Derives, Generated, Nodes, NodesOf, Good, TreeOf, TreesOf, AllGood, Complete, Spells, ItemWords, CutShort,
        ShortForm, Happened, Growing;
      GoodKids(sh);
      ghost var before := TreeOf(sh);
      var isComplex := root in g.complex && rule in g.complex[root];
      var isFav: bool := *;                    // some rule of the root was never triggered
      node.exprProds := Some(rule);
      node.children := [];
      var words: seq<string> := [];
      ghost var kids: seq<Shape>, parts: seq<Part>, cut := [], [], false;
      NoKids();
      GrowingStart(g, root, depth, before, rule);
      for n := 0 to |rule.items|
        invariant node.exprProds == (if cut then None else Some(rule)) && node.id == old(node.id) &&
          node.isFav == old(node.isFav)
        invariant AllGood(kids) && Roots(node.children, kids) && node !in NodesOf(kids) && fresh(NodesOf(kids))
        invariant Growing(g, root, depth, before, rule, n, parts, words, cut, TreesOf(kids))
      {
        var it := rule.items[n];
        SoundRule(root, rule, n);
        if it.Token? && depth < 0 && CutShort(it.sym) {
          GrowingCut(g, root, depth, before, rule, n, parts, words, cut, TreesOf(kids));
          words := words + [ShortForm(it.sym)];
          node.exprProds := None;
          node.children := [];
          kids, cut, parts := [], true, parts + [Cut(ShortForm(it.sym))];
          NoKids();
        } else if it.Token? && it.sym !in g.words && it.sym in g.prods {
          var v;
          ghost var sub, below, leaf;
          v, sub, below, leaf := ExpandKid(node, it.sym, if isComplex then depth - 1 else depth, isFav, fuel - 1, kids);
          if v == OutOfFuel { return OutOfFuel, sh, Skip; }
          OneMore(kids, sub);
          ghost var ts := TreesOf(kids);
          GrowingKid(g, root, depth, before, rule, n, parts, words, cut, ts, leaf, below, v.words, TreeOf(sub));
          kids, parts := kids + [sub], parts + [Below(below)];
          words := words + v.words;
        } else {
          var v := ItemText(it, kids);
          GrowingSaid(g, root, depth, before, rule, n, parts, words, cut, TreesOf(kids), v);
          parts := parts + [Said(v)];
          words := words + v;
        }
      }
      after, tr := Shape(node, kids), Made(rule, parts);
      GoodNode(node, kids);
      GoodKids(after);
      GrowingDone(g, root, depth, before, rule, parts, words, cut, TreeOf(after));
      ret := Words(words);
    }

    lemma SoundRule(root: Symbol, rule: Rule, n: nat)
      requires Sound(g) && root in g.prods && rule in g.prods[root] && n < |rule.items|
      ensures SoundItem(rule.items[n])
    {
    }

    /** A node with a rule: takes its children one after the other. With the depth used up, a token that
        is cut short discards rule and children, and the next child is missing. */
    method Replay(root: Symbol, node: PathNode, rule: Rule, depth: int, fuel: nat, ghost sh: Shape)
      returns (ret: Outcome, ghost after: Shape, ghost tr: Trace)
      requires fuel > 0 && Sound(g) && Good(sh) && sh.node == node && node.exprProds == Some(rule)
      requires root !in SKIPPED && Derives(g, root, TreeOf(sh))
      modifies Nodes(sh), `pathId
      ensures ret != OutOfFuel ==> Good(after) && after.node == node && fresh(Nodes(after) - Nodes(sh))
      ensures ret != OutOfFuel ==> Generated(g, root, depth, old(TreeOf(sh)), TreeOf(after), ret)
      ensures ret.Words? ==> Happened(g, root, depth, old(TreeOf(sh)), tr, ret.words, TreeOf(after))
      decreases fuel, 1
    {
      hide Derives, Generated, Nodes, NodesOf, Good, TreeOf, TreesOf, AllGood, Doomed, DoomedFrom, ItemWords, CutShort,
        ShortForm, Happened, Following, Replaying;
      GoodKids(sh);
      ghost var before, items := TreeOf(sh), rule.items;
      ReplayStart(root, depth, before, rule);
      FollowingStart(g, root, depth, before, rule);
      var words: seq<string>, replayIdx := [], 0;
      ghost var kids, parts: seq<Part>, cut := sh.kids, [], false;
      for n := 0 to |rule.items|
        invariant node.exprProds == (if cut then None else Some(rule)) && node.id == before.id &&
          node.isFav == before.isFav
        invariant AllGood(kids) && Roots(node.children, kids) && node !in NodesOf(kids)
        invariant forall x :: x in NodesOf(kids) ==> x in NodesOf(sh.kids) || fresh(x)
        invariant cut ==> kids == [] && depth < 0
        invariant !cut ==> replayIdx == |KidSymbols(g, items, n)| && |kids| == |before.kids|
        invariant Following(g, root, depth, before, rule, n, parts, words, cut, TreesOf(kids))
        invariant depth < 0 ==> (Doomed(g, root, before) <==> DoomedFrom(g, items, n, before.kids, cut))
      {
        var it := rule.items[n];
        DerivesRule(root, before, rule, n);
        DoomedStep(g, items, n, before.kids, cut);
        if it.Token? && depth < 0 && CutShort(it.sym) {
          FollowingCut(g, root, depth, before, rule, n, parts, words, cut, TreesOf(kids));
          parts := parts + [Cut(ShortForm(it.sym))];
          words := words + [ShortForm(it.sym)];
          node.exprProds := None;
          node.children := [];
          kids, cut := [], true;
          NoKids();
        } else if it.Token? && it.sym !in g.words && it.sym in g.prods {
          if replayIdx >= |node.children| {
            after := Shape(node, []);
            NoKids();
            GoodNode(node, []);
            GoodKids(after);
            NoRule(root, depth, before, TreeOf(after), Nil);
            return Nil, after, Skip;
          }
          ghost var ts := TreesOf(kids);
          FollowingMeans(root, depth, before, rule, n, parts, words, ts);
          KidDerives(root, before, rule, n, depth, ts, words);
          PartOf(kids, replayIdx);
          ghost var row := NodesOf(kids);
          label Ready:
          var v;
          ghost var sub, below;
          v, sub, below := ReplayKid(node, replayIdx, it.sym, depth, fuel - 1, kids);
          if v == OutOfFuel { return OutOfFuel, sh, Skip; }
          kids := kids[replayIdx := sub];
          forall x | x in NodesOf(kids) ensures x in NodesOf(sh.kids) || fresh(x) {
            if x !in row { assert x in NodesOf(kids) - row; assert fresh@Ready(x); }
          }
          if v == Nil {
            after := Shape(node, kids);
            GoodNode(node, kids);
            GoodKids(after);
            GeneratedNil(it.sym, depth, before.kids[replayIdx], TreeOf(sub));
            FailedInKid(g, root, n, depth, before, ts, TreeOf(after), words, TreeOf(sub));
            return Nil, after, Skip;
          }
          GeneratedWords(it.sym, depth, before.kids[replayIdx], TreeOf(sub), v.words);
          FollowingKid(g, root, depth, before, rule, n, parts, words, ts, below, v.words, TreeOf(sub));
          parts := parts + [Below(below)];
          NextKid(items, n);
          replayIdx := replayIdx + 1;
          words := words + v.words;
        } else {
          var v := ItemText(it, kids);
          FollowingSaid(g, root, depth, before, rule, n, parts, words, cut, TreesOf(kids), v);
          parts := parts + [Said(v)];
          words := words + v;
        }
      }
      after := Shape(node, kids);
      GoodNode(node, kids);
      GoodKids(after);
      ReplayEnd(items, before.kids, cut);
      FollowingDone(g, root, depth, before, rule, parts, words, cut, TreeOf(after));
      tr := Made(rule, parts);
      if cut {
        NoRule(root, depth, before, TreeOf(after), Words(words));
      } else {
        FollowingMeans(root, depth, before, rule, |rule.items|, parts, words, TreesOf(kids));
        ReplayedRoot(g, root, depth, before, TreeOf(after), words);
      }
      ret := Words(words);
    }

    lemma FollowingMeans(root: Symbol, depth: int, before: Tree, rule: Rule, n: nat, parts: seq<Part>,
                         words: seq<string>, ts: seq<Tree>)
      requires n <= |rule.items| && Following(g, root, depth, before, rule, n, parts, words, false, ts)
      ensures Replaying(g, rule.items, n, depth, before.kids, ts, words)
    {
    }

    lemma ReplayStart(root: Symbol, depth: int, before: Tree, rule: Rule)
      requires Derives(g, root, before) && before.rule == Some(rule) && root !in SKIPPED
      ensures |before.kids| == |AllKids(g, rule)|
      ensures Replaying(g, rule.items, 0, depth, before.kids, before.kids, [])
      ensures Doomed(g, root, before) <==> DoomedFrom(g, rule.items, 0, before.kids, false)
    {
    }

    lemma ReplayEnd(items: seq<Item>, kids: seq<Tree>, cut: bool)
      requires |KidSymbols(g, items, |items|)| <= |kids|
      ensures !DoomedFrom(g, items, |items|, kids, cut)
    {
    }

    lemma NextKid(items: seq<Item>, n: nat)
      requires n < |items| && Expandable(g, items[n])
      ensures |KidSymbols(g, items, n + 1)| == |KidSymbols(g, items, n)| + 1
    {
    }

    lemma DerivesRule(root: Symbol, t: Tree, rule: Rule, n: nat)
      requires Sound(g) && Derives(g, root, t) && t.rule == Some(rule) && n < |rule.items|
      ensures |t.kids| == |AllKids(g, rule)| && SoundItem(rule.items[n]) && root in g.prods
    {
    }

    /** The child for item `n` has not been touched yet and derives from the item. */
    lemma KidDerives(root: Symbol, t: Tree, rule: Rule, n: nat, depth: int, now: seq<Tree>, ws: seq<string>)
      requires Derives(g, root, t) && t.rule == Some(rule) && n < |rule.items| && Expandable(g, rule.items[n])
      requires Replaying(g, rule.items, n, depth, t.kids, now, ws)
      ensures var i := |KidSymbols(g, rule.items, n)|;
        i < |t.kids| == |now| && now[i] == t.kids[i] && Derives(g, rule.items[n].sym, t.kids[i])
    {
      KidSymbolsPrefix(g, rule.items, n + 1, |rule.items|);
      var i := |KidSymbols(g, rule.items, n)|;
      assert KidSymbols(g, rule.items, n + 1)[i] == rule.items[n].sym == AllKids(g, rule)[i];
    }

    lemma GeneratedNil(sym: Symbol, depth: int, before: Tree, after: Tree)
      requires Generated(g, sym, depth, before, after, Nil)
      ensures depth < 0 && Doomed(g, sym, before)
    {
    }

    lemma GeneratedWords(sym: Symbol, depth: int, before: Tree, after: Tree, ws: seq<string>)
      requires Generated(g, sym, depth, before, after, Words(ws))
      ensures depth < 0 ==> !Doomed(g, sym, before)
    {
    }

    /** A node that lost its rule once the depth was used up. */
    lemma NoRule(root: Symbol, depth: int, before: Tree, after: Tree, ret: Outcome)
      requires root !in SKIPPED && before.rule.Some? && after.rule == None && depth < 0 && ret != OutOfFuel
      requires ret == Nil <==> Doomed(g, root, before)
      ensures Generated(g, root, depth, before, after, ret)
    {
      hide Doomed;
    }

    /** The next child in the row. */
    method ReplayKid(node: PathNode, i: nat, sym: Symbol, depth: int, fuel: nat, ghost kids: seq<Shape>)
      returns (v: Outcome, ghost sub: Shape, ghost tr: Trace)
      requires Sound(g) && sym in g.prods && AllGood(kids) && Roots(node.children, kids) && node !in NodesOf(kids)
      requires i < |kids| && Derives(g, sym, TreesOf(kids)[i])
      modifies Nodes(kids[i]), `pathId
      ensures v != OutOfFuel ==>
        AllGood(kids[i := sub]) && Roots(node.children, kids[i := sub]) && node !in NodesOf(kids[i := sub])
      ensures v != OutOfFuel ==> TreesOf(kids[i := sub]) == old(TreesOf(kids))[i := TreeOf(sub)]
      ensures v != OutOfFuel ==> Generated(g, sym, depth, old(TreesOf(kids))[i], TreeOf(sub), v)
      ensures v.Words? ==> Happened(g, sym, depth, old(TreesOf(kids))[i], tr, v.words, TreeOf(sub))
      ensures v != OutOfFuel ==> fresh(NodesOf(kids[i := sub]) - NodesOf(kids))
      ensures node.exprProds == old(node.exprProds) && node.id == old(node.id) && node.isFav == old(node.isFav)
      decreases fuel, 4
    {
      hide Nodes, NodesOf, Good, TreeOf, TreesOf, AllGood, Derives, Generated, Happened, Sound;
      TakeOut(kids, i);
      Fits(kids, i, kids[i]);
      v, sub, tr := GenerateChild(sym, node.children[i], depth, fuel, kids[i], kids[..i] + kids[i + 1..]);
      if v != OutOfFuel {
        PutBack(kids, i, sub);
        Fits(kids, i, sub);
      }
    }

    /** One child: what it has nothing to do with stays as it is. */
    method GenerateChild(sym: Symbol, child: PathNode, depth: int, fuel: nat, ghost sub: Shape,
                         ghost others: seq<Shape>)
      returns (ret: Outcome, ghost after: Shape, ghost tr: Trace)
      requires Sound(g) && Good(sub) && sub.node == child && Derives(g, sym, TreeOf(sub)) && sym in g.prods
      requires AllGood(others) && NodesOf(others) !! Nodes(sub)
      modifies Nodes(sub), `pathId
      ensures ret != OutOfFuel ==> Good(after) && after.node == child && fresh(Nodes(after) - Nodes(sub))
      ensures ret != OutOfFuel ==> Generated(g, sym, depth, old(TreeOf(sub)), TreeOf(after), ret)
      ensures ret.Words? ==> Happened(g, sym, depth, old(TreeOf(sub)), tr, ret.words, TreeOf(after))
      ensures ret != OutOfFuel ==>
        AllGood(others) && TreesOf(others) == old(TreesOf(others)) && NodesOf(others) !! Nodes(after)
      decreases fuel, 3
    {
      hide Nodes, NodesOf, Good, TreeOf, Apart, Derives, Generated, Happened, Sound;
      AllExist(others);
      ret, after, tr := GenerateMySQL(sym, child, depth, fuel, sub);
    }

    /** A new child at the end of the row, and its statement. */
    method ExpandKid(node: PathNode, sym: Symbol, depth: int, isFav: bool, fuel: nat, ghost kids: seq<Shape>)
      returns (ret: Outcome, ghost sub: Shape, ghost tr: Trace, ghost leaf: Tree)
      requires Sound(g) && sym in g.prods && AllGood(kids) && node !in NodesOf(kids)
      modifies node`children, `pathId
      ensures ret != OutOfFuel ==> Good(sub) && fresh(Nodes(sub)) && node.children == old(node.children) + [sub.node]
      ensures ret != OutOfFuel ==> AllGood(kids) && TreesOf(kids) == old(TreesOf(kids))
      ensures ret != OutOfFuel ==> NodesOf(kids) !! Nodes(sub) && node !in Nodes(sub)
      ensures ret != OutOfFuel ==> ret.Words? && Derives(g, sym, TreeOf(sub))
      ensures ret != OutOfFuel && Complete(g, sym, TreeOf(sub)) ==> Spells(g, sym, TreeOf(sub), ret.words)
      ensures leaf.rule == None && leaf.kids == []
      ensures ret != OutOfFuel ==> Happened(g, sym, depth, leaf, tr, ret.words, TreeOf(sub))
      decreases fuel, 5
    {
      hide Nodes, TreeOf, Good, NodesOf, TreesOf, AllGood, Sound, Doomed, Complete, Spells, Happened;
      var child := NewChild(node, pathId, isFav, kids);
      pathId := pathId + 1;
      LoneNode(child);
      leaf := TreeOf(Shape(child, []));
      label Made:
      ret, sub, tr := GenerateNew(sym, child, depth, fuel, Shape(child, []), kids);
      if ret != OutOfFuel {
        forall n | n in Nodes(sub) ensures fresh(n) {
          if n != child { assert n in Nodes(sub) - {child}; assert fresh@Made(n); }
        }
      }
    }

    method GenerateNew(sym: Symbol, child: PathNode, depth: int, fuel: nat, ghost sub: Shape, ghost kids: seq<Shape>)
      returns (ret: Outcome, ghost after: Shape, ghost tr: Trace)
      requires Sound(g) && Good(sub) && sub.node == child && TreeOf(sub).rule == None && Nodes(sub) == {child} &&
        sym in g.prods
      requires AllGood(kids) && NodesOf(kids) !! Nodes(sub)
      modifies child, `pathId
      ensures ret != OutOfFuel ==> Good(after) && after.node == child && fresh(Nodes(after) - {child})
      ensures ret != OutOfFuel ==> AllGood(kids) && TreesOf(kids) == old(TreesOf(kids)) && NodesOf(kids) !! Nodes(after)
      ensures ret != OutOfFuel ==> ret.Words? && Derives(g, sym, TreeOf(after))
      ensures ret != OutOfFuel && Complete(g, sym, TreeOf(after)) ==> Spells(g, sym, TreeOf(after), ret.words)
      ensures ret != OutOfFuel ==> Happened(g, sym, depth, old(TreeOf(sub)), tr, ret.words, TreeOf(after))
      decreases fuel, 4
    {
      hide Nodes, NodesOf, Good, TreeOf, TreesOf, AllGood, Sound, Complete, Spells, Happened;
      ghost var before := TreeOf(sub);
      ret, after, tr := GenerateChild(sym, child, depth, fuel, sub, kids);
    }

    // ---------- Replay of saved trees ----------

    /** The derivation is one of those saved for the root. */
    ghost predicate IsSaved(root: Symbol, t: Tree)
      reads `savedShapes, `favShapes, `known, known
    {
      Holds(Listed(savedShapes, root), known, t) || Holds(Listed(favShapes, root), known, t)
    }

    /** A copy of a random saved tree. */
    method RetrieveExisting(root: Symbol) returns (path: seq<PathNode>, ghost copy: Shape, ghost t: Tree)
      requires Stocked() && root in savedPath && |savedPath[root]| > 0
      ensures Stocked() && path == Flat(copy) && Good(copy) && fresh(Nodes(copy))
      ensures TreeOf(copy) == t && Derives(g, root, t) && old(IsSaved(root, t))
    {
      hide Good, Nodes, TreeOf, Flat, Derives, Sound, AllDerivations;
      var i: nat :| i < |savedPath[root]|;
      SavedOne(g, savedPath, savedShapes, known, root, i);
      assert Holds(Listed(savedShapes, root), known, TreeOf(savedShapes[root][i]));
      t := TreeOf(savedShapes[root][i]);
      path, copy := CopyPath(savedPath[root][i], savedShapes[root][i]);
    }

    /** A copy of the favourite tree saved first, which is taken off the list; nothing if there is none. */
    method RetrieveExistingFav(root: Symbol) returns (path: seq<PathNode>, ghost copy: Option<Shape>, ghost t: Tree)
      requires Stocked()
      modifies `savedFavPath, `favShapes
      ensures Stocked()
      ensures if root in old(savedFavPath) && |old(savedFavPath)[root]| > 0 then
          && copy.Some? && |path| > 0 && path == Flat(copy.value) && Good(copy.value) && fresh(Nodes(copy.value))
          && TreeOf(copy.value) == t && Derives(g, root, t) && old(IsSaved(root, t))
          && savedFavPath == old(savedFavPath)[root := old(savedFavPath)[root][1..]]
        else path == [] && savedFavPath == old(savedFavPath) && forall x :: IsSaved(root, x) == old(IsSaved(root, x))
    {
      hide Good, Nodes, TreeOf, Flat, Derives, Sound, AllDerivations;
      path, copy, t := [], None, Tree(0, false, None, []);
      if root !in savedFavPath || |savedFavPath[root]| == 0 { return; }
      var src := savedFavPath[root][0];
      SavedOne(g, savedFavPath, favShapes, known, root, 0);
      assert Holds(Listed(favShapes, root), known, TreeOf(favShapes[root][0]));
      DropFirst(g, savedFavPath, favShapes, known, root);
      ghost var sh := favShapes[root][0];
      savedFavPath := savedFavPath[root := savedFavPath[root][1..]];
      favShapes := favShapes[root := favShapes[root][1..]];
      t := TreeOf(sh);
      ghost var c;
      path, c := CopyPath(src, sh);
      FlatMeans(c);
      copy := Some(c);
    }

    /** A tree to replay: a favourite one half of the time, if there is one, else any saved one. */
    method PickPath(root: Symbol) returns (path: seq<PathNode>, usingFav: bool, ghost copy: Shape, ghost t: Tree)
      requires Stocked() && root in savedPath && |savedPath[root]| > 0
      modifies `savedFavPath, `favShapes
      ensures Stocked() && path == Flat(copy) && Good(copy) && fresh(Nodes(copy))
      ensures TreeOf(copy) == t && Derives(g, root, t) && old(IsSaved(root, t))
    {
      hide Good, Nodes, TreeOf, Flat, Derives, Stocked, IsSaved;
      usingFav := *;
      if usingFav {
        ghost var c;
        path, c, t := RetrieveExistingFav(root);
        if |path| > 0 { return path, true, c.value, t; }
      }
      path, copy, t := RetrieveExisting(root);
      usingFav := false;
    }

    /** The node to mutate: not the root, unless the tree is tiny or the root is a favourite. */
    method ChooseNode(path: seq<PathNode>, usingFav: bool, ghost sh: Shape) returns (n: PathNode)
      requires |path| > 0 && Good(sh)
      ensures n in path && (|path| > 2 && !n.isFav ==> n in path[1..]) && (|path| <= 2 ==> n == path[0])
      ensures Stocked() == old(Stocked()) && Good(sh) && TreeOf(sh) == old(TreeOf(sh))
    {
      hide Stocked, Good, TreeOf, Nodes;
      if |path| <= 2 { return path[0]; }
      var wantFav: bool := *;
      if wantFav || usingFav {
        var favPath: seq<PathNode> := [];
        for k := 0 to |path|
          invariant forall x :: x in favPath ==> x in path && x.isFav
        {
          if path[k].isFav { favPath := favPath + [path[k]]; }
        }
        if |favPath| != 0 {
          var k: nat :| k < |favPath|;
          return favPath[k];
        }
      }
      var k: nat :| k < |path| - 1;
      n := path[k + 1];
      assert path[1..][k] == n;
    }

    lemma ChosenPlace(sh: Shape, n: PathNode)
      requires Good(sh) && n in Flat(sh)
      requires |Flat(sh)| > 2 && !n.isFav ==> n in Flat(sh)[1..]
      requires |Flat(sh)| <= 2 ==> n == Flat(sh)[0]
      ensures TreeSize(TreeOf(sh)) <= 2 ==> n == sh.node
      ensures TreeSize(TreeOf(sh)) > 2 && n == sh.node ==> TreeOf(sh).isFav
    {
      hide FlatAll, Linked, Nodes, Proper;
      FlatSize(sh);
      FlatMeans(sh);
      if |Flat(sh)| > 2 && !n.isFav { RootIsFirst(sh, n); }
    }

    /** A saved tree, copied and with exactly one node given up, at position `p`. */
    method PrepareReplay(root: Symbol)
      returns (rootNode: PathNode, ghost sh: Shape, ghost whole: Tree, ghost p: seq<nat>)
      requires Stocked() && root in savedPath && |savedPath[root]| > 0
      modifies `savedFavPath, `favShapes
      ensures Stocked() && Good(sh) && sh.node == rootNode && fresh(Nodes(sh))
      ensures old(IsSaved(root, whole)) && Pruning(TreeOf(sh), whole) && Derives(g, root, TreeOf(sh))
      ensures MutatedAt(TreeOf(sh), whole, p)
    {
      hide Good, Nodes, TreeOf, Flat, Derives, Sound, AllDerivations, IsSaved, Pruning, PruneAt, GivenUpAt, TreeSize;
      var path, usingFav;
      path, usingFav, sh, whole := PickPath(root);
      FlatMeans(sh);
      var n := ChooseNode(path, usingFav, sh);
      FlatIsNodes(sh, n);
      ChosenPlace(sh, n);
      p := Prune(n, sh);
      sh := PruneAt(sh, n);
      PruningDerives(g, root, TreeOf(sh), whole);
      rootNode := path[0];
    }

    /** One statement: a new tree, or a replayed one with one node generated afresh. No saved tree changes,
        for no node that already exists does. The depth a statement starts with is never negative, and
        then it does not fail. */
    method Generate(root: Symbol, depth: int, fuel: nat, replaying: bool)
      returns (ret: Outcome, ghost replayed: Option<Tree>, ghost from: Tree, ghost tr: Trace)
      requires Stocked() && root in g.prods
      modifies this
      ensures ret != OutOfFuel ==> Stocked() && savedPath == old(savedPath) && curMutatingType == old(curMutatingType)
      ensures ret != OutOfFuel ==>
        |curShapes| == 1 && Nodes(curShapes[0]) <= known && IsDerivation(g, root, curChosenPath, curShapes[0])
      ensures ret != OutOfFuel ==> Generated(g, root, depth, from, TreeOf(curShapes[0]), ret)
      ensures ret.Words? ==> Happened(g, root, depth, from, tr, ret.words, TreeOf(curShapes[0]))
      ensures replayed.Some? <==> old(root in savedPath && |savedPath[root]| != 0) && replaying
      ensures replayed.Some? ==> old(IsSaved(root, replayed.value)) && Pruning(from, replayed.value)
      ensures replayed.Some? ==> exists p: seq<nat> :: MutatedAt(from, replayed.value, p)
      ensures replayed == None ==> from.rule == None
      ensures depth >= 0 ==> ret != Nil
      ensures depth >= 0 && ret != OutOfFuel ==> Extends(from, TreeOf(curShapes[0]))
    {
      hide Good, Nodes, TreeOf, Flat, Derives, Sound, AllDerivations, IsSaved, Pruning, Doomed, Complete, Spells,
        Extends, IsDerivation, MutatedAt, Happened;
      var rootNode;
      ghost var sh;
      if root in savedPath && |savedPath[root]| != 0 && replaying {
        ghost var whole, p;
        rootNode, sh, whole, p := PrepareReplay(root);
        replayed := Some(whole);
      } else {
        rootNode := new PathNode(pathId, null, false);
        sh := Shape(rootNode, []);
        LoneNode(rootNode);
        NothingDerived(root, TreeOf(sh));
        replayed := None;
      }
      from := TreeOf(sh);
      ghost var after;
      ret, after, tr := GenerateMySQL(root, rootNode, depth, fuel, sh);
      if ret == OutOfFuel { return; }
      Keep(root, rootNode, after);
    }

    /** Remembers the tree that was just generated. */
    method Keep(root: Symbol, rootNode: PathNode, ghost sh: Shape)
      requires Stocked() && Good(sh) && sh.node == rootNode && Derives(g, root, TreeOf(sh))
      modifies `curChosenPath, `curShapes, `known
      ensures Stocked() && curShapes == [sh] && Nodes(sh) <= known
      ensures TreeOf(sh) == old(TreeOf(sh)) && IsDerivation(g, root, curChosenPath, sh)
    {
      hide Good, Nodes, TreeOf, Flat, Derives, Sound, AllDerivations;
      var path := ListCopy(rootNode, sh);
      curChosenPath, curShapes := path, [sh];
      KnowMore(g, savedPath, savedShapes, known, Nodes(sh));
      KnowMore(g, savedFavPath, favShapes, known, Nodes(sh));
      known := known + Nodes(sh);
    }

    /** The statement worked: its tree is saved under its root, and among the favourites if one of its
        choices was a new one. */
    method IncrementSucceed()
      requires Valid()
      modifies this
      ensures Valid() && curChosenPath == [] && known == old(known)
      ensures savedPath == if old(curChosenPath) == [] then old(savedPath)
        else old(savedPath)[old(curMutatingType) := Listed(old(savedPath), old(curMutatingType)) + [old(curChosenPath)]]
      ensures savedFavPath ==
        if exists k :: 0 <= k < |old(curChosenPath)| && old(curChosenPath[k].exprProds.Some? && curChosenPath[k].isFav)
        then old(savedFavPath)[old(curMutatingType) :=
            Listed(old(savedFavPath), old(curMutatingType)) + [old(curChosenPath)]]
        else old(savedFavPath)
    {
      hide IsDerivation, Nodes, Sound, AllDerivations;
      var isFavPath := false;
      for k := 0 to |curChosenPath|
        invariant isFavPath <==> exists j :: 0 <= j < k && curChosenPath[j].exprProds.Some? && curChosenPath[j].isFav
      {
        if curChosenPath[k].exprProds == None { continue; }
        if curChosenPath[k].isFav { isFavPath := true; }
      }
      var r := curMutatingType;
      if |curChosenPath| != 0 {
        SaveOne(g, savedPath, savedShapes, known, r, curChosenPath, curShapes[0]);
        savedPath := savedPath[r := Listed(savedPath, r) + [curChosenPath]];
        savedShapes := savedShapes[r := Listed(savedShapes, r) + [curShapes[0]]];
      }
      if |curChosenPath| != 0 && isFavPath {
        SaveOne(g, savedFavPath, favShapes, known, r, curChosenPath, curShapes[0]);
        savedFavPath := savedFavPath[r := Listed(savedFavPath, r) + [curChosenPath]];
        favShapes := favShapes[r := Listed(favShapes, r) + [curShapes[0]]];
      }
      ClearChosenExpr();
    }

    /** The statement failed: its tree is forgotten. */
    method IncrementFailed()
      requires Valid()
      modifies this
      ensures Valid() && curChosenPath == [] && savedPath == old(savedPath) && savedFavPath == old(savedFavPath)
    {
      hide IsDerivation, Nodes, Sound, AllDerivations;
      ClearChosenExpr();
    }

    method ClearChosenExpr()
      modifies `curChosenPath, `curShapes, `pathId
      ensures curChosenPath == [] && curShapes == [] && pathId == 0
    {
      curChosenPath, curShapes, pathId := [], [], 0;
    }

    /** Tries up to a thousand times to generate a statement that is not empty. The text is that of the
        words, without two things that only the grammar knows; the current tree spells these words, if it was
        expanded completely. `done` is false only if the fuel ran out. */
    method GenerateStatement(root: Symbol, depth: nat, fuel: nat)
      returns (s: string, done: bool, ghost words: seq<string>)
      requires Valid() && root in g.prods
      modifies this
      ensures done ==> Valid() && curMutatingType == root && |curShapes| == 1
      ensures done && Complete(g, root, TreeOf(curShapes[0])) ==> Spells(g, root, TreeOf(curShapes[0]), words)
      ensures done ==> exists from: Tree, tr: Trace :: Happened(g, root, depth, from, tr, words, TreeOf(curShapes[0]))
      ensures done ==> s == Erased(Erased(Joined(words), "_LA"), " AS OF SYSTEM TIME \"string\"")
      ensures done ==> savedPath == old(savedPath)
    {
      hide IsDerivation, Nodes, Sound, AllDerivations, IsSaved, Pruning, Extends, Spells, Derives, TreeOf, Complete,
        Happened;
      curMutatingType := root;
      s, done, words := "", true, [];
      for i := 0 to 1000
        invariant Stocked() && curMutatingType == root && savedPath == old(savedPath)
        invariant i > 0 ==>
          |curShapes| == 1 && Nodes(curShapes[0]) <= known && IsDerivation(g, root, curChosenPath, curShapes[0])
        invariant i > 0 && Complete(g, root, TreeOf(curShapes[0])) ==> Spells(g, root, TreeOf(curShapes[0]), words)
        invariant i > 0 ==>
          exists from: Tree, tr: Trace :: Happened(g, root, depth, from, tr, words, TreeOf(curShapes[0]))
        invariant s == "" == Joined(words)
      {
        var ret;
        ghost var replayed, from, tr;
        var replaying: bool := *;              // two times out of three
        ret, replayed, from, tr := Generate(root, depth, fuel, replaying);
        if ret == OutOfFuel { return "", false, []; }
        s, words := Joined(ret.words), ret.words;
        if s != "" {
          s := Erased(s, "_LA");
          s := Erased(s, " AS OF SYSTEM TIME \"string\"");
          return;
        }
      }
    }

    lemma NothingDerived(root: Symbol, t: Tree)
      requires t.rule == None
      ensures Derives(g, root, t)
    {
    }
  }

  method CopyPath(src: seq<PathNode>, ghost sh: Shape) returns (path: seq<PathNode>, ghost copy: Shape)
    requires Good(sh) && src == Flat(sh)
    ensures path == Flat(copy) && Good(copy) && fresh(Nodes(copy)) && TreeOf(copy) == old(TreeOf(sh))
  {
    hide Good, Nodes, TreeOf, Flat;
    FlatMeans(sh);
    var root;
    root, copy := DeepCopy(src[0], null, sh);
    path := ListCopy(root, copy);
  }

  method ListCopy(root: PathNode, ghost copy: Shape) returns (path: seq<PathNode>)
    requires Good(copy) && copy.node == root
    ensures path == Flat(copy) && Good(copy) && TreeOf(copy) == old(TreeOf(copy))
  {
    hide Nodes, Flat, Proper, Linked;
    NodesExist(copy);
    path := GatherAllPathNodes(root, copy);
  }

  method NewChild(node: PathNode, id: nat, isFav: bool, ghost kids: seq<Shape>) returns (child: PathNode)
    requires AllGood(kids) && node !in NodesOf(kids)
    modifies node`children
    ensures fresh(child) && child.id == id && child.children == [] && child.exprProds == None && child.isFav == isFav &&
      child.parent == node
    ensures node.children == old(node.children) + [child]
    ensures AllGood(kids) && TreesOf(kids) == old(TreesOf(kids)) && child !in NodesOf(kids)
  {
    hide Nodes, NodesOf, Good, TreeOf, Apart;
    AllExist(kids);
    child := new PathNode(id, node, isFav);
    node.children := node.children + [child];
  }
}
