/** Binary tree of editor panes and its navigation (src/web/src/panes/tree.ts). */
module PaneTree {
  import opened Wrappers
  import opened Json

  datatype Direction = Horizontal | Vertical

  datatype TabKind = File | Terminal | Session | Git | Search | Monitor | Claws

  datatype Tab = Tab(id: string, kind: TabKind, title: string, params: Json)

  datatype Leaf = Leaf(id: string, tabs: seq<Tab>, activeTabId: Option<string>)

  datatype Node =
    | Pane(leaf: Leaf)
    | Split(direction: Direction, ratio: real, first: Node, second: Node)

  datatype Side = First | Second

  const RATIO_MIN := 0.15
  const RATIO_MAX := 0.85
  const RATIO_DEFAULT := 0.5

  function ClampRatio(ratio: Number): (r: real)
    ensures RATIO_MIN <= r <= RATIO_MAX
  {
    if ratio.NotFinite? then RATIO_DEFAULT
    else if ratio.value < RATIO_MIN then RATIO_MIN
    else if RATIO_MAX < ratio.value then RATIO_MAX
    else ratio.value
  }

  function Distance(a: real, b: real): real { if a < b then b - a else a - b }

  /** A ratio becomes the nearest one of the band from 0.15 to 0.85; what is not finite becomes one half. */
  lemma ClampIsNearest(ratio: Number)
    ensures 0.15 <= ClampRatio(ratio) <= 0.85
    ensures ratio.NotFinite? ==> ClampRatio(ratio) == 0.5
    ensures ratio.Finite? ==>
      forall r | 0.15 <= r <= 0.85 :: Distance(ratio.value, ClampRatio(ratio)) <= Distance(ratio.value, r)
  {
  }

  function MakeLeaf(tabs: seq<Tab>, id: string): Leaf {
    Leaf(id, tabs, LastTabId(tabs))
  }

  function LastTabId(tabs: seq<Tab>): Option<string> {
    if tabs == [] then None else Some(tabs[|tabs| - 1].id)
  }

  function MakeSplit(direction: Direction, first: Node, second: Node, ratio: Number): Node {
    Split(direction, ClampRatio(ratio), first, second)
  }

  // ---- navigation ----------------------------------------------------------------------

  function Child(node: Node, side: Side): Node
    requires node.Split?
  {
    if side == First then node.first else node.second
  }

  function WithChild(node: Node, side: Side, child: Node): Node
    requires node.Split?
  {
    if side == First then Split(node.direction, node.ratio, child, node.second)
    else Split(node.direction, node.ratio, node.first, child)
  }

  function NodeAtPath(tree: Node, path: seq<Side>): Option<Node> {
    if path == [] then Some(tree)
    else if tree.Pane? then None
    else NodeAtPath(Child(tree, path[0]), path[1..])
  }

  function PathToLeaf(tree: Node, leafId: string): Option<seq<Side>> {
    if tree.Pane? then (if tree.leaf.id == leafId then Some([]) else None)
    else
      var inFirst := PathToLeaf(tree.first, leafId);
      if inFirst.Some? then Some([First] + inFirst.value)
      else
        var inSecond := PathToLeaf(tree.second, leafId);
        if inSecond.Some? then Some([Second] + inSecond.value) else None
  }

  function LeavesInOrder(tree: Node): seq<Leaf> {
    if tree.Pane? then [tree.leaf] else LeavesInOrder(tree.first) + LeavesInOrder(tree.second)
  }

  function FirstLeaf(node: Node): Leaf {
    if node.Pane? then node.leaf else FirstLeaf(node.first)
  }

  function ReplaceNodeAtPath(tree: Node, path: seq<Side>, replacement: Node): Node {
    if path == [] then replacement
    else if tree.Pane? then tree
    else WithChild(tree, path[0], ReplaceNodeAtPath(Child(tree, path[0]), path[1..], replacement))
  }

  // ---- a tree as the list of its leaves --------------------------------------------------

  predicate HasLeaf(leaves: seq<Leaf>, id: string) {
    leaves != [] && (leaves[0].id == id || HasLeaf(leaves[1..], id))
  }

  /** The first leaf with an id. */
  function LeafOf(leaves: seq<Leaf>, id: string): (leaf: Leaf)
    requires HasLeaf(leaves, id)
    ensures leaf.id == id && leaf in leaves
  {
    if leaves[0].id == id then leaves[0] else LeafOf(leaves[1..], id)
  }

  /** The list with the first leaf of an id replaced by other leaves. */
  function Substitute(leaves: seq<Leaf>, id: string, replacement: seq<Leaf>): seq<Leaf> {
    if leaves == [] then []
    else if leaves[0].id == id then replacement + leaves[1..]
    else [leaves[0]] + Substitute(leaves[1..], id, replacement)
  }

  lemma {:induction false} LookUpConcat(a: seq<Leaf>, b: seq<Leaf>, id: string)
    ensures HasLeaf(a + b, id) <==> HasLeaf(a, id) || HasLeaf(b, id)
    ensures HasLeaf(a + b, id) ==> LeafOf(a + b, id) == if HasLeaf(a, id) then LeafOf(a, id) else LeafOf(b, id)
  {
    if a == [] {
      assert a + b == b;
    } else {
      assert (a + b)[1..] == a[1..] + b;
      LookUpConcat(a[1..], b, id);
    }
  }

  lemma {:induction false} SubstituteConcat(a: seq<Leaf>, b: seq<Leaf>, id: string, replacement: seq<Leaf>)
    ensures Substitute(a + b, id, replacement) ==
      if HasLeaf(a, id) then Substitute(a, id, replacement) + b else a + Substitute(b, id, replacement)
  {
    if a == [] {
      assert a + b == b;
      assert a + Substitute(b, id, replacement) == Substitute(b, id, replacement);
    } else {
      assert (a + b)[0] == a[0] && (a + b)[1..] == a[1..] + b;
      if a[0].id == id {
        assert replacement + (a[1..] + b) == (replacement + a[1..]) + b;
      } else {
        SubstituteConcat(a[1..], b, id, replacement);
        var rest := Substitute(a[1..], id, replacement);
        assert [a[0]] + (rest + b) == ([a[0]] + rest) + b;
        assert [a[0]] + (a[1..] + Substitute(b, id, replacement)) == a + Substitute(b, id, replacement);
      }
    }
  }

  /** A path is found exactly for ids of leaves, and leads to the first such leaf in order. */
  lemma {:induction false} PathFindsLeaf(tree: Node, id: string)
    ensures PathToLeaf(tree, id).Some? <==> HasLeaf(LeavesInOrder(tree), id)
    ensures PathToLeaf(tree, id).Some? ==>
      NodeAtPath(tree, PathToLeaf(tree, id).value) == Some(Pane(LeafOf(LeavesInOrder(tree), id)))
  {
    if tree.Split? {
      PathFindsLeaf(tree.first, id);
      PathFindsLeaf(tree.second, id);
      LookUpConcat(LeavesInOrder(tree.first), LeavesInOrder(tree.second), id);
    }
  }

  /** Replacing the node found for an id replaces the first leaf of that id and nothing else. */
  lemma {:induction false} ReplaceSubstitutes(tree: Node, id: string, replacement: Node)
    requires PathToLeaf(tree, id).Some?
    ensures LeavesInOrder(ReplaceNodeAtPath(tree, PathToLeaf(tree, id).value, replacement)) ==
      Substitute(LeavesInOrder(tree), id, LeavesInOrder(replacement))
  {
    if tree.Split? {
      PathFindsLeaf(tree.first, id);
      var path := PathToLeaf(tree, id).value;
      SubstituteConcat(LeavesInOrder(tree.first), LeavesInOrder(tree.second), id, LeavesInOrder(replacement));
      if PathToLeaf(tree.first, id).Some? {
        assert path[1..] == PathToLeaf(tree.first, id).value;
        ReplaceSubstitutes(tree.first, id, replacement);
      } else {
        assert path[1..] == PathToLeaf(tree.second, id).value;
        ReplaceSubstitutes(tree.second, id, replacement);
      }
    }
  }

  /** The tree with another node in place of the first leaf of an id: no paths involved. */
  function Graft(tree: Node, id: string, node: Node): Node {
    if tree.Pane? then (if tree.leaf.id == id then node else tree)
    else if HasLeaf(LeavesInOrder(tree.first), id) then
      Split(tree.direction, tree.ratio, Graft(tree.first, id, node), tree.second)
    else Split(tree.direction, tree.ratio, tree.first, Graft(tree.second, id, node))
  }

  lemma {:induction false} ReplaceIsGraft(tree: Node, id: string, node: Node)
    requires PathToLeaf(tree, id).Some?
    ensures ReplaceNodeAtPath(tree, PathToLeaf(tree, id).value, node) == Graft(tree, id, node)
  {
    if tree.Split? {
      PathFindsLeaf(tree.first, id);
      var path := PathToLeaf(tree, id).value;
      assert path[1..] == PathToLeaf(Child(tree, path[0]), id).value;
      ReplaceIsGraft(Child(tree, path[0]), id, node);
    }
  }

  // ---- replacing a node touches nothing else --------------------------------------------------

  lemma {:induction false} ReplacedIsFound(tree: Node, path: seq<Side>, replacement: Node)
    requires NodeAtPath(tree, path).Some?
    ensures NodeAtPath(ReplaceNodeAtPath(tree, path, replacement), path) == Some(replacement)
    ensures ReplaceNodeAtPath(tree, path, NodeAtPath(tree, path).value) == tree
  {
    if path != [] {
      ReplacedIsFound(Child(tree, path[0]), path[1..], replacement);
    }
  }

  /** Two paths that part ways at some step. */
  predicate Apart(p: seq<Side>, q: seq<Side>) {
    p != [] && q != [] && (p[0] != q[0] || Apart(p[1..], q[1..]))
  }

  /** ... that is, neither goes on from where the other ends. */
  lemma {:induction false} ApartIff(p: seq<Side>, q: seq<Side>)
    ensures Apart(p, q) <==> !(p <= q) && !(q <= p)
  {
    if p != [] && q != [] {
      ApartIff(p[1..], q[1..]);
      assert p == [p[0]] + p[1..] && q == [q[0]] + q[1..];
    }
  }

  lemma {:induction false} ReplacedElsewhere(tree: Node, path: seq<Side>, replacement: Node, other: seq<Side>)
    requires Apart(path, other)
    ensures NodeAtPath(ReplaceNodeAtPath(tree, path, replacement), other) == NodeAtPath(tree, other)
  {
    if tree.Split? && path[0] == other[0] {
      ReplacedElsewhere(Child(tree, path[0]), path[1..], replacement, other[1..]);
    }
  }
}
