/** Edits of the pane tree, each proved to edit the list of its leaves (src/web/src/panes/tree.ts). */
module PaneEdits {
  import opened Wrappers
  import opened Json
  import opened PaneTree

  // ---- tabs of one leaf ------------------------------------------------------------------

  function FindTab(tabs: seq<Tab>, id: string): Option<Tab> {
    if tabs == [] then None
    else if tabs[0].id == id then Some(tabs[0])
    else FindTab(tabs[1..], id)
  }

  function Without(tabs: seq<Tab>, id: string): seq<Tab> {
    if tabs == [] then []
    else if tabs[0].id == id then Without(tabs[1..], id)
    else [tabs[0]] + Without(tabs[1..], id)
  }

  function Clamp(index: int, length: nat): (i: nat)
    ensures i <= length
  {
    if index < 0 then 0 else if length < index then length else index
  }

  function Insert(tabs: seq<Tab>, index: int, tab: Tab): seq<Tab> {
    var i := Clamp(index, |tabs|);
    tabs[..i] + [tab] + tabs[i..]
  }

  // ---- the edits --------------------------------------------------------------------------

  datatype TreeChange = TreeChange(tree: Node, focusLeafId: Option<string>)

  function SplitLeaf(tree: Node, leafId: string, direction: Direction, side: Side, newLeaf: Leaf): (Node, string) {
    var path := PathToLeaf(tree, leafId);
    if path.None? then (tree, leafId)
    else
      var existing := NodeAtPath(tree, path.value);
      PathFindsLeaf(tree, leafId);
      var split :=
        if side == First then MakeSplit(direction, Pane(newLeaf), existing.value, Finite(RATIO_DEFAULT))
        else MakeSplit(direction, existing.value, Pane(newLeaf), Finite(RATIO_DEFAULT));
      (ReplaceNodeAtPath(tree, path.value, split), newLeaf.id)
  }

  lemma {:induction false} ParentIsSplit(tree: Node, path: seq<Side>)
    requires path != [] && NodeAtPath(tree, path).Some?
    ensures var parent := NodeAtPath(tree, path[..|path| - 1]);
      parent.Some? && parent.value.Split? && NodeAtPath(tree, path) == Some(Child(parent.value, path[|path| - 1]))
  {
    if |path| > 1 {
      ParentIsSplit(Child(tree, path[0]), path[1..]);
      assert path[1..][..|path| - 2] == path[..|path| - 1][1..];
    }
  }

  /** Puts the sibling of the leaf at a path in place of their parent. */
  function PromoteSibling(tree: Node, emptyLeafPath: seq<Side>): TreeChange
    requires NodeAtPath(tree, emptyLeafPath).Some?
  {
    if emptyLeafPath == [] then TreeChange(tree, if tree.Pane? then Some(tree.leaf.id) else None)
    else
      ParentIsSplit(tree, emptyLeafPath);
      var parentPath := emptyLeafPath[..|emptyLeafPath| - 1];
      var side := emptyLeafPath[|emptyLeafPath| - 1];
      var parent := NodeAtPath(tree, parentPath).value;
      var sibling := if side == First then parent.second else parent.first;
      TreeChange(ReplaceNodeAtPath(tree, parentPath, sibling), Some(FirstLeaf(sibling).id))
  }

  datatype CloseResult = CloseResult(tree: Node, removed: bool, focusLeafId: Option<string>)

  function CloseTab(tree: Node, leafId: string, tabId: string, select: seq<Tab> -> Option<string>): CloseResult {
    var path := PathToLeaf(tree, leafId);
    if path.None? then CloseResult(tree, false, None)
    else
      PathFindsLeaf(tree, leafId);
      var leaf := NodeAtPath(tree, path.value).value.leaf;
      if FindTab(leaf.tabs, tabId).None? then CloseResult(tree, false, Some(leaf.id))
      else
        var tabs := Without(leaf.tabs, tabId);
        if tabs == [] then
          if path.value == [] then CloseResult(Pane(Leaf(leaf.id, [], None)), true, Some(leaf.id))
          else
            var promoted := PromoteSibling(tree, path.value);
            CloseResult(promoted.tree, true, promoted.focusLeafId)
        else
          var active := if leaf.activeTabId == Some(tabId) then select(tabs) else leaf.activeTabId;
          CloseResult(ReplaceNodeAtPath(tree, path.value, Pane(Leaf(leaf.id, tabs, active))), true, Some(leaf.id))
  }

  function SetRatio(tree: Node, path: seq<Side>, ratio: Number): Node {
    var node := NodeAtPath(tree, path);
    if node.None? || node.value.Pane? then tree
    else
      var clamped := ClampRatio(ratio);
      if clamped == node.value.ratio then tree
      else ReplaceNodeAtPath(tree, path, Split(node.value.direction, clamped, node.value.first, node.value.second))
  }

  datatype MoveResult = MoveResult(tree: Node, moved: bool, focusLeafId: Option<string>)

  function MoveTab(tree: Node, fromLeafId: string, tabId: string, toLeafId: string, toIndex: int): MoveResult {
    var fromPath := PathToLeaf(tree, fromLeafId);
    if fromPath.None? then MoveResult(tree, false, None)
    else
      PathFindsLeaf(tree, fromLeafId);
      var fromLeaf := NodeAtPath(tree, fromPath.value).value.leaf;
      var tab := FindTab(fromLeaf.tabs, tabId);
      if tab.None? then MoveResult(tree, false, Some(fromLeaf.id))
      else if fromLeafId == toLeafId then
        var tabs := Insert(Without(fromLeaf.tabs, tabId), toIndex, tab.value);
        var reordered := Pane(Leaf(fromLeaf.id, tabs, fromLeaf.activeTabId));
        MoveResult(ReplaceNodeAtPath(tree, fromPath.value, reordered), true, Some(fromLeaf.id))
      else
        var working := TakeOut(tree, fromPath.value, fromLeaf, tabId);
        var toPath := PathToLeaf(working, toLeafId);
        if toPath.None? then MoveResult(working, false, Some(toLeafId))
        else
          PathFindsLeaf(working, toLeafId);
          var toLeaf := NodeAtPath(working, toPath.value).value.leaf;
          var merged := Pane(Leaf(toLeaf.id, Insert(toLeaf.tabs, toIndex, tab.value), Some(tab.value.id)));
          MoveResult(ReplaceNodeAtPath(working, toPath.value, merged), true, Some(toLeaf.id))
  }

  /** The tree without a tab: its leaf shrinks, or vanishes when that was its last tab and it has a parent. */
  function TakeOut(tree: Node, fromPath: seq<Side>, fromLeaf: Leaf, tabId: string): Node
    requires NodeAtPath(tree, fromPath).Some?
  {
    var surviving := Without(fromLeaf.tabs, tabId);
    if surviving == [] && fromPath != [] then PromoteSibling(tree, fromPath).tree
    else
      var active := if fromLeaf.activeTabId == Some(tabId) then LastTabId(surviving) else fromLeaf.activeTabId;
      ReplaceNodeAtPath(tree, fromPath, Pane(Leaf(fromLeaf.id, surviving, active)))
  }

  // ---- the edits on the list of leaves --------------------------------------------------------

  lemma LeavesNotEmpty(tree: Node)
    ensures LeavesInOrder(tree) != [] && HasLeaf(LeavesInOrder(tree), FirstLeaf(tree).id)
    ensures LeavesInOrder(tree)[0] == FirstLeaf(tree)
    ensures tree.Split? <==> |LeavesInOrder(tree)| > 1
  {
  }

  /** The tree without the first leaf of an id, its sibling in place of their split: no paths involved. */
  function Prune(tree: Node, id: string): Node {
    if tree.Pane? then tree
    else if HasLeaf(LeavesInOrder(tree.first), id) then
      if tree.first.Pane? then tree.second
      else Split(tree.direction, tree.ratio, Prune(tree.first, id), tree.second)
    else if tree.second.Pane? then tree.first
    else Split(tree.direction, tree.ratio, tree.first, Prune(tree.second, id))
  }

  /** The leaf that takes focus when the first leaf of an id goes: the first one, in order, beside it. */
  function Heir(tree: Node, id: string): Leaf
    requires tree.Split?
  {
    LeavesNotEmpty(tree.first);
    LeavesNotEmpty(tree.second);
    if HasLeaf(LeavesInOrder(tree.first), id) then
      if tree.first.Pane? then LeavesInOrder(tree.second)[0] else Heir(tree.first, id)
    else if tree.second.Pane? then LeavesInOrder(tree.first)[0]
    else Heir(tree.second, id)
  }

  /** Promoting below a child rebuilds only that child. */
  lemma PromoteBelow(tree: Node, side: Side, rest: seq<Side>)
    requires tree.Split? && rest != [] && NodeAtPath(Child(tree, side), rest).Some?
    ensures NodeAtPath(tree, [side] + rest).Some?
    ensures var change := PromoteSibling(Child(tree, side), rest);
      PromoteSibling(tree, [side] + rest) == TreeChange(WithChild(tree, side, change.tree), change.focusLeafId)
  {
    var path := [side] + rest;
    assert path[1..] == rest;
    ParentIsSplit(Child(tree, side), rest);
    var above := rest[..|rest| - 1];
    assert path[..|path| - 1] == [side] + above && ([side] + above)[1..] == above;
  }

  lemma StepToLeaf(tree: Node, id: string) returns (side: Side, rest: seq<Side>)
    requires PathToLeaf(tree, id).Some? && tree.Split?
    ensures side == if HasLeaf(LeavesInOrder(tree.first), id) then First else Second
    ensures PathToLeaf(tree, id) == Some([side] + rest) && PathToLeaf(Child(tree, side), id) == Some(rest)
    ensures NodeAtPath(Child(tree, side), rest).Some? && (rest == [] <==> Child(tree, side).Pane?)
  {
    PathFindsLeaf(tree.first, id);
    side := if HasLeaf(LeavesInOrder(tree.first), id) then First else Second;
    rest := PathToLeaf(Child(tree, side), id).value;
    PathFindsLeaf(Child(tree, side), id);
  }

  lemma {:induction false} PromoteIsPrune(tree: Node, id: string)
    requires PathToLeaf(tree, id).Some? && tree.Split?
    ensures NodeAtPath(tree, PathToLeaf(tree, id).value).Some?
    ensures PromoteSibling(tree, PathToLeaf(tree, id).value) == TreeChange(Prune(tree, id), Some(Heir(tree, id).id))
  {
    var side, rest := StepToLeaf(tree, id);
    if rest == [] {
      assert [side] + rest == [side] && [side][..0] == [];
      LeavesNotEmpty(if side == First then tree.second else tree.first);
    } else {
      PromoteBelow(tree, side, rest);
      PromoteIsPrune(Child(tree, side), id);
    }
  }

  /** Promoting the sibling of a leaf removes exactly that leaf, and focus falls on a leaf that is left. */
  lemma {:induction false} PromoteRemoves(tree: Node, id: string)
    requires PathToLeaf(tree, id).Some? && tree.Split?
    ensures NodeAtPath(tree, PathToLeaf(tree, id).value).Some?
    ensures var change := PromoteSibling(tree, PathToLeaf(tree, id).value);
      && LeavesInOrder(change.tree) == Substitute(LeavesInOrder(tree), id, [])
      && change.focusLeafId.Some? && HasLeaf(LeavesInOrder(change.tree), change.focusLeafId.value)
  {
    var side, rest := StepToLeaf(tree, id);
    SubstituteConcat(LeavesInOrder(tree.first), LeavesInOrder(tree.second), id, []);
    if rest == [] {
      assert [side] + rest == [side] && [side][..0] == [];
      LeavesNotEmpty(if side == First then tree.second else tree.first);
    } else {
      PromoteBelow(tree, side, rest);
      PromoteRemoves(Child(tree, side), id);
      var change := PromoteSibling(tree, [side] + rest);
      LookUpConcat(LeavesInOrder(change.tree.first), LeavesInOrder(change.tree.second), change.focusLeafId.value);
    }
  }

  /** An even split of the asked direction, the new leaf on the asked side. */
  function SplitNode(direction: Direction, side: Side, newLeaf: Leaf, existing: Leaf): Node {
    if side == First then Split(direction, 0.5, Pane(newLeaf), Pane(existing))
    else Split(direction, 0.5, Pane(existing), Pane(newLeaf))
  }

  /** A split puts the new leaf right beside the old one and changes nothing else; without the leaf nothing happens. */
  lemma SplitInserts(tree: Node, leafId: string, direction: Direction, side: Side, newLeaf: Leaf)
    ensures var leaves, r := LeavesInOrder(tree), SplitLeaf(tree, leafId, direction, side, newLeaf);
      if HasLeaf(leaves, leafId) then
        && r.1 == newLeaf.id
        && r.0 == Graft(tree, leafId, SplitNode(direction, side, newLeaf, LeafOf(leaves, leafId)))
        && LeavesInOrder(r.0) == Substitute(leaves, leafId,
             if side == First then [newLeaf, LeafOf(leaves, leafId)] else [LeafOf(leaves, leafId), newLeaf])
      else r == (tree, leafId)
  {
    PathFindsLeaf(tree, leafId);
    if PathToLeaf(tree, leafId).Some? {
      var existing := Pane(LeafOf(LeavesInOrder(tree), leafId));
      var split :=
        if side == First then MakeSplit(direction, Pane(newLeaf), existing, Finite(RATIO_DEFAULT))
        else MakeSplit(direction, existing, Pane(newLeaf), Finite(RATIO_DEFAULT));
      ReplaceSubstitutes(tree, leafId, split);
      ReplaceIsGraft(tree, leafId, split);
      assert LeavesInOrder(split) == if side == First then [newLeaf, existing.leaf] else [existing.leaf, newLeaf];
    }
  }

  /** The leaf left of a leaf whose tab was closed: nothing when it empties beside other leaves. */
  function ClosedLeaf(leaf: Leaf, tabId: string, alone: bool, select: seq<Tab> -> Option<string>): seq<Leaf> {
    var tabs := Without(leaf.tabs, tabId);
    if tabs == [] then (if alone then [Leaf(leaf.id, [], None)] else [])
    else [Leaf(leaf.id, tabs, if leaf.activeTabId == Some(tabId) then select(tabs) else leaf.activeTabId)]
  }

  /** The tree with what is left of a leaf in its place. */
  function WithLeaves(tree: Node, id: string, left: seq<Leaf>): Node {
    if left == [] then Prune(tree, id) else Graft(tree, id, Pane(left[0]))
  }

  lemma CloseOnLeaves(tree: Node, leafId: string, tabId: string, select: seq<Tab> -> Option<string>)
    ensures var leaves, r := LeavesInOrder(tree), CloseTab(tree, leafId, tabId, select);
      if HasLeaf(leaves, leafId) && FindTab(LeafOf(leaves, leafId).tabs, tabId).Some? then
        && r.removed
        && r.tree == WithLeaves(tree, leafId, ClosedLeaf(LeafOf(leaves, leafId), tabId, |leaves| == 1, select))
        && LeavesInOrder(r.tree) ==
           Substitute(leaves, leafId, ClosedLeaf(LeafOf(leaves, leafId), tabId, |leaves| == 1, select))
        && r.focusLeafId.Some? && HasLeaf(LeavesInOrder(r.tree), r.focusLeafId.value)
        && r.focusLeafId.value ==
             (if ClosedLeaf(LeafOf(leaves, leafId), tabId, !tree.Split?, select) == [] then Heir(tree, leafId).id
              else leafId)
      else !r.removed && r.tree == tree && r.focusLeafId == if HasLeaf(leaves, leafId) then Some(leafId) else None
  {
    PathFindsLeaf(tree, leafId);
    var leaves := LeavesInOrder(tree);
    if HasLeaf(leaves, leafId) && FindTab(LeafOf(leaves, leafId).tabs, tabId).Some? {
      var leaf := LeafOf(leaves, leafId);
      LeavesNotEmpty(tree);
      var closed := ClosedLeaf(leaf, tabId, |leaves| == 1, select);
      if closed == [] {
        PromoteRemoves(tree, leafId);
        PromoteIsPrune(tree, leafId);
      } else {
        ReplaceIsGraft(tree, leafId, Pane(closed[0]));
        ReplaceSubstitutes(tree, leafId, Pane(closed[0]));
        SubstituteKeepsId(leaves, leafId, closed[0]);
      }
    }
  }

  lemma {:induction false} SubstituteKeepsId(leaves: seq<Leaf>, id: string, leaf: Leaf)
    requires HasLeaf(leaves, id) && leaf.id == id
    ensures HasLeaf(Substitute(leaves, id, [leaf]), id) && LeafOf(Substitute(leaves, id, [leaf]), id) == leaf
  {
    if leaves[0].id != id {
      SubstituteKeepsId(leaves[1..], id, leaf);
    }
  }

  lemma {:induction false} SubstituteKeepsOthers(leaves: seq<Leaf>, id: string, replacement: seq<Leaf>, other: string)
    requires other != id && !HasLeaf(replacement, other)
    ensures HasLeaf(Substitute(leaves, id, replacement), other) <==> HasLeaf(leaves, other)
    ensures HasLeaf(leaves, other) ==> LeafOf(Substitute(leaves, id, replacement), other) == LeafOf(leaves, other)
  {
    if leaves != [] {
      if leaves[0].id == id {
        LookUpConcat(replacement, leaves[1..], other);
      } else {
        SubstituteKeepsOthers(leaves[1..], id, replacement, other);
      }
    }
  }

  // ---- moving a tab -------------------------------------------------------------------------------

  /** What is left of the source when its tab leaves for another leaf. */
  function DrainedLeaf(leaf: Leaf, tabId: string, alone: bool): seq<Leaf> {
    var tabs := Without(leaf.tabs, tabId);
    if tabs == [] && !alone then []
    else [Leaf(leaf.id, tabs, if leaf.activeTabId == Some(tabId) then LastTabId(tabs) else leaf.activeTabId)]
  }

  lemma TakeOutOnLeaves(tree: Node, id: string, tabId: string)
    requires HasLeaf(LeavesInOrder(tree), id)
    ensures PathToLeaf(tree, id).Some? && NodeAtPath(tree, PathToLeaf(tree, id).value).Some?
    ensures var leaves := LeavesInOrder(tree);
      var working := TakeOut(tree, PathToLeaf(tree, id).value, LeafOf(leaves, id), tabId);
      var drained := DrainedLeaf(LeafOf(leaves, id), tabId, |leaves| == 1);
      working == WithLeaves(tree, id, drained) && LeavesInOrder(working) == Substitute(leaves, id, drained)
  {
    PathFindsLeaf(tree, id);
    LeavesNotEmpty(tree);
    var drained := DrainedLeaf(LeafOf(LeavesInOrder(tree), id), tabId, |LeavesInOrder(tree)| == 1);
    if drained == [] {
      PromoteRemoves(tree, id);
      PromoteIsPrune(tree, id);
    } else {
      ReplaceIsGraft(tree, id, Pane(drained[0]));
      ReplaceSubstitutes(tree, id, Pane(drained[0]));
    }
  }

  /** The leaves after a move whose tab was found. */
  function MovedLeaves(leaves: seq<Leaf>, from: string, tab: Tab, to: string, index: int): seq<Leaf>
    requires HasLeaf(leaves, from)
  {
    var source := LeafOf(leaves, from);
    if from == to then
      Substitute(leaves, from, [Leaf(from, Insert(Without(source.tabs, tab.id), index, tab), source.activeTabId)])
    else
      var working := Substitute(leaves, from, DrainedLeaf(source, tab.id, |leaves| == 1));
      if !HasLeaf(leaves, to) then working
      else
        var target := LeafOf(leaves, to);
        Substitute(working, to, [Leaf(to, Insert(target.tabs, index, tab), Some(tab.id))])
  }

  /** The tree after a move whose tab was found. */
  function MovedTree(tree: Node, from: string, tab: Tab, to: string, index: int): Node
    requires HasLeaf(LeavesInOrder(tree), from)
  {
    var leaves := LeavesInOrder(tree);
    var source := LeafOf(leaves, from);
    if from == to then
      Graft(tree, from, Pane(Leaf(from, Insert(Without(source.tabs, tab.id), index, tab), source.activeTabId)))
    else
      var working := WithLeaves(tree, from, DrainedLeaf(source, tab.id, |leaves| == 1));
      if !HasLeaf(leaves, to) then working
      else Graft(working, to, Pane(Leaf(to, Insert(LeafOf(leaves, to).tabs, index, tab), Some(tab.id))))
  }

  /**
   * A move edits the source and the target and no other leaf; the target is found again after the
   * tree was restructured, exactly when it was there before, and takes focus.
   */
  lemma MoveOnLeaves(tree: Node, from: string, tabId: string, to: string, index: int)
    ensures var leaves, r := LeavesInOrder(tree), MoveTab(tree, from, tabId, to, index);
      if HasLeaf(leaves, from) && FindTab(LeafOf(leaves, from).tabs, tabId).Some? then
        && r.tree == MovedTree(tree, from, FindTab(LeafOf(leaves, from).tabs, tabId).value, to, index)
        && LeavesInOrder(r.tree) ==
             MovedLeaves(leaves, from, FindTab(LeafOf(leaves, from).tabs, tabId).value, to, index)
        && r.focusLeafId == Some(to)
        && (r.moved <==> HasLeaf(leaves, to))
        && (HasLeaf(LeavesInOrder(r.tree), to) <==> HasLeaf(leaves, to))
      else !r.moved && r.tree == tree && r.focusLeafId == if HasLeaf(leaves, from) then Some(from) else None
  {
    PathFindsLeaf(tree, from);
    var leaves := LeavesInOrder(tree);
    if HasLeaf(leaves, from) && FindTab(LeafOf(leaves, from).tabs, tabId).Some? {
      var source := LeafOf(leaves, from);
      var tab := FindTab(source.tabs, tabId).value;
      FoundTab(source.tabs, tabId);
      if from == to {
        var reordered := Leaf(from, Insert(Without(source.tabs, tabId), index, tab), source.activeTabId);
        ReplaceIsGraft(tree, from, Pane(reordered));
        ReplaceSubstitutes(tree, from, Pane(reordered));
        SubstituteKeepsId(leaves, from, reordered);
      } else {
        MoveAcross(tree, from, tab, to, index);
      }
    }
  }

  lemma {:induction false} FoundTab(tabs: seq<Tab>, id: string)
    ensures FindTab(tabs, id).Some? ==> FindTab(tabs, id).value.id == id && FindTab(tabs, id).value in tabs
    ensures FindTab(tabs, id).None? ==> Without(tabs, id) == tabs
  {
    if tabs != [] {
      FoundTab(tabs[1..], id);
    }
  }

  lemma MoveAcross(tree: Node, from: string, tab: Tab, to: string, index: int)
    requires from != to && HasLeaf(LeavesInOrder(tree), from)
    requires FindTab(LeafOf(LeavesInOrder(tree), from).tabs, tab.id) == Some(tab)
    ensures var leaves, r := LeavesInOrder(tree), MoveTab(tree, from, tab.id, to, index);
      && r.tree == MovedTree(tree, from, tab, to, index)
      && LeavesInOrder(r.tree) == MovedLeaves(leaves, from, tab, to, index)
      && r.focusLeafId == Some(to)
      && (r.moved <==> HasLeaf(leaves, to))
      && (HasLeaf(LeavesInOrder(r.tree), to) <==> HasLeaf(leaves, to))
  {
    var leaves := LeavesInOrder(tree);
    var source := LeafOf(leaves, from);
    TakeOutOnLeaves(tree, from, tab.id);
    PathFindsLeaf(tree, from);
    var working := TakeOut(tree, PathToLeaf(tree, from).value, source, tab.id);
    SubstituteKeepsOthers(leaves, from, DrainedLeaf(source, tab.id, |leaves| == 1), to);
    PathFindsLeaf(working, to);
    if HasLeaf(leaves, to) {
      var merged := Leaf(to, Insert(LeafOf(leaves, to).tabs, index, tab), Some(tab.id));
      ReplaceIsGraft(working, to, Pane(merged));
      ReplaceSubstitutes(working, to, Pane(merged));
      SubstituteKeepsId(LeavesInOrder(working), to, merged);
    }
  }
}
