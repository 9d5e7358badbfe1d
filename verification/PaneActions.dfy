/** What each action of the layout store does to the layout (src/web/src/stores/layout.ts). */
module PaneActions {
  import opened Wrappers
  import opened Json
  import opened PaneTree
  import opened PaneEdits
  import opened PaneLayout
  import opened PaneRuns

  /** The tree with the leaf become another, and nothing else changed. */
  ghost predicate OnlyLeafBecomes(before: Node, after: Node, id: string, leaf: Leaf) {
    && HasLeaf(LeavesInOrder(before), id)
    && after == Graft(before, id, Pane(leaf))
    && LeavesInOrder(after) == Substitute(LeavesInOrder(before), id, [leaf])
  }

  /** A tab is opened at the end of the leaf in focus and is active there. */
  lemma OpenDoes(s: Layout, tab: Tab)
    ensures var after := Apply(s, Open(tab));
      && after.focus == s.focus
      && if HasLeaf(LeavesInOrder(s.tree), s.focus) then
           var leaf := LeafOf(LeavesInOrder(s.tree), s.focus);
           OnlyLeafBecomes(s.tree, after.tree, s.focus, Leaf(s.focus, leaf.tabs + [tab], Some(tab.id)))
         else after.tree == s.tree
  {
    PathFindsLeaf(s.tree, s.focus);
    if HasLeaf(LeavesInOrder(s.tree), s.focus) {
      var leaf := LeafOf(LeavesInOrder(s.tree), s.focus);
      var grown := Pane(Leaf(s.focus, leaf.tabs + [tab], Some(tab.id)));
      ReplaceIsGraft(s.tree, s.focus, grown);
      ReplaceSubstitutes(s.tree, s.focus, grown);
    }
  }

  /** A leaf is split evenly; the new half is empty, stands on the asked side and takes focus. */
  lemma SplitDoes(s: Layout, leafId: string, direction: Direction, side: Side, newId: string)
    ensures var leaves, after := LeavesInOrder(s.tree), Apply(s, SplitAt(leafId, direction, side, newId));
      if HasLeaf(leaves, leafId) then
        var was, blank := LeafOf(leaves, leafId), Leaf(newId, [], None);
        && after.focus == newId
        && after.tree == Graft(s.tree, leafId,
             if side == First then Split(direction, 0.5, Pane(blank), Pane(was))
             else Split(direction, 0.5, Pane(was), Pane(blank)))
        && LeavesInOrder(after.tree) == Substitute(leaves, leafId, if side == First then [blank, was] else [was, blank])
      else after == s
  {
    PathFindsLeaf(s.tree, leafId);
    SplitInserts(s.tree, leafId, direction, side, MakeLeaf([], newId));
  }

  /** When no tab of the stack survives, the last one is picked. */
  lemma {:induction false} PickIsLast(recent: seq<string>, surviving: seq<Tab>)
    requires forall k | 0 <= k < |recent| :: !Holds(surviving, recent[k])
    ensures PickNext(recent, surviving) == if surviving == [] then None else Some(surviving[|surviving| - 1].id)
  {
    if recent != [] {
      FirstFound(surviving, recent[0]);
      assert !Holds(surviving, recent[0]);
      forall k | 0 <= k < |recent[1..]|
        ensures !Holds(surviving, recent[1..][k])
      {
        assert recent[1..][k] == recent[k + 1];
      }
      PickIsLast(recent[1..], surviving);
    }
  }

  /**
   * A tab is closed: its leaf keeps the others in their order, the most recently used of them active
   * if it was; a leaf left empty beside others is gone, and the first leaf beside it has focus.
   */
  lemma CloseDoes(s: Layout, leafId: string, tabId: string, recent: seq<string>) returns (kept: seq<Tab>)
    requires Distinct(LeavesInOrder(s.tree))
    ensures var leaves, after := LeavesInOrder(s.tree), Apply(s, Close(leafId, tabId, recent));
      if HasLeaf(leaves, leafId) && FindTab(LeafOf(leaves, leafId).tabs, tabId).Some? then
        var leaf, leaves' := LeafOf(leaves, leafId), LeavesInOrder(after.tree);
        && KeptFrom(kept, leaf.tabs, tabId)
        && (HasLeaf(leaves', leafId) <==> kept != [] || s.tree.Pane?)
        && (HasLeaf(leaves', leafId) ==>
              LeafOf(leaves', leafId) == Leaf(leafId, kept,
                if kept == [] then None
                else if leaf.activeTabId == Some(tabId) then PickNext(recent, kept)
                else leaf.activeTabId))
        && after.focus == (if kept != [] || s.tree.Pane? then leafId else Heir(s.tree, leafId).id)
        && forall other | other != leafId :: SameLeaf(leaves, leaves', other)
      else after == s
  {
    var leaves := LeavesInOrder(s.tree);
    var select := tabs => PickNext(recent, tabs);
    kept := [];
    CloseOnLeaves(s.tree, leafId, tabId, select);
    if HasLeaf(leaves, leafId) && FindTab(LeafOf(leaves, leafId).tabs, tabId).Some? {
      kept := CloseLeaves(s.tree, leafId, tabId, select);
    }
  }

  /** A tab is moved as the edits say, and the leaf it lands in has focus; without that leaf nothing happens. */
  lemma MoveDoes(s: Layout, from: string, tabId: string, to: string, index: int)
    ensures var leaves, after := LeavesInOrder(s.tree), Apply(s, Move(from, tabId, to, index));
      if HasLeaf(leaves, from) && FindTab(LeafOf(leaves, from).tabs, tabId).Some? && HasLeaf(leaves, to) then
        after == Layout(MovedTree(s.tree, from, FindTab(LeafOf(leaves, from).tabs, tabId).value, to, index), to)
      else after == s
  {
    MoveOnLeaves(s.tree, from, tabId, to, index);
  }

  /** A split is resized to the nearest ratio in the band; the leaves and the focus stay. */
  lemma ResizeDoes(s: Layout, path: seq<Side>, ratio: Number)
    ensures var after := Apply(s, Resize(path, ratio));
      && after.focus == s.focus && LeavesInOrder(after.tree) == LeavesInOrder(s.tree)
      && match NodeAtPath(s.tree, path)
         case Some(Split(direction, _, first, second)) =>
           && NodeAtPath(after.tree, path) == Some(Split(direction, ClampRatio(ratio), first, second))
           && forall other | Apart(path, other) :: NodeAtPath(after.tree, other) == NodeAtPath(s.tree, other)
         case _ => after == s
  {
    ResizeSetsRatio(s.tree, path, ratio);
  }
}
