/** Runs of the layout store (src/web/src/stores/layout.ts) over the pane tree. */
module PaneRuns {
  import opened Wrappers
  import opened Json
  import opened PaneTree
  import opened PaneEdits
  import opened PaneLayout

  // ---- what every layout keeps -----------------------------------------------------------

  ghost predicate Holds(tabs: seq<Tab>, id: string) {
    exists t :: t in tabs && t.id == id
  }

  /** The active tab is one of the leaf's tabs, and is missing exactly when there are none. */
  ghost predicate ActiveValid(leaf: Leaf) {
    if leaf.activeTabId.Some? then Holds(leaf.tabs, leaf.activeTabId.value) else leaf.tabs == []
  }

  predicate RatiosInBand(tree: Node) {
    tree.Pane? || (RATIO_MIN <= tree.ratio <= RATIO_MAX && RatiosInBand(tree.first) && RatiosInBand(tree.second))
  }

  /** No tab is held twice and no two tabs share an id. */
  ghost predicate UniqueTabs(bag: multiset<Tab>) {
    forall t: Tab, u: Tab | t in bag && u in bag && t.id == u.id :: t == u && bag[t] == 1
  }

  /** The tree of a project and the id of the leaf that has focus. */
  datatype Layout = Layout(tree: Node, focus: string)

  ghost predicate Sound(s: Layout) {
    var leaves := LeavesInOrder(s.tree);
    && Distinct(leaves)
    && (forall l | l in leaves :: ActiveValid(l))
    && RatiosInBand(s.tree)
    && UniqueTabs(TabBag(leaves))
    && HasLeaf(leaves, s.focus)
  }

  // ---- steps -----------------------------------------------------------------------------------

  datatype Step =
    | SplitAt(leafId: string, direction: Direction, side: Side, newId: string)
    | Open(tab: Tab)
    | Close(leafId: string, tabId: string, recent: seq<string>)
    | Move(from: string, tabId: string, to: string, index: int)
    | Resize(path: seq<Side>, ratio: Number)

  /** Ids of new leaves and tabs are fresh. */
  ghost predicate Fresh(s: Layout, step: Step) {
    match step
    case SplitAt(_, _, _, newId) => !HasLeaf(LeavesInOrder(s.tree), newId)
    case Open(tab) => forall t | t in TabBag(LeavesInOrder(s.tree)) :: t.id != tab.id
    case _ => true
  }

  /** The most recently used tab that survives, or else the last one (src/web/src/panes/mru.ts). */
  function PickNext(recent: seq<string>, surviving: seq<Tab>): (pick: Option<string>)
    ensures pick.Some? ==> Holds(surviving, pick.value)
    ensures pick.None? ==> surviving == []
  {
    if recent == [] then LastTabId(surviving)
    else if FindTab(surviving, recent[0]).Some? then
      FoundTab(surviving, recent[0]);
      Some(recent[0])
    else PickNext(recent[1..], surviving)
  }

  lemma {:induction false} PickIsMostRecent(recent: seq<string>, surviving: seq<Tab>, k: nat)
    requires k < |recent| && FindTab(surviving, recent[k]).Some?
    requires forall i | 0 <= i < k :: FindTab(surviving, recent[i]).None?
    ensures PickNext(recent, surviving) == Some(recent[k])
  {
    if k > 0 {
      PickIsMostRecent(recent[1..], surviving, k - 1);
    }
  }

  function Apply(s: Layout, step: Step): Layout {
    match step
    case SplitAt(leafId, direction, side, newId) =>
      var r := SplitLeaf(s.tree, leafId, direction, side, MakeLeaf([], newId));
      if PathToLeaf(s.tree, leafId).None? then s else Layout(r.0, r.1)
    case Open(tab) =>
      var path := PathToLeaf(s.tree, s.focus);
      if path.None? then s
      else
        PathFindsLeaf(s.tree, s.focus);
        var leaf := NodeAtPath(s.tree, path.value).value.leaf;
        Layout(ReplaceNodeAtPath(s.tree, path.value, Pane(Leaf(leaf.id, leaf.tabs + [tab], Some(tab.id)))), s.focus)
    case Close(leafId, tabId, recent) =>
      var r := CloseTab(s.tree, leafId, tabId, tabs => PickNext(recent, tabs));
      if !r.removed then s else Layout(r.tree, if r.focusLeafId.Some? then r.focusLeafId.value else s.focus)
    case Move(from, tabId, to, index) =>
      var r := MoveTab(s.tree, from, tabId, to, index);
      if !r.moved then s else Layout(r.tree, if r.focusLeafId.Some? then r.focusLeafId.value else s.focus)
    case Resize(path, ratio) => Layout(SetRatio(s.tree, path, ratio), s.focus)
  }

  function Run(s: Layout, steps: seq<Step>): Layout {
    if steps == [] then s else Apply(Run(s, steps[..|steps| - 1]), steps[|steps| - 1])
  }

  ghost predicate AllFresh(s: Layout, steps: seq<Step>) {
    steps == [] || (AllFresh(s, steps[..|steps| - 1]) && Fresh(Run(s, steps[..|steps| - 1]), steps[|steps| - 1]))
  }

  // ---- ratios ----------------------------------------------------------------------------------

  lemma {:induction false} BandKept(tree: Node, path: seq<Side>, replacement: Node)
    requires RatiosInBand(tree) && RatiosInBand(replacement)
    ensures RatiosInBand(ReplaceNodeAtPath(tree, path, replacement))
  {
    if path != [] && tree.Split? {
      BandKept(Child(tree, path[0]), path[1..], replacement);
    }
  }

  lemma {:induction false} BandBelow(tree: Node, path: seq<Side>)
    requires RatiosInBand(tree) && NodeAtPath(tree, path).Some?
    ensures RatiosInBand(NodeAtPath(tree, path).value)
  {
    if path != [] {
      BandBelow(Child(tree, path[0]), path[1..]);
    }
  }

  lemma BandPromoted(tree: Node, path: seq<Side>)
    requires RatiosInBand(tree) && NodeAtPath(tree, path).Some?
    ensures RatiosInBand(PromoteSibling(tree, path).tree)
  {
    if path != [] {
      ParentIsSplit(tree, path);
      var parentPath := path[..|path| - 1];
      BandBelow(tree, parentPath);
      var parent := NodeAtPath(tree, parentPath).value;
      BandKept(tree, parentPath, parent.first);
      BandKept(tree, parentPath, parent.second);
    }
  }

  /** Resizing changes the ratio of the split at the path, into the band, and nothing else. */
  lemma ResizeSetsRatio(tree: Node, path: seq<Side>, ratio: Number)
    ensures var r := SetRatio(tree, path, ratio);
      match NodeAtPath(tree, path)
      case Some(Split(direction, _, first, second)) =>
        && NodeAtPath(r, path) == Some(Split(direction, ClampRatio(ratio), first, second))
        && (forall other | Apart(path, other) :: NodeAtPath(r, other) == NodeAtPath(tree, other))
        && LeavesInOrder(r) == LeavesInOrder(tree)
        && (RatiosInBand(tree) ==> RatiosInBand(r))
      case _ => r == tree
  {
    var node := NodeAtPath(tree, path);
    if node.Some? && node.value.Split? {
      var resized := Split(node.value.direction, ClampRatio(ratio), node.value.first, node.value.second);
      ReplacedIsFound(tree, path, resized);
      SameLeaves(tree, path, resized);
      forall other | Apart(path, other)
        ensures NodeAtPath(ReplaceNodeAtPath(tree, path, resized), other) == NodeAtPath(tree, other)
      {
        ReplacedElsewhere(tree, path, resized, other);
      }
      if RatiosInBand(tree) {
        BandBelow(tree, path);
        BandKept(tree, path, resized);
      }
    }
  }

  lemma {:induction false} SameLeaves(tree: Node, path: seq<Side>, replacement: Node)
    requires NodeAtPath(tree, path).Some? && LeavesInOrder(NodeAtPath(tree, path).value) == LeavesInOrder(replacement)
    ensures LeavesInOrder(ReplaceNodeAtPath(tree, path, replacement)) == LeavesInOrder(tree)
  {
    if path != [] {
      SameLeaves(Child(tree, path[0]), path[1..], replacement);
    }
  }

  // ---- each step keeps a layout sound ------------------------------------------------------------

  ghost predicate SoundLeaves(leaves: seq<Leaf>) {
    && Distinct(leaves)
    && (forall l | l in leaves :: ActiveValid(l))
    && UniqueTabs(TabBag(leaves))
  }

  lemma SubstituteKeeps(leaves: seq<Leaf>, id: string, replacement: seq<Leaf>)
    requires SoundLeaves(leaves) && UniqueTabs(TabBag(Substitute(leaves, id, replacement)))
    requires Distinct(replacement)
    requires forall r | r in replacement :: ActiveValid(r) && (r.id == id || !HasLeaf(leaves, r.id))
    ensures SoundLeaves(Substitute(leaves, id, replacement))
  {
    DistinctSubstitute(leaves, id, replacement);
    SubstituteMembers(leaves, id, replacement);
  }

  lemma FewerTabs(before: multiset<Tab>, after: multiset<Tab>)
    requires UniqueTabs(before) && forall t: Tab :: after[t] <= before[t]
    ensures UniqueTabs(after)
  {
    forall t: Tab, u: Tab | t in after && u in after && t.id == u.id ensures t == u && after[t] == 1 {
      assert t in before && u in before;
    }
  }

  lemma SplitKeeps(s: Layout, leafId: string, direction: Direction, side: Side, newId: string)
    requires Sound(s) && !HasLeaf(LeavesInOrder(s.tree), newId)
    ensures Sound(Apply(s, SplitAt(leafId, direction, side, newId)))
  {
    var leaves := LeavesInOrder(s.tree);
    PathFindsLeaf(s.tree, leafId);
    if HasLeaf(leaves, leafId) {
      var added := MakeLeaf([], newId);
      SplitInserts(s.tree, leafId, direction, side, added);
      BandSplit(s.tree, leafId, direction, side, added);
      if side == First {
        PairKeeps(leaves, leafId, added, LeafOf(leaves, leafId), newId);
      } else {
        PairKeeps(leaves, leafId, LeafOf(leaves, leafId), added, newId);
      }
    }
  }

  /** A leaf may make way for itself and an empty new leaf. */
  lemma PairKeeps(leaves: seq<Leaf>, id: string, a: Leaf, b: Leaf, newId: string)
    requires SoundLeaves(leaves) && HasLeaf(leaves, id) && !HasLeaf(leaves, newId)
    requires || (a == MakeLeaf([], newId) && b == LeafOf(leaves, id))
             || (a == LeafOf(leaves, id) && b == MakeLeaf([], newId))
    ensures SoundLeaves(Substitute(leaves, id, [a, b])) && HasLeaf(Substitute(leaves, id, [a, b]), newId)
  {
    HasMember(leaves, id);
    forall t: Tab ensures TabBag(Substitute(leaves, id, [a, b]))[t] <= TabBag(leaves)[t] {
      BagSubstitute(leaves, id, [a, b], t);
      BagOfTwo(a, b, t);
    }
    FewerTabs(TabBag(leaves), TabBag(Substitute(leaves, id, [a, b])));
    assert [a, b][1..] == [b] && [b][1..] == [];
    assert id != newId && !HasLeaf([b], a.id);
    assert Distinct([b]);
    SubstituteKeeps(leaves, id, [a, b]);
    SubstituteHas(leaves, id, [a, b], newId);
  }

  lemma BagOfTwo(a: Leaf, b: Leaf, t: Tab)
    ensures TabBag([a, b])[t] == multiset(a.tabs)[t] + multiset(b.tabs)[t]
  {
    assert [a, b] == [a] + [b];
    BagConcat([a], [b], t);
    BagOfOne(a, t);
    BagOfOne(b, t);
  }

  lemma {:induction false} SubstituteHas(leaves: seq<Leaf>, id: string, replacement: seq<Leaf>, other: string)
    requires HasLeaf(leaves, id) && HasLeaf(replacement, other)
    ensures HasLeaf(Substitute(leaves, id, replacement), other)
  {
    if leaves[0].id == id {
      LookUpConcat(replacement, leaves[1..], other);
    } else {
      SubstituteHas(leaves[1..], id, replacement, other);
    }
  }

  lemma BandSplit(tree: Node, leafId: string, direction: Direction, side: Side, newLeaf: Leaf)
    requires RatiosInBand(tree)
    ensures RatiosInBand(SplitLeaf(tree, leafId, direction, side, newLeaf).0)
  {
    var path := PathToLeaf(tree, leafId);
    if path.Some? {
      PathFindsLeaf(tree, leafId);
      var existing := NodeAtPath(tree, path.value).value;
      assert RatiosInBand(existing) && RatiosInBand(Pane(newLeaf));
      BandKept(tree, path.value, MakeSplit(direction, Pane(newLeaf), existing, Finite(RATIO_DEFAULT)));
      BandKept(tree, path.value, MakeSplit(direction, existing, Pane(newLeaf), Finite(RATIO_DEFAULT)));
    }
  }

  lemma OpenKeeps(s: Layout, tab: Tab)
    requires Sound(s) && forall t | t in TabBag(LeavesInOrder(s.tree)) :: t.id != tab.id
    ensures Sound(Apply(s, Open(tab)))
  {
    var leaves := LeavesInOrder(s.tree);
    PathFindsLeaf(s.tree, s.focus);
    var leaf := LeafOf(leaves, s.focus);
    var grown := Leaf(leaf.id, leaf.tabs + [tab], Some(tab.id));
    ReplaceSubstitutes(s.tree, s.focus, Pane(grown));
    BandKept(s.tree, PathToLeaf(s.tree, s.focus).value, Pane(grown));
    SubstituteKeepsId(leaves, s.focus, grown);
    GrownKeeps(leaves, s.focus, grown, tab);
  }

  lemma GrownKeeps(leaves: seq<Leaf>, id: string, grown: Leaf, tab: Tab)
    requires SoundLeaves(leaves) && HasLeaf(leaves, id)
    requires grown == Leaf(id, LeafOf(leaves, id).tabs + [tab], Some(tab.id))
    requires forall t | t in TabBag(leaves) :: t.id != tab.id
    ensures SoundLeaves(Substitute(leaves, id, [grown]))
  {
    GrownUnique(leaves, id, grown, tab);
    assert tab in grown.tabs;
    SwapKeeps(leaves, id, [grown]);
  }

  lemma GrownUnique(leaves: seq<Leaf>, id: string, grown: Leaf, tab: Tab)
    requires HasLeaf(leaves, id) && UniqueTabs(TabBag(leaves)) && forall t | t in TabBag(leaves) :: t.id != tab.id
    requires grown.tabs == LeafOf(leaves, id).tabs + [tab]
    ensures UniqueTabs(TabBag(Substitute(leaves, id, [grown])))
  {
    forall t: Tab ensures TabBag(Substitute(leaves, id, [grown]))[t] == TabBag(leaves)[t] + if t == tab then 1 else 0 {
      BagSubstitute(leaves, id, [grown], t);
      BagOfOne(grown, t);
    }
    OneMoreTab(TabBag(leaves), TabBag(Substitute(leaves, id, [grown])), tab);
  }

  lemma OneMoreTab(before: multiset<Tab>, after: multiset<Tab>, tab: Tab)
    requires UniqueTabs(before) && forall t | t in before :: t.id != tab.id
    requires forall t: Tab :: after[t] == before[t] + if t == tab then 1 else 0
    ensures UniqueTabs(after)
  {
    forall t: Tab, u: Tab | t in after && u in after && t.id == u.id ensures t == u && after[t] == 1 {
      assert t != tab ==> t in before;
      assert u != tab ==> u in before;
    }
  }

  // Tabs that stay keep the active tab valid.

  lemma WithoutHolds(tabs: seq<Tab>, id: string, other: string)
    requires other != id && Holds(tabs, other)
    ensures Holds(Without(tabs, id), other)
  {
    var t :| t in tabs && t.id == other;
    WithoutCounts(tabs, id, t);
    assert t in multiset(Without(tabs, id));
  }

  lemma LastHolds(tabs: seq<Tab>)
    ensures tabs != [] ==> Holds(tabs, LastTabId(tabs).value)
  {
    if tabs != [] {
      assert tabs[|tabs| - 1] in tabs;
    }
  }

  lemma ClosedCounts(leaf: Leaf, tabId: string, left: seq<Leaf>, t: Tab)
    requires |left| <= 1 && (left != [] ==> left[0].tabs == Without(leaf.tabs, tabId))
    ensures TabBag(left)[t] <= multiset(leaf.tabs)[t]
  {
    WithoutCounts(leaf.tabs, tabId, t);
    if left != [] {
      BagOfOne(left[0], t);
    }
  }

  lemma CloseKeeps(s: Layout, leafId: string, tabId: string, recent: seq<string>)
    requires Sound(s)
    ensures Sound(Apply(s, Close(leafId, tabId, recent)))
  {
    var leaves := LeavesInOrder(s.tree);
    var select := tabs => PickNext(recent, tabs);
    CloseOnLeaves(s.tree, leafId, tabId, select);
    if HasLeaf(leaves, leafId) && FindTab(LeafOf(leaves, leafId).tabs, tabId).Some? {
      var leaf := LeafOf(leaves, leafId);
      var closed := ClosedLeaf(leaf, tabId, |leaves| == 1, select);
      if closed != [] && leaf.activeTabId.Some? && leaf.activeTabId.value != tabId {
        WithoutHolds(leaf.tabs, tabId, leaf.activeTabId.value);
      }
      forall t: Tab ensures TabBag(Substitute(leaves, leafId, closed))[t] <= TabBag(leaves)[t] {
        BagSubstitute(leaves, leafId, closed, t);
        ClosedCounts(leaf, tabId, closed, t);
      }
      FewerTabs(TabBag(leaves), TabBag(Substitute(leaves, leafId, closed)));
      SubstituteKeeps(leaves, leafId, closed);
      BandClose(s.tree, leafId, tabId, select);
    }
  }

  lemma BandClose(tree: Node, leafId: string, tabId: string, select: seq<Tab> -> Option<string>)
    requires RatiosInBand(tree)
    ensures RatiosInBand(CloseTab(tree, leafId, tabId, select).tree)
  {
    var path := PathToLeaf(tree, leafId);
    if path.Some? {
      PathFindsLeaf(tree, leafId);
      BandPromoted(tree, path.value);
      var leaf := NodeAtPath(tree, path.value).value.leaf;
      var tabs := Without(leaf.tabs, tabId);
      var active := if leaf.activeTabId == Some(tabId) then select(tabs) else leaf.activeTabId;
      BandKept(tree, path.value, Pane(Leaf(leaf.id, tabs, active)));
    }
  }

  // Moves.

  lemma SourceWithin(leaves: seq<Leaf>, id: string, t: Tab)
    requires HasLeaf(leaves, id)
    ensures multiset(LeafOf(leaves, id).tabs)[t] <= TabBag(leaves)[t]
  {
    BagSubstitute(leaves, id, [], t);
  }

  lemma UniqueOccursOnce(leaves: seq<Leaf>, id: string, tabId: string)
    requires HasLeaf(leaves, id) && UniqueTabs(TabBag(leaves)) && FindTab(LeafOf(leaves, id).tabs, tabId).Some?
    ensures Occurrences(LeafOf(leaves, id).tabs, tabId) == 1
  {
    var tabs := LeafOf(leaves, id).tabs;
    var tab := FindTab(tabs, tabId).value;
    FoundTab(tabs, tabId);
    OccursOnce(tabs, tabId);
    forall t: Tab | t.id == tab.id ensures multiset(tabs)[t] == if t == tab then 1 else 0 {
      SourceWithin(leaves, id, t);
      SourceWithin(leaves, id, tab);
      assert tab in multiset(tabs);
    }
  }

  lemma InsertHolds(tabs: seq<Tab>, index: int, tab: Tab)
    ensures forall t | t in tabs :: t in Insert(tabs, index, tab)
    ensures tab in Insert(tabs, index, tab)
  {
    var i := Clamp(index, |tabs|);
    assert tabs == tabs[..i] + tabs[i..];
    assert Insert(tabs, index, tab)[i] == tab;
  }

  lemma MovedLeavesKeep(leaves: seq<Leaf>, from: string, tab: Tab, to: string, index: int)
    requires SoundLeaves(leaves) && HasLeaf(leaves, from) && HasLeaf(leaves, to)
    requires FindTab(LeafOf(leaves, from).tabs, tab.id) == Some(tab)
    ensures Distinct(MovedLeaves(leaves, from, tab, to, index))
    ensures forall l | l in MovedLeaves(leaves, from, tab, to, index) :: ActiveValid(l)
  {
    var source := LeafOf(leaves, from);
    if from == to {
      ReorderedIsValid(source, tab, index);
      SwapKeeps(leaves, from, [Leaf(from, Insert(Without(source.tabs, tab.id), index, tab), source.activeTabId)]);
    } else {
      var drained := DrainedLeaf(source, tab.id, |leaves| == 1);
      DrainedIsValid(source, tab.id, |leaves| == 1);
      SwapKeeps(leaves, from, drained);
      SubstituteKeepsOthers(leaves, from, drained, to);
      InsertHolds(LeafOf(leaves, to).tabs, index, tab);
      SwapKeeps(Substitute(leaves, from, drained), to,
                [Leaf(to, Insert(LeafOf(leaves, to).tabs, index, tab), Some(tab.id))]);
    }
  }

  lemma ReorderedIsValid(source: Leaf, tab: Tab, index: int)
    requires ActiveValid(source) && FindTab(source.tabs, tab.id) == Some(tab)
    ensures ActiveValid(Leaf(source.id, Insert(Without(source.tabs, tab.id), index, tab), source.activeTabId))
  {
    var without := Without(source.tabs, tab.id);
    InsertHolds(without, index, tab);
    FoundTab(source.tabs, tab.id);
    if source.activeTabId.Some? && source.activeTabId.value != tab.id {
      WithoutHolds(source.tabs, tab.id, source.activeTabId.value);
    }
  }

  lemma DrainedIsValid(source: Leaf, tabId: string, alone: bool)
    requires ActiveValid(source) && FindTab(source.tabs, tabId).Some?
    ensures forall l | l in DrainedLeaf(source, tabId, alone) :: l.id == source.id && ActiveValid(l)
  {
    LastHolds(Without(source.tabs, tabId));
    if source.activeTabId.Some? && source.activeTabId.value != tabId {
      WithoutHolds(source.tabs, tabId, source.activeTabId.value);
    }
  }

  /** A leaf may make way for nothing or for a leaf with its id and a valid active tab. */
  lemma SwapKeeps(leaves: seq<Leaf>, id: string, replacement: seq<Leaf>)
    requires Distinct(leaves) && (forall l | l in leaves :: ActiveValid(l))
    requires |replacement| <= 1 && forall r | r in replacement :: r.id == id && ActiveValid(r)
    ensures Distinct(Substitute(leaves, id, replacement))
    ensures forall l | l in Substitute(leaves, id, replacement) :: ActiveValid(l)
  {
    assert replacement != [] ==> replacement[1..] == [];
    DistinctSubstitute(leaves, id, replacement);
    SubstituteMembers(leaves, id, replacement);
  }

  lemma MoveKeeps(s: Layout, from: string, tabId: string, to: string, index: int)
    requires Sound(s)
    ensures Sound(Apply(s, Move(from, tabId, to, index)))
  {
    var leaves := LeavesInOrder(s.tree);
    MoveOnLeaves(s.tree, from, tabId, to, index);
    if HasLeaf(leaves, from) && FindTab(LeafOf(leaves, from).tabs, tabId).Some? && HasLeaf(leaves, to) {
      FoundTab(LeafOf(leaves, from).tabs, tabId);
      MovedLeavesKeep(leaves, from, FindTab(LeafOf(leaves, from).tabs, tabId).value, to, index);
      UniqueOccursOnce(leaves, from, tabId);
      MoveConserves(s.tree, from, tabId, to, index);
      BandMove(s.tree, from, tabId, to, index);
    }
  }

  lemma BandTakeOut(tree: Node, path: seq<Side>, leaf: Leaf, tabId: string)
    requires RatiosInBand(tree) && NodeAtPath(tree, path).Some?
    ensures RatiosInBand(TakeOut(tree, path, leaf, tabId))
  {
    var tabs := Without(leaf.tabs, tabId);
    BandPromoted(tree, path);
    var active := if leaf.activeTabId == Some(tabId) then LastTabId(tabs) else leaf.activeTabId;
    BandKept(tree, path, Pane(Leaf(leaf.id, tabs, active)));
  }

  lemma BandMove(tree: Node, from: string, tabId: string, to: string, index: int)
    requires RatiosInBand(tree)
    ensures RatiosInBand(MoveTab(tree, from, tabId, to, index).tree)
  {
    var fromPath := PathToLeaf(tree, from);
    if fromPath.Some? {
      PathFindsLeaf(tree, from);
      var leaf := NodeAtPath(tree, fromPath.value).value.leaf;
      var tab := FindTab(leaf.tabs, tabId);
      if tab.Some? {
        if from == to {
          BandKept(tree, fromPath.value,
                   Pane(Leaf(leaf.id, Insert(Without(leaf.tabs, tabId), index, tab.value), leaf.activeTabId)));
        } else {
          var working := TakeOut(tree, fromPath.value, leaf, tabId);
          BandTakeOut(tree, fromPath.value, leaf, tabId);
          var toPath := PathToLeaf(working, to);
          if toPath.Some? {
            PathFindsLeaf(working, to);
            var target := NodeAtPath(working, toPath.value).value.leaf;
            BandKept(working, toPath.value,
                     Pane(Leaf(target.id, Insert(target.tabs, index, tab.value), Some(tab.value.id))));
          }
        }
      }
    }
  }

  // ---- runs ------------------------------------------------------------------------------------------

  lemma StepKeeps(s: Layout, step: Step)
    requires Sound(s) && Fresh(s, step)
    ensures Sound(Apply(s, step))
  {
    match step
    case SplitAt(leafId, direction, side, newId) => SplitKeeps(s, leafId, direction, side, newId);
    case Open(tab) => OpenKeeps(s, tab);
    case Close(leafId, tabId, recent) => CloseKeeps(s, leafId, tabId, recent);
    case Move(from, tabId, to, index) => MoveKeeps(s, from, tabId, to, index);
    case Resize(path, ratio) => ResizeSetsRatio(s.tree, path, ratio);
  }

  /**
   * However panes are split, resized and merged and tabs opened, closed and moved, leaf ids stay
   * distinct, every active tab exists, ratios stay in band, no tab is doubled, and focus names a
   * leaf of the tree.
   */
  lemma {:induction false} RunKeeps(s: Layout, steps: seq<Step>)
    requires Sound(s) && AllFresh(s, steps)
    ensures Sound(Run(s, steps))
  {
    if steps != [] {
      RunKeeps(s, steps[..|steps| - 1]);
      StepKeeps(Run(s, steps[..|steps| - 1]), steps[|steps| - 1]);
    }
  }
}
