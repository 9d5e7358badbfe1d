/** What every sequence of pane edits keeps (src/web/src/panes/tree.ts, src/web/src/stores/layout.ts). */
module PaneLayout {
  import opened Wrappers
  import opened Json
  import opened PaneTree
  import opened PaneEdits

  // ---- all tabs of a tree ---------------------------------------------------------------

  function TabBag(leaves: seq<Leaf>): multiset<Tab> {
    if leaves == [] then multiset{} else multiset(leaves[0].tabs) + TabBag(leaves[1..])
  }

  lemma {:induction false} BagConcat(a: seq<Leaf>, b: seq<Leaf>, t: Tab)
    ensures TabBag(a + b)[t] == TabBag(a)[t] + TabBag(b)[t]
  {
    if a == [] {
      assert a + b == b;
    } else {
      assert (a + b)[0] == a[0] && (a + b)[1..] == a[1..] + b;
      BagConcat(a[1..], b, t);
    }
  }

  lemma {:induction false} BagSubstitute(leaves: seq<Leaf>, id: string, replacement: seq<Leaf>, t: Tab)
    requires HasLeaf(leaves, id)
    ensures TabBag(Substitute(leaves, id, replacement))[t] + multiset(LeafOf(leaves, id).tabs)[t] ==
      TabBag(leaves)[t] + TabBag(replacement)[t]
  {
    if leaves[0].id == id {
      BagConcat(replacement, leaves[1..], t);
    } else {
      BagSubstitute(leaves[1..], id, replacement, t);
      BagConcat([leaves[0]], Substitute(leaves[1..], id, replacement), t);
      BagOfOne(leaves[0], t);
    }
  }

  lemma BagOfOne(leaf: Leaf, t: Tab)
    ensures TabBag([leaf])[t] == multiset(leaf.tabs)[t]
  {
    assert [leaf][1..] == [];
  }

  function Occurrences(tabs: seq<Tab>, id: string): nat {
    if tabs == [] then 0 else Occurrences(tabs[1..], id) + if tabs[0].id == id then 1 else 0
  }

  /** The bag holds this tab once and no other tab with its id. */
  ghost predicate HeldOnce(bag: multiset<Tab>, tab: Tab) {
    forall t: Tab | t.id == tab.id :: bag[t] == if t == tab then 1 else 0
  }

  lemma Uncons(tabs: seq<Tab>, t: Tab)
    requires tabs != []
    ensures multiset(tabs)[t] == multiset(tabs[1..])[t] + if t == tabs[0] then 1 else 0
  {
    assert tabs == [tabs[0]] + tabs[1..];
  }

  lemma {:induction false} WithoutCounts(tabs: seq<Tab>, id: string, t: Tab)
    ensures multiset(Without(tabs, id))[t] == if t.id == id then 0 else multiset(tabs)[t]
  {
    if tabs != [] {
      WithoutCounts(tabs[1..], id, t);
      Uncons(tabs, t);
      if tabs[0].id != id {
        Uncons(Without(tabs, id), t);
      }
    }
  }

  /** An id that occurs once is held by one tab, in one place. */
  lemma {:induction false} OccursOnce(tabs: seq<Tab>, id: string)
    ensures Occurrences(tabs, id) == 0 <==> forall t: Tab | t.id == id :: multiset(tabs)[t] == 0
    ensures Occurrences(tabs, id) == 0 <==> FindTab(tabs, id).None?
    ensures Occurrences(tabs, id) == 1 <==>
      (FindTab(tabs, id).Some? && HeldOnce(multiset(tabs), FindTab(tabs, id).value))
  {
    if tabs != [] {
      OccursOnce(tabs[1..], id);
      FoundTab(tabs, id);
      forall t: Tab ensures multiset(tabs)[t] == multiset(tabs[1..])[t] + if t == tabs[0] then 1 else 0 {
        Uncons(tabs, t);
      }
    }
  }

  lemma InsertCounts(tabs: seq<Tab>, index: int, tab: Tab, t: Tab)
    ensures multiset(Insert(tabs, index, tab))[t] == multiset(tabs)[t] + if t == tab then 1 else 0
  {
    var i := Clamp(index, |tabs|);
    assert tabs == tabs[..i] + tabs[i..];
  }

  /** How often a tab is in the tree after a move, from how often it was there before. */
  lemma MoveCounts(leaves: seq<Leaf>, from: string, tab: Tab, to: string, index: int, t: Tab)
    requires HasLeaf(leaves, from)
    ensures TabBag(MovedLeaves(leaves, from, tab, to, index))[t] + multiset(LeafOf(leaves, from).tabs)[t] ==
      TabBag(leaves)[t] + multiset(Without(LeafOf(leaves, from).tabs, tab.id))[t] +
      if t == tab && HasLeaf(leaves, to) then 1 else 0
  {
    var source := LeafOf(leaves, from);
    var without := Without(source.tabs, tab.id);
    if from == to {
      var reordered := Leaf(from, Insert(without, index, tab), source.activeTabId);
      BagSubstitute(leaves, from, [reordered], t);
      BagOfOne(reordered, t);
      InsertCounts(without, index, tab, t);
    } else {
      var drained := DrainedLeaf(source, tab.id, |leaves| == 1);
      BagSubstitute(leaves, from, drained, t);
      if drained != [] {
        BagOfOne(drained[0], t);
      }
      SubstituteKeepsOthers(leaves, from, drained, to);
      if HasLeaf(leaves, to) {
        var target := LeafOf(leaves, to);
        var merged := Leaf(to, Insert(target.tabs, index, tab), Some(tab.id));
        BagSubstitute(Substitute(leaves, from, drained), to, [merged], t);
        BagOfOne(merged, t);
        InsertCounts(target.tabs, index, tab, t);
      }
    }
  }

  /**
   * A move whose tab is found keeps the tabs of the tree, as a multiset, exactly when the target
   * leaf exists and the source holds the id once. Otherwise tabs are lost.
   */
  lemma MoveConserves(tree: Node, from: string, tabId: string, to: string, index: int)
    requires HasLeaf(LeavesInOrder(tree), from) && FindTab(LeafOf(LeavesInOrder(tree), from).tabs, tabId).Some?
    ensures var leaves, r := LeavesInOrder(tree), MoveTab(tree, from, tabId, to, index);
      TabBag(LeavesInOrder(r.tree)) == TabBag(leaves) <==>
        HasLeaf(leaves, to) && Occurrences(LeafOf(leaves, from).tabs, tabId) == 1
  {
    var leaves := LeavesInOrder(tree);
    var source := LeafOf(leaves, from);
    var tab := FindTab(source.tabs, tabId).value;
    FoundTab(source.tabs, tabId);
    OccursOnce(source.tabs, tabId);
    MoveOnLeaves(tree, from, tabId, to, index);
    var moved := TabBag(MovedLeaves(leaves, from, tab, to, index));
    forall t: Tab
      ensures moved[t] + (if t.id == tabId then multiset(source.tabs)[t] else 0) ==
        TabBag(leaves)[t] + if t == tab && HasLeaf(leaves, to) then 1 else 0
    {
      MoveCounts(leaves, from, tab, to, index, t);
      WithoutCounts(source.tabs, tabId, t);
    }
    assert multiset(source.tabs)[tab] > 0;
    ExchangeKeeps(TabBag(leaves), moved, multiset(source.tabs), tab, HasLeaf(leaves, to));
  }

  /** Taking all tabs of an id out of a bag and putting one back keeps the bag exactly when it held just that one. */
  lemma ExchangeKeeps(before: multiset<Tab>, after: multiset<Tab>, source: multiset<Tab>, tab: Tab, landed: bool)
    requires source[tab] > 0
    requires forall t: Tab ::
      after[t] + (if t.id == tab.id then source[t] else 0) == before[t] + if t == tab && landed then 1 else 0
    ensures after == before <==> landed && HeldOnce(source, tab)
  {
    if landed && HeldOnce(source, tab) {
      assert forall t: Tab :: after[t] == before[t];
    } else if !landed {
      assert after[tab] < before[tab];
    } else {
      var t: Tab :| t.id == tab.id && source[t] != if t == tab then 1 else 0;
      assert after[t] != before[t];
    }
  }

  // ---- where things are after a move ---------------------------------------------------------------

  /** No two leaves share an id. */
  predicate Distinct(leaves: seq<Leaf>) {
    leaves == [] || (!HasLeaf(leaves[1..], leaves[0].id) && Distinct(leaves[1..]))
  }

  lemma {:induction false} DistinctConcat(a: seq<Leaf>, b: seq<Leaf>)
    requires Distinct(a) && Distinct(b) && forall l | l in a :: !HasLeaf(b, l.id)
    ensures Distinct(a + b)
  {
    if a == [] {
      assert a + b == b;
    } else {
      assert (a + b)[0] == a[0] && (a + b)[1..] == a[1..] + b;
      DistinctConcat(a[1..], b);
      LookUpConcat(a[1..], b, a[0].id);
    }
  }

  lemma {:induction false} SubstituteMembers(leaves: seq<Leaf>, id: string, replacement: seq<Leaf>)
    ensures forall l | l in Substitute(leaves, id, replacement) :: l in leaves || l in replacement
  {
    if leaves != [] && leaves[0].id != id {
      SubstituteMembers(leaves[1..], id, replacement);
    }
  }

  lemma {:induction false} HasMember(leaves: seq<Leaf>, id: string)
    ensures HasLeaf(leaves, id) <==> exists l :: l in leaves && l.id == id
  {
    if leaves != [] {
      HasMember(leaves[1..], id);
      assert leaves == [leaves[0]] + leaves[1..];
    }
  }

  /** Ids stay distinct when a leaf makes way for leaves that have its id or fresh ones. */
  lemma {:induction false} DistinctSubstitute(leaves: seq<Leaf>, id: string, replacement: seq<Leaf>)
    requires Distinct(leaves) && Distinct(replacement)
    requires forall r | r in replacement :: r.id == id || !HasLeaf(leaves, r.id)
    ensures Distinct(Substitute(leaves, id, replacement))
  {
    if leaves != [] {
      if leaves[0].id == id {
        DistinctConcat(replacement, leaves[1..]);
      } else {
        DistinctSubstitute(leaves[1..], id, replacement);
        HasMember(replacement, leaves[0].id);
        SubstituteKeepsOthers(leaves[1..], id, replacement, leaves[0].id);
      }
    }
  }

  lemma {:induction false} DroppedIsGone(leaves: seq<Leaf>, id: string)
    requires Distinct(leaves)
    ensures !HasLeaf(Substitute(leaves, id, []), id)
  {
    if leaves != [] {
      if leaves[0].id == id {
        assert [] + leaves[1..] == leaves[1..];
      } else {
        DroppedIsGone(leaves[1..], id);
      }
    }
  }

  // ---- where a tab lands and what stays ------------------------------------------------------

  /** The tab stands among the others at the index, or at the nearer end when the index is outside. */
  ghost predicate LandsAt(tabs: seq<Tab>, others: seq<Tab>, index: int, tab: Tab) {
    var i := if index < 0 then 0 else if index > |others| then |others| else index;
    |tabs| == |others| + 1 && tabs[..i] == others[..i] && tabs[i] == tab && tabs[i + 1..] == others[i..]
  }

  lemma InsertLands(others: seq<Tab>, index: int, tab: Tab)
    ensures LandsAt(Insert(others, index, tab), others, index, tab)
  {
  }

  /** The i-th tab is kept, moved up by the tabs of the id before it. */
  ghost predicate KeptAt(kept: seq<Tab>, tabs: seq<Tab>, id: string, i: nat)
    requires i < |tabs|
  {
    var k := i - Occurrences(tabs[..i], id);
    0 <= k < |kept| && kept[k] == tabs[i]
  }

  /** kept are the tabs of other ids, all of them, in their order. */
  ghost predicate KeptFrom(kept: seq<Tab>, tabs: seq<Tab>, id: string) {
    && |kept| + Occurrences(tabs, id) == |tabs|
    && forall i: nat | i < |tabs| && tabs[i].id != id :: KeptAt(kept, tabs, id, i)
  }

  lemma {:induction false} OccurrencesBound(tabs: seq<Tab>, id: string)
    ensures Occurrences(tabs, id) <= |tabs|
  {
    if tabs != [] {
      OccurrencesBound(tabs[1..], id);
    }
  }

  lemma {:induction false} WithoutKeepsAt(tabs: seq<Tab>, id: string, i: nat)
    requires i < |tabs| && tabs[i].id != id
    ensures KeptAt(Without(tabs, id), tabs, id, i)
  {
    OccurrencesBound(tabs[..i], id);
    if 0 < i {
      WithoutKeepsAt(tabs[1..], id, i - 1);
      assert tabs[..i][1..] == tabs[1..][..i - 1];
    }
  }

  lemma {:induction false} WithoutLength(tabs: seq<Tab>, id: string)
    ensures |Without(tabs, id)| + Occurrences(tabs, id) == |tabs|
  {
    if tabs != [] {
      WithoutLength(tabs[1..], id);
    }
  }

  lemma WithoutKeeps(tabs: seq<Tab>, id: string)
    ensures KeptFrom(Without(tabs, id), tabs, id)
  {
    WithoutLength(tabs, id);
    forall i: nat | i < |tabs| && tabs[i].id != id
      ensures KeptAt(Without(tabs, id), tabs, id, i)
    {
      WithoutKeepsAt(tabs, id, i);
    }
  }

  ghost predicate FirstAt(tabs: seq<Tab>, id: string, k: nat) {
    k < |tabs| && tabs[k].id == id && forall j | 0 <= j < k :: tabs[j].id != id
  }

  /** FindTab gives the first tab with the id, if there is one. */
  lemma {:induction false} FirstFound(tabs: seq<Tab>, id: string)
    ensures FindTab(tabs, id).None? <==> forall k | 0 <= k < |tabs| :: tabs[k].id != id
    ensures FindTab(tabs, id).Some? ==> exists k: nat :: FirstAt(tabs, id, k) && tabs[k] == FindTab(tabs, id).value
  {
    if tabs != [] && tabs[0].id != id {
      FirstFound(tabs[1..], id);
      if FindTab(tabs[1..], id).Some? {
        var k: nat :| FirstAt(tabs[1..], id, k) && tabs[1..][k] == FindTab(tabs, id).value;
        assert FirstAt(tabs, id, k + 1);
      }
    } else if tabs != [] {
      assert FirstAt(tabs, id, 0);
    }
  }

  /** Reordering within a leaf: the tab stands at the index among the others, which keep their order. */
  lemma ReorderLands(tree: Node, leafId: string, tabId: string, index: int)
      returns (kept: seq<Tab>)
    requires HasLeaf(LeavesInOrder(tree), leafId)
    requires FindTab(LeafOf(LeavesInOrder(tree), leafId).tabs, tabId).Some?
    ensures var leaves, r := LeavesInOrder(tree), MoveTab(tree, leafId, tabId, leafId, index);
      var source := LeafOf(leaves, leafId);
      && r.moved && r.focusLeafId == Some(leafId) && HasLeaf(LeavesInOrder(r.tree), leafId)
      && KeptFrom(kept, source.tabs, tabId)
      && var after := LeafOf(LeavesInOrder(r.tree), leafId);
         && LandsAt(after.tabs, kept, index, FindTab(source.tabs, tabId).value)
         && after.activeTabId == source.activeTabId
         && LeavesInOrder(r.tree) == Substitute(leaves, leafId, [after])
  {
    var leaves := LeavesInOrder(tree);
    var source := LeafOf(leaves, leafId);
    var tab := FindTab(source.tabs, tabId).value;
    FoundTab(source.tabs, tabId);
    MoveOnLeaves(tree, leafId, tabId, leafId, index);
    kept := Without(source.tabs, tabId);
    WithoutKeeps(source.tabs, tabId);
    InsertLands(kept, index, tab);
    SubstituteKeepsId(leaves, leafId, Leaf(leafId, Insert(kept, index, tab), source.activeTabId));
  }

  /** A leaf is found after an edit as it was before. */
  ghost predicate SameLeaf(before: seq<Leaf>, after: seq<Leaf>, id: string) {
    && (HasLeaf(after, id) <==> HasLeaf(before, id))
    && (HasLeaf(before, id) ==> LeafOf(after, id) == LeafOf(before, id))
  }

  lemma OtherLeaf(leaves: seq<Leaf>, id: string, replacement: seq<Leaf>, other: string)
    requires other != id && (replacement == [] || (|replacement| == 1 && replacement[0].id == id))
    ensures SameLeaf(leaves, Substitute(leaves, id, replacement), other)
  {
    assert !HasLeaf(replacement, other);
    SubstituteKeepsOthers(leaves, id, replacement, other);
  }

  lemma EditedSource(leaves: seq<Leaf>, from: string, drained: seq<Leaf>)
    requires Distinct(leaves) && HasLeaf(leaves, from)
    requires drained == [] || (|drained| == 1 && drained[0].id == from)
    ensures var working := Substitute(leaves, from, drained);
      (HasLeaf(working, from) <==> drained != []) && (drained != [] ==> LeafOf(working, from) == drained[0])
  {
    if drained == [] {
      DroppedIsGone(leaves, from);
    } else {
      assert drained == [drained[0]];
      SubstituteKeepsId(leaves, from, drained[0]);
    }
  }

  /** The leaves after the source made way for what is left of it, and the target for what it became. */
  lemma EditedLeaves(leaves: seq<Leaf>, from: string, drained: seq<Leaf>, to: string, merged: Leaf)
    requires Distinct(leaves) && from != to && HasLeaf(leaves, from) && HasLeaf(leaves, to) && merged.id == to
    requires drained == [] || (|drained| == 1 && drained[0].id == from)
    ensures var after := Substitute(Substitute(leaves, from, drained), to, [merged]);
      && HasLeaf(after, to) && LeafOf(after, to) == merged
      && (HasLeaf(after, from) <==> drained != []) && (drained != [] ==> LeafOf(after, from) == drained[0])
      && forall other | other != from && other != to :: SameLeaf(leaves, after, other)
  {
    var working := Substitute(leaves, from, drained);
    OtherLeaf(leaves, from, drained, to);
    SubstituteKeepsId(working, to, merged);
    EditedSource(leaves, from, drained);
    OtherLeaf(working, to, [merged], from);
    forall other | other != from && other != to
      ensures SameLeaf(leaves, Substitute(working, to, [merged]), other)
    {
      OtherLeaf(leaves, from, drained, other);
      OtherLeaf(working, to, [merged], other);
    }
  }

  /** A leaf left with these tabs, the last of them active if the tab that was active is gone. */
  ghost predicate LeftWith(leaf: Leaf, source: Leaf, tabId: string, kept: seq<Tab>) {
    && kept != [] && leaf.tabs == kept
    && leaf.activeTabId == if source.activeTabId == Some(tabId) then Some(kept[|kept| - 1].id) else source.activeTabId
  }

  lemma MovedLeavesLand(leaves: seq<Leaf>, from: string, tab: Tab, to: string, index: int) returns (kept: seq<Tab>)
    requires Distinct(leaves) && from != to && HasLeaf(leaves, from) && HasLeaf(leaves, to)
    ensures KeptFrom(kept, LeafOf(leaves, from).tabs, tab.id)
    ensures var after := MovedLeaves(leaves, from, tab, to, index);
      && HasLeaf(after, to) && LeafOf(after, to).activeTabId == Some(tab.id)
      && LandsAt(LeafOf(after, to).tabs, LeafOf(leaves, to).tabs, index, tab)
      && (if HasLeaf(after, from) then LeftWith(LeafOf(after, from), LeafOf(leaves, from), tab.id, kept)
          else kept == [])
      && forall other | other != from && other != to :: SameLeaf(leaves, after, other)
  {
    var source, target := LeafOf(leaves, from), LeafOf(leaves, to);
    TwoLeaves(leaves, from, to);
    kept := Without(source.tabs, tab.id);
    WithoutKeeps(source.tabs, tab.id);
    InsertLands(target.tabs, index, tab);
    var merged := Leaf(to, Insert(target.tabs, index, tab), Some(tab.id));
    EditedLeaves(leaves, from, DrainedLeaf(source, tab.id, false), to, merged);
  }

  /**
   * After a move to another leaf the tab stands at the index among the target's tabs and is active
   * there; the source keeps its other tabs in their order, activating the last one if the moved tab
   * was active, or is gone exactly when it has none; other leaves are as before.
   */
  lemma MoveLands(tree: Node, from: string, tabId: string, to: string, index: int) returns (kept: seq<Tab>)
    requires Distinct(LeavesInOrder(tree)) && from != to
    requires HasLeaf(LeavesInOrder(tree), from) && HasLeaf(LeavesInOrder(tree), to)
    requires FindTab(LeafOf(LeavesInOrder(tree), from).tabs, tabId).Some?
    ensures KeptFrom(kept, LeafOf(LeavesInOrder(tree), from).tabs, tabId)
    ensures
      var leaves, after := LeavesInOrder(tree), LeavesInOrder(MoveTab(tree, from, tabId, to, index).tree);
      var source, target := LeafOf(leaves, from), LeafOf(leaves, to);
      && HasLeaf(after, to) && LeafOf(after, to).activeTabId == Some(tabId)
      && LandsAt(LeafOf(after, to).tabs, target.tabs, index, FindTab(source.tabs, tabId).value)
      && (if HasLeaf(after, from) then LeftWith(LeafOf(after, from), source, tabId, kept) else kept == [])
      && forall other | other != from && other != to :: SameLeaf(leaves, after, other)
  {
    var leaves := LeavesInOrder(tree);
    var source := LeafOf(leaves, from);
    FoundTab(source.tabs, tabId);
    MoveOnLeaves(tree, from, tabId, to, index);
    kept := MovedLeavesLand(leaves, from, FindTab(source.tabs, tabId).value, to, index);
  }

  /**
   * Closing a tab leaves the others of its leaf in their order; what is active is picked among them
   * if it was the closed one. A leaf without tabs is gone exactly when there are others, and then
   * the first leaf beside it takes focus.
   */
  lemma CloseLeaves(tree: Node, leafId: string, tabId: string, select: seq<Tab> -> Option<string>)
      returns (kept: seq<Tab>)
    requires Distinct(LeavesInOrder(tree)) && HasLeaf(LeavesInOrder(tree), leafId)
    requires FindTab(LeafOf(LeavesInOrder(tree), leafId).tabs, tabId).Some?
    ensures KeptFrom(kept, LeafOf(LeavesInOrder(tree), leafId).tabs, tabId)
    ensures
      var leaves, r := LeavesInOrder(tree), CloseTab(tree, leafId, tabId, select);
      var source, after := LeafOf(leaves, leafId), LeavesInOrder(r.tree);
      && r.removed && (HasLeaf(after, leafId) <==> kept != [] || tree.Pane?)
      && (HasLeaf(after, leafId) ==>
            && LeafOf(after, leafId).tabs == kept
            && LeafOf(after, leafId).activeTabId ==
                 if kept == [] then None
                 else if source.activeTabId == Some(tabId) then select(kept)
                 else source.activeTabId)
      && r.focusLeafId == Some(if kept != [] || tree.Pane? then leafId else Heir(tree, leafId).id)
      && forall other | other != leafId :: SameLeaf(leaves, after, other)
  {
    var leaves := LeavesInOrder(tree);
    var source := LeafOf(leaves, leafId);
    kept := Without(source.tabs, tabId);
    WithoutKeeps(source.tabs, tabId);
    CloseOnLeaves(tree, leafId, tabId, select);
    LeavesNotEmpty(tree);
    var left := ClosedLeaf(source, tabId, tree.Pane?, select);
    EditedSource(leaves, leafId, left);
    forall other | other != leafId
      ensures SameLeaf(leaves, Substitute(leaves, leafId, left), other)
    {
      OtherLeaf(leaves, leafId, left, other);
    }
  }

  lemma TwoLeaves(leaves: seq<Leaf>, a: string, b: string)
    requires HasLeaf(leaves, a) && HasLeaf(leaves, b) && a != b
    ensures |leaves| > 1
  {
  }
}
