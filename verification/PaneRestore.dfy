/** Starting the layout store from a persisted tree (load and setProject in src/web/src/stores/layout.ts). */
module PaneRestore {
  import opened Wrappers
  import opened Json
  import opened PaneTree
  import opened PaneEdits
  import opened PaneLayout
  import opened PaneRuns
  import opened PaneSanitize

  /** A project's stored tree, restored, with focus on its first leaf. */
  function Restore(node: Json, newId: seq<Side> -> string): Layout {
    var tree := Sanitize(node, newId);
    Layout(tree, FirstLeaf(tree).id)
  }

  /** The leaves a restored tree has: those found in the input, or else one empty leaf. */
  function RestoredLeaves(node: Json, newId: seq<Side> -> string): seq<Leaf> {
    var salvaged := Salvage(node, newId, []);
    if salvaged == [] then [MakeLeaf([], newId([]))] else salvaged
  }

  lemma {:induction false} HasTabHolds(tabs: seq<Tab>, id: string)
    ensures HasTab(tabs, id) <==> Holds(tabs, id)
  {
    if tabs != [] {
      HasTabHolds(tabs[1..], id);
      assert tabs == [tabs[0]] + tabs[1..];
    }
  }

  lemma {:induction false} WellFormedParts(tree: Node)
    requires WellFormed(tree)
    ensures RatiosInBand(tree) && forall l | l in LeavesInOrder(tree) :: ActiveValid(l)
  {
    if tree.Pane? {
      if tree.leaf.activeTabId.Some? {
        HasTabHolds(tree.leaf.tabs, tree.leaf.activeTabId.value);
      }
    } else {
      WellFormedParts(tree.first);
      WellFormedParts(tree.second);
    }
  }

  lemma {:induction false} SalvagedOrNothing(node: Json, newId: seq<Side> -> string, at: seq<Side>)
    ensures SanitizeNode(node, newId, at).None? <==> Salvage(node, newId, at) == []
    decreases node != Null, node
  {
    if IsObject(node) && Get(node, "kind") == Str("split") {
      SalvagedOrNothing(Get(node, "first"), newId, at + [First]);
      SalvagedOrNothing(Get(node, "second"), newId, at + [Second]);
    }
  }

  /**
   * The store starts sound from a stored tree exactly when the leaves found in it have distinct ids
   * and no tab id repeats; nothing else in the input matters.
   */
  lemma RestoredIsSoundIff(node: Json, newId: seq<Side> -> string)
    requires GivesIds(newId)
    ensures LeavesInOrder(Restore(node, newId).tree) == RestoredLeaves(node, newId)
    ensures Sound(Restore(node, newId)) <==>
      Distinct(RestoredLeaves(node, newId)) && UniqueTabs(TabBag(RestoredLeaves(node, newId)))
  {
    var tree := Sanitize(node, newId);
    SalvagedOrNothing(node, newId, []);
    LeavesAreSalvaged(node, newId, []);
    SanitizeIsWellFormed(node, newId);
    WellFormedParts(tree);
    LeavesNotEmpty(tree);
  }

  /** A stored leaf that holds a tab twice is restored as it is. */
  lemma RestoreKeepsDoubles(newId: seq<Side> -> string)
    requires GivesIds(newId)
    ensures var tab := Tab("t", File, "", Obj(map[]));
      var tree := Pane(Leaf("l", [tab, tab], Some("t")));
      Restore(Encode(tree), newId) == Layout(tree, "l") && !Sound(Layout(tree, "l"))
  {
    var tab := Tab("t", File, "", Obj(map[]));
    var tree := Pane(Leaf("l", [tab, tab], Some("t")));
    RoundTrip(tree, newId);
    assert TabBag(LeavesInOrder(tree))[tab] == 2;
  }
}
