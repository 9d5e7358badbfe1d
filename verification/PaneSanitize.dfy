/** Restoring a pane tree from JSON that nobody vouches for (sanitize in src/web/src/panes/tree.ts). */
module PaneSanitize {
  import opened Wrappers
  import opened Json
  import opened PaneTree

  function KindName(kind: TabKind): string {
    match kind
    case File => "file"
    case Terminal => "terminal"
    case Session => "session"
    case Git => "git"
    case Search => "search"
    case Monitor => "monitor"
    case Claws => "claws"
  }

  const TAB_KINDS := [File, Terminal, Session, Git, Search, Monitor, Claws]

  function KindNamed(name: string, kinds: seq<TabKind>): Option<TabKind> {
    if kinds == [] then None
    else if KindName(kinds[0]) == name then Some(kinds[0])
    else KindNamed(name, kinds[1..])
  }

  /** What typeof calls an object and the language takes for true. */
  predicate IsObject(j: Json) { j.Obj? || j.Arr? }

  function SanitizeTab(tab: Json): Option<Tab> {
    if !IsObject(tab) then None
    else
      var id, kind, title, params := Get(tab, "id"), Get(tab, "kind"), Get(tab, "title"), Get(tab, "params");
      if !id.Str? || id.text == "" then None
      else if !kind.Str? || KindNamed(kind.text, TAB_KINDS).None? then None
      else
        Some(Tab(id.text, KindNamed(kind.text, TAB_KINDS).value, if title.Str? then title.text else "",
                 if IsObject(params) then params else Obj(map[])))
  }

  function SanitizeTabs(rawTabs: seq<Json>): seq<Tab> {
    if rawTabs == [] then []
    else
      var tab := SanitizeTab(rawTabs[0]);
      (if tab.Some? then [tab.value] else []) + SanitizeTabs(rawTabs[1..])
  }

  predicate HasTab(tabs: seq<Tab>, id: string) {
    tabs != [] && (tabs[0].id == id || HasTab(tabs[1..], id))
  }

  /** newId stands for the generated id of a leaf without one. */
  function SanitizeLeaf(n: Json, newId: string): Leaf {
    var rawTabs, id, active := Get(n, "tabs"), Get(n, "id"), Get(n, "activeTabId");
    var tabs := SanitizeTabs(if rawTabs.Arr? then rawTabs.items else []);
    var activeValid := active.Str? && HasTab(tabs, active.text);
    Leaf(if id.Str? && id.text != "" then id.text else newId, tabs,
         if activeValid then Some(active.text) else LastTabId(tabs))
  }

  /** newId gives the generated id for a leaf by its place in the input. */
  function SanitizeNode(node: Json, newId: seq<Side> -> string, at: seq<Side>): Option<Node>
    decreases node != Null, node
  {
    if !IsObject(node) then None
    else if Get(node, "kind") == Str("leaf") then Some(Pane(SanitizeLeaf(node, newId(at))))
    else if Get(node, "kind") == Str("split") then
      var first := SanitizeNode(Get(node, "first"), newId, at + [First]);
      var second := SanitizeNode(Get(node, "second"), newId, at + [Second]);
      if first.Some? && second.Some? then
        var direction := if Get(node, "direction") == Str("vertical") then Vertical else Horizontal;
        var ratio := Get(node, "ratio");
        Some(MakeSplit(direction, first.value, second.value,
                       if ratio.Num? then ratio.number else Finite(RATIO_DEFAULT)))
      else if first.Some? then first
      else second
    else None
  }

  function Sanitize(node: Json, newId: seq<Side> -> string): Node {
    var r := SanitizeNode(node, newId, []);
    if r.Some? then r.value else Pane(MakeLeaf([], newId([])))
  }

  // ---- well-formed trees ---------------------------------------------------------------------

  predicate WellFormedTab(t: Tab) { t.id != "" && IsObject(t.params) }

  predicate WellFormedLeaf(l: Leaf) {
    && l.id != ""
    && (forall t | t in l.tabs :: WellFormedTab(t))
    && (if l.activeTabId.Some? then HasTab(l.tabs, l.activeTabId.value) else l.tabs == [])
  }

  predicate WellFormed(tree: Node) {
    if tree.Pane? then WellFormedLeaf(tree.leaf)
    else RATIO_MIN <= tree.ratio <= RATIO_MAX && WellFormed(tree.first) && WellFormed(tree.second)
  }

  ghost predicate GivesIds(newId: seq<Side> -> string) {
    forall at :: newId(at) != ""
  }

  lemma {:induction false} TabsAreWellFormed(rawTabs: seq<Json>)
    ensures forall t | t in SanitizeTabs(rawTabs) :: WellFormedTab(t)
  {
    if rawTabs != [] {
      TabsAreWellFormed(rawTabs[1..]);
    }
  }

  lemma {:induction false} LastIsHeld(tabs: seq<Tab>)
    ensures tabs != [] ==> HasTab(tabs, LastTabId(tabs).value)
  {
    if |tabs| > 1 {
      LastIsHeld(tabs[1..]);
    }
  }

  lemma LeafIsWellFormed(n: Json, newId: string)
    requires newId != ""
    ensures WellFormedLeaf(SanitizeLeaf(n, newId))
  {
    var rawTabs := Get(n, "tabs");
    TabsAreWellFormed(if rawTabs.Arr? then rawTabs.items else []);
    LastIsHeld(SanitizeLeaf(n, newId).tabs);
  }

  lemma {:induction false} NodeIsWellFormed(node: Json, newId: seq<Side> -> string, at: seq<Side>)
    requires GivesIds(newId)
    ensures SanitizeNode(node, newId, at).Some? ==> WellFormed(SanitizeNode(node, newId, at).value)
    decreases node != Null, node
  {
    if IsObject(node) && Get(node, "kind") == Str("leaf") {
      LeafIsWellFormed(node, newId(at));
    } else if IsObject(node) && Get(node, "kind") == Str("split") {
      NodeIsWellFormed(Get(node, "first"), newId, at + [First]);
      NodeIsWellFormed(Get(node, "second"), newId, at + [Second]);
    }
  }

  /** Whatever the JSON, the restored tree is well formed. */
  lemma SanitizeIsWellFormed(node: Json, newId: seq<Side> -> string)
    requires GivesIds(newId)
    ensures WellFormed(Sanitize(node, newId))
  {
    NodeIsWellFormed(node, newId, []);
  }

  /** Every leaf that can be found in the input, in order. */
  function Salvage(node: Json, newId: seq<Side> -> string, at: seq<Side>): seq<Leaf>
    decreases node != Null, node
  {
    if IsObject(node) && Get(node, "kind") == Str("leaf") then [SanitizeLeaf(node, newId(at))]
    else if IsObject(node) && Get(node, "kind") == Str("split") then
      Salvage(Get(node, "first"), newId, at + [First]) + Salvage(Get(node, "second"), newId, at + [Second])
    else []
  }

  /** Dead parts of a tree collapse away; no leaf is lost, doubled or moved. */
  lemma {:induction false} LeavesAreSalvaged(node: Json, newId: seq<Side> -> string, at: seq<Side>)
    ensures var r := SanitizeNode(node, newId, at);
      if r.Some? then LeavesInOrder(r.value) == Salvage(node, newId, at) else Salvage(node, newId, at) == []
    decreases node != Null, node
  {
    if IsObject(node) && Get(node, "kind") == Str("split") {
      LeavesAreSalvaged(Get(node, "first"), newId, at + [First]);
      LeavesAreSalvaged(Get(node, "second"), newId, at + [Second]);
    }
  }

  // ---- persisting ----------------------------------------------------------------------------

  function EncodeTab(t: Tab): Json {
    Obj(map["id" := Str(t.id), "kind" := Str(KindName(t.kind)), "title" := Str(t.title), "params" := t.params])
  }

  function EncodeTabs(tabs: seq<Tab>): seq<Json> {
    if tabs == [] then [] else [EncodeTab(tabs[0])] + EncodeTabs(tabs[1..])
  }

  function Encode(tree: Node): Json {
    if tree.Pane? then
      var active := tree.leaf.activeTabId;
      Obj(map["kind" := Str("leaf"), "id" := Str(tree.leaf.id), "tabs" := Arr(EncodeTabs(tree.leaf.tabs)),
              "activeTabId" := if active.Some? then Str(active.value) else Null])
    else
      Obj(map["kind" := Str("split"),
              "direction" := Str(if tree.direction == Vertical then "vertical" else "horizontal"),
              "ratio" := Num(Finite(tree.ratio)), "first" := Encode(tree.first), "second" := Encode(tree.second)])
  }

  lemma NamesDiffer(a: TabKind, b: TabKind)
    requires KindName(a) == KindName(b)
    ensures a == b
  {
    assert "session"[0] == 's' && "monitor"[0] == 'm';
  }

  lemma {:induction false} KindFound(kind: TabKind, kinds: seq<TabKind>)
    requires kind in kinds
    ensures KindNamed(KindName(kind), kinds) == Some(kind)
  {
    if KindName(kinds[0]) == KindName(kind) {
      NamesDiffer(kinds[0], kind);
    } else {
      KindFound(kind, kinds[1..]);
    }
  }

  lemma TabRoundTrip(t: Tab)
    requires WellFormedTab(t)
    ensures SanitizeTab(EncodeTab(t)) == Some(t)
  {
    var j := EncodeTab(t);
    assert "kind"[0] == 'k';
    assert Get(j, "id") == Str(t.id) && Get(j, "kind") == Str(KindName(t.kind));
    assert Get(j, "title") == Str(t.title) && Get(j, "params") == t.params;
    assert t.kind in TAB_KINDS by {
      assert TAB_KINDS[0] == File && TAB_KINDS[1] == Terminal && TAB_KINDS[2] == Session && TAB_KINDS[3] == Git;
      assert TAB_KINDS[4] == Search && TAB_KINDS[5] == Monitor && TAB_KINDS[6] == Claws;
    }
    KindFound(t.kind, TAB_KINDS);
  }

  lemma {:induction false} TabsRoundTrip(tabs: seq<Tab>)
    requires forall t | t in tabs :: WellFormedTab(t)
    ensures SanitizeTabs(EncodeTabs(tabs)) == tabs
  {
    if tabs != [] {
      TabRoundTrip(tabs[0]);
      assert EncodeTabs(tabs)[1..] == EncodeTabs(tabs[1..]);
      TabsRoundTrip(tabs[1..]);
    }
  }

  lemma LeafProperties(l: Leaf)
    ensures var j := Encode(Pane(l));
      && Get(j, "kind") == Str("leaf") && Get(j, "id") == Str(l.id) && Get(j, "tabs") == Arr(EncodeTabs(l.tabs))
      && Get(j, "activeTabId") == if l.activeTabId.Some? then Str(l.activeTabId.value) else Null
  {
    assert "kind"[0] == 'k' && "tabs"[0] == 't';
  }

  lemma SplitProperties(tree: Node)
    requires tree.Split?
    ensures var j := Encode(tree);
      && Get(j, "kind") == Str("split") && Get(j, "ratio") == Num(Finite(tree.ratio))
      && Get(j, "direction") == Str(if tree.direction == Vertical then "vertical" else "horizontal")
      && Get(j, "first") == Encode(tree.first) && Get(j, "second") == Encode(tree.second)
  {
    assert "first"[0] == 'f' && "ratio"[0] == 'r';
  }

  lemma LeafRoundTrip(l: Leaf, newId: string)
    requires WellFormedLeaf(l)
    ensures SanitizeLeaf(Encode(Pane(l)), newId) == l
  {
    LeafProperties(l);
    TabsRoundTrip(l.tabs);
  }

  /** A split whose parts are restored is restored. */
  lemma SplitRestored(j: Json, tree: Node, newId: seq<Side> -> string, at: seq<Side>)
    requires tree.Split? && RATIO_MIN <= tree.ratio <= RATIO_MAX && IsObject(j)
    requires Get(j, "kind") == Str("split") && Get(j, "ratio") == Num(Finite(tree.ratio))
    requires Get(j, "direction") == Str("vertical") <==> tree.direction == Vertical
    requires SanitizeNode(Get(j, "first"), newId, at + [First]) == Some(tree.first)
    requires SanitizeNode(Get(j, "second"), newId, at + [Second]) == Some(tree.second)
    ensures SanitizeNode(j, newId, at) == Some(tree)
  {
    assert "split"[0] != "leaf"[0];
  }

  lemma {:induction false} NodeRoundTrip(tree: Node, newId: seq<Side> -> string, at: seq<Side>)
    requires WellFormed(tree)
    ensures SanitizeNode(Encode(tree), newId, at) == Some(tree)
  {
    if tree.Pane? {
      LeafProperties(tree.leaf);
      LeafRoundTrip(tree.leaf, newId(at));
    } else {
      NodeRoundTrip(tree.first, newId, at + [First]);
      NodeRoundTrip(tree.second, newId, at + [Second]);
      SplitProperties(tree);
      assert "vertical"[0] != "horizontal"[0];
      SplitRestored(Encode(tree), tree, newId, at);
    }
  }

  /** Persisting and restoring gives back exactly the well-formed trees; so restoring is idempotent. */
  lemma RoundTrip(tree: Node, newId: seq<Side> -> string)
    requires GivesIds(newId)
    ensures Sanitize(Encode(tree), newId) == tree <==> WellFormed(tree)
  {
    SanitizeIsWellFormed(Encode(tree), newId);
    if WellFormed(tree) {
      NodeRoundTrip(tree, newId, []);
    }
  }

  lemma Idempotent(node: Json, newId: seq<Side> -> string, later: seq<Side> -> string)
    requires GivesIds(newId) && GivesIds(later)
    ensures Sanitize(Encode(Sanitize(node, newId)), later) == Sanitize(node, newId)
  {
    SanitizeIsWellFormed(node, newId);
    RoundTrip(Sanitize(node, newId), later);
  }
}
