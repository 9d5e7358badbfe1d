/** What survives of stored tabs, leaves and splits (sanitize in src/web/src/panes/tree.ts). */
module PaneSalvage {
  import opened Wrappers
  import opened Json
  import opened PaneTree
  import opened PaneSanitize

  // ---- tabs ------------------------------------------------------------------------------

  /** The kind a stored name stands for. */
  ghost predicate Names(name: string, kind: TabKind) {
    || (name == "file" && kind == File) || (name == "terminal" && kind == Terminal)
    || (name == "session" && kind == Session) || (name == "git" && kind == Git)
    || (name == "search" && kind == Search) || (name == "monitor" && kind == Monitor)
    || (name == "claws" && kind == Claws)
  }

  lemma NamesIsKindName(name: string, kind: TabKind)
    ensures Names(name, kind) <==> KindName(kind) == name
  {
  }

  lemma {:induction false} KindNamedIs(name: string, kinds: seq<TabKind>)
    ensures KindNamed(name, kinds).Some? <==> exists k :: k in kinds && Names(name, k)
    ensures KindNamed(name, kinds).Some? ==> Names(name, KindNamed(name, kinds).value)
  {
    if kinds != [] {
      NamesIsKindName(name, kinds[0]);
      KindNamedIs(name, kinds[1..]);
      assert kinds == [kinds[0]] + kinds[1..];
    }
  }

  lemma EveryKind(kind: TabKind)
    ensures kind in TAB_KINDS
  {
    assert TAB_KINDS[0] == File && TAB_KINDS[1] == Terminal && TAB_KINDS[2] == Session && TAB_KINDS[3] == Git;
    assert TAB_KINDS[4] == Search && TAB_KINDS[5] == Monitor && TAB_KINDS[6] == Claws;
  }

  /** A stored value is a usable tab: a non-empty id and the name of a kind. */
  ghost predicate Usable(j: Json) {
    && Get(j, "id").Str? && Get(j, "id").text != ""
    && Get(j, "kind").Str? && exists kind :: Names(Get(j, "kind").text, kind)
  }

  /** The tab a stored value describes; a missing title is empty, missing parameters are none. */
  ghost predicate Describes(j: Json, tab: Tab) {
    && Get(j, "id") == Str(tab.id) && Get(j, "kind").Str? && Names(Get(j, "kind").text, tab.kind)
    && tab.title == (if Get(j, "title").Str? then Get(j, "title").text else "")
    && tab.params == if IsObject(Get(j, "params")) then Get(j, "params") else Obj(map[])
  }

  /** A stored tab survives exactly when it is usable, as what it describes. */
  lemma TabSurvivesIff(j: Json)
    ensures SanitizeTab(j).Some? <==> Usable(j)
    ensures SanitizeTab(j).Some? ==> Describes(j, SanitizeTab(j).value)
  {
    var name := if Get(j, "kind").Str? then Get(j, "kind").text else "";
    KindNamedIs(name, TAB_KINDS);
    if kind :| Names(name, kind) {
      EveryKind(kind);
    }
  }

  ghost function UsableCount(raw: seq<Json>): nat {
    if raw == [] then 0 else UsableCount(raw[..|raw| - 1]) + if Usable(raw[|raw| - 1]) then 1 else 0
  }

  lemma {:induction false} TabsConcat(a: seq<Json>, b: seq<Json>)
    ensures SanitizeTabs(a + b) == SanitizeTabs(a) + SanitizeTabs(b)
  {
    if a == [] {
      assert a + b == b;
    } else {
      assert (a + b)[0] == a[0] && (a + b)[1..] == a[1..] + b;
      TabsConcat(a[1..], b);
    }
  }

  lemma TabsOfOne(j: Json)
    ensures SanitizeTabs([j]) == if SanitizeTab(j).Some? then [SanitizeTab(j).value] else []
  {
    assert [j][1..] == [];
  }

  lemma {:induction false} TabsCounted(raw: seq<Json>)
    ensures |SanitizeTabs(raw)| == UsableCount(raw)
  {
    if raw != [] {
      var init, last := raw[..|raw| - 1], raw[|raw| - 1];
      TabsCounted(init);
      assert raw == init + [last];
      TabsConcat(init, [last]);
      TabsOfOne(last);
      TabSurvivesIff(last);
    }
  }

  /**
   * Of a stored list exactly the usable tabs survive, wherever they stand, in their order: the i-th
   * value, if usable, as the tab after those of the usable values before it.
   */
  lemma TabsSurvive(raw: seq<Json>, i: nat)
    requires i < |raw|
    ensures |SanitizeTabs(raw)| == UsableCount(raw)
    ensures Usable(raw[i]) ==> var k := UsableCount(raw[..i]);
      k < |SanitizeTabs(raw)| && Describes(raw[i], SanitizeTabs(raw)[k])
  {
    TabsCounted(raw);
    TabsCounted(raw[..i]);
    TabsAround(raw, i);
    TabsOfOne(raw[i]);
    TabSurvivesIff(raw[i]);
  }

  lemma TabsAround(raw: seq<Json>, i: nat)
    requires i < |raw|
    ensures SanitizeTabs(raw) ==
      SanitizeTabs(raw[..i]) + (SanitizeTabs([raw[i]]) + SanitizeTabs(raw[i + 1..]))
  {
    Around(raw, i);
    TabsConcat(raw[..i], [raw[i]] + raw[i + 1..]);
    TabsConcat([raw[i]], raw[i + 1..]);
  }

  lemma Around<T>(s: seq<T>, i: nat)
    requires i < |s|
    ensures s == s[..i] + ([s[i]] + s[i + 1..])
  {
  }

  // ---- leaves and splits -----------------------------------------------------------------------

  ghost predicate HoldsId(tabs: seq<Tab>, id: string) {
    exists k :: 0 <= k < |tabs| && tabs[k].id == id
  }

  lemma {:induction false} HasTabIff(tabs: seq<Tab>, id: string)
    ensures HasTab(tabs, id) <==> HoldsId(tabs, id)
  {
    if tabs != [] {
      HasTabIff(tabs[1..], id);
      if HoldsId(tabs[1..], id) {
        var k :| 0 <= k < |tabs[1..]| && tabs[1..][k].id == id;
        assert tabs[k + 1].id == id;
      }
      if k :| 0 < k < |tabs| && tabs[k].id == id {
        assert tabs[1..][k - 1].id == id;
      }
    }
  }

  /**
   * A stored leaf keeps its id if it has one and the tabs that survive; the stored active tab stays
   * active if it survived, otherwise the last one is.
   */
  lemma LeafSurvives(j: Json, newId: string)
    ensures var leaf, stored := SanitizeLeaf(j, newId), Get(j, "activeTabId");
      && leaf.id == (if Get(j, "id").Str? && Get(j, "id").text != "" then Get(j, "id").text else newId)
      && leaf.tabs == SanitizeTabs(if Get(j, "tabs").Arr? then Get(j, "tabs").items else [])
      && leaf.activeTabId ==
           if stored.Str? && HoldsId(leaf.tabs, stored.text) then Some(stored.text)
           else if leaf.tabs == [] then None
           else Some(leaf.tabs[|leaf.tabs| - 1].id)
  {
    if Get(j, "activeTabId").Str? {
      HasTabIff(SanitizeLeaf(j, newId).tabs, Get(j, "activeTabId").text);
    }
  }

  /**
   * A stored split with two parts that survive is a split of them, horizontal unless it says
   * vertical, even unless it gives a ratio; with one it is that part, with none nothing.
   */
  lemma SplitSurvives(j: Json, newId: seq<Side> -> string, at: seq<Side>)
    requires Get(j, "kind") == Str("split")
    ensures
      var first := SanitizeNode(Get(j, "first"), newId, at + [First]);
      var second := SanitizeNode(Get(j, "second"), newId, at + [Second]);
      var r := SanitizeNode(j, newId, at);
      if first.Some? && second.Some? then
        && r.Some? && r.value.Split? && r.value.first == first.value && r.value.second == second.value
        && (r.value.direction == Vertical <==> Get(j, "direction") == Str("vertical"))
        && r.value.ratio == if Get(j, "ratio").Num? then ClampRatio(Get(j, "ratio").number) else 0.5
      else r == if first.Some? then first else second
  {
    assert "split"[0] != "leaf"[0];
  }
}
