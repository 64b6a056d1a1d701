/**
 The daemon's layout: workspaces of tabs, each tab a tree of split panes, and
 the registry of live panes. The object here carries out tab creation, the
 in-place split used by cold-start restore, and pane closing.
 */
module SessionLayout {

  import opened Wrappers

  type PaneId = nat
  type Path = string
  type Ratio = real  // carried, never computed with

  datatype Live =
    | Leaf(pane: PaneId)
    | Split(direction: string, ratio: Ratio, first: Live, second: Live)

  datatype Tab = Tab(id: nat, tree: Live, activePane: Option<PaneId>)

  type Layout = seq<seq<Tab>>

  function LeafSet(t: Live): set<PaneId> {
    match t
    case Leaf(p) => {p}
    case Split(_, _, a, b) => LeafSet(a) + LeafSet(b)
  }

  // No pane sits at two leaves.
  predicate Proper(t: Live) {
    t.Split? ==> Proper(t.first) && Proper(t.second) && LeafSet(t.first) !! LeafSet(t.second)
  }

  // The tree with the leaf `a` replaced by `x`.
  function Subst(t: Live, a: PaneId, x: Live): Live {
    match t
    case Leaf(p) => if p == a then x else t
    case Split(d, r, f, s) => Split(d, r, Subst(f, a, x), Subst(s, a, x))
  }

  lemma {:induction false} SubstLeaves(t: Live, a: PaneId, x: Live)
    ensures LeafSet(Subst(t, a, x)) == if a in LeafSet(t) then LeafSet(t) - {a} + LeafSet(x) else LeafSet(t)
    ensures a !in LeafSet(t) ==> Subst(t, a, x) == t
    ensures Proper(t) && Proper(x) && LeafSet(x) !! LeafSet(t) - {a} ==> Proper(Subst(t, a, x))
  {
    if t.Split? {
      SubstLeaves(t.first, a, x);
      SubstLeaves(t.second, a, x);
    }
  }

  // The subtree at a position: `false` leads to the first half of a split.
  function At(t: Live, position: seq<bool>): Option<Live>
    decreases t
  {
    if position == [] then Some(t)
    else
      match t
      case Leaf(_) => None
      case Split(_, _, a, b) => At(if position[0] then b else a, position[1..])
  }

  // By position: `x` stands where the leaf stood, subtrees without the leaf are as
  // they were, and the splits around it keep their direction and ratio.
  lemma {:induction false} SubstAt(t: Live, a: PaneId, x: Live, p: seq<bool>)
    requires At(t, p).Some?
    ensures var was, now := At(t, p).value, At(Subst(t, a, x), p);
            && now.Some?
            && (was == Leaf(a) ==> now.value == x)
            && (a !in LeafSet(was) ==> now.value == was)
            && (was.Split? ==>
                  now.value.Split? && now.value.direction == was.direction && now.value.ratio == was.ratio)
    decreases t
  {
    if p != [] {
      SubstAt(if p[0] then t.second else t.first, a, x, p[1..]);
    } else {
      SubstLeaves(t, a, x);
    }
  }

  lemma {:induction false} SubstTwice(t: Live, a: PaneId, x: Live, b: PaneId, y: Live)
    requires b == a || b !in LeafSet(t)
    ensures Subst(Subst(t, a, x), b, y) == Subst(t, a, Subst(x, b, y))
  {
    if t.Split? {
      SubstTwice(t.first, a, x, b, y);
      SubstTwice(t.second, a, x, b, y);
    }
  }

  // The tree walk of a split: the first leaf met that is the target becomes a
  // split of it and the new pane.
  function ReplaceLeaf(t: Live, target: PaneId, newPane: PaneId, direction: string, ratio: Ratio): (r: (Live, bool))
    ensures !r.1 ==> r.0 == t
  {
    match t
    case Leaf(p) =>
      if p == target then (Split(direction, ratio, Leaf(target), Leaf(newPane)), true) else (t, false)
    case Split(d, q, f, s) =>
      var (f', done) := ReplaceLeaf(f, target, newPane, direction, ratio);
      if done then (Split(d, q, f', s), true)
      else
        var (s', done') := ReplaceLeaf(s, target, newPane, direction, ratio);
        (Split(d, q, f, s'), done')
  }

  lemma {:induction false} ReplaceLeafIsSubst(t: Live, target: PaneId, newPane: PaneId, direction: string, ratio: Ratio)
    requires Proper(t)
    ensures ReplaceLeaf(t, target, newPane, direction, ratio)
            == (Subst(t, target, Split(direction, ratio, Leaf(target), Leaf(newPane))), target in LeafSet(t))
  {
    var x := Split(direction, ratio, Leaf(target), Leaf(newPane));
    if t.Split? {
      ReplaceLeafIsSubst(t.first, target, newPane, direction, ratio);
      ReplaceLeafIsSubst(t.second, target, newPane, direction, ratio);
      SubstLeaves(t.first, target, x);
      SubstLeaves(t.second, target, x);
    }
  }

  // ---------------------------------------------------------------------
  // Whole layouts
  // ---------------------------------------------------------------------

  function TabLeaves(tabs: seq<Tab>): set<PaneId> {
    if tabs == [] then {} else LeafSet(tabs[0].tree) + TabLeaves(tabs[1..])
  }

  // All the leaves of a layout.
  function Leaves(l: Layout): set<PaneId> {
    if l == [] then {} else TabLeaves(l[0]) + Leaves(l[1..])
  }

  predicate ProperTabs(tabs: seq<Tab>) {
    var proper :=
      tabs != [] ==> Proper(tabs[0].tree) && LeafSet(tabs[0].tree) !! TabLeaves(tabs[1..]) && ProperTabs(tabs[1..]);
    proper
  }

  // No pane sits at two leaves of the whole layout.
  predicate ProperLayout(l: Layout) {
    var proper := l != [] ==> ProperTabs(l[0]) && TabLeaves(l[0]) !! Leaves(l[1..]) && ProperLayout(l[1..]);
    proper
  }

  function SubstTabs(tabs: seq<Tab>, a: PaneId, x: Live): (r: seq<Tab>)
    ensures |r| == |tabs|
  {
    if tabs == [] then [] else [tabs[0].(tree := Subst(tabs[0].tree, a, x))] + SubstTabs(tabs[1..], a, x)
  }

  // Every tab with the leaf `a` replaced by `x`; in a proper layout that
  // changes at most one tab.
  function SubstLayout(l: Layout, a: PaneId, x: Live): (r: Layout)
    ensures |r| == |l|
  {
    if l == [] then [] else [SubstTabs(l[0], a, x)] + SubstLayout(l[1..], a, x)
  }

  lemma {:induction false} SubstTabsProper(tabs: seq<Tab>, a: PaneId, x: Live)
    ensures TabLeaves(SubstTabs(tabs, a, x))
            == if a in TabLeaves(tabs) then TabLeaves(tabs) - {a} + LeafSet(x) else TabLeaves(tabs)
    ensures a !in TabLeaves(tabs) ==> SubstTabs(tabs, a, x) == tabs
    ensures ProperTabs(tabs) && Proper(x) && LeafSet(x) !! TabLeaves(tabs) - {a} ==> ProperTabs(SubstTabs(tabs, a, x))
  {
    if tabs != [] {
      SubstLeaves(tabs[0].tree, a, x);
      SubstTabsProper(tabs[1..], a, x);
      assert SubstTabs(tabs, a, x)[1..] == SubstTabs(tabs[1..], a, x);
    }
  }

  lemma {:induction false} SubstLayoutLeaves(l: Layout, a: PaneId, x: Live)
    ensures Leaves(SubstLayout(l, a, x)) == if a in Leaves(l) then Leaves(l) - {a} + LeafSet(x) else Leaves(l)
    ensures a !in Leaves(l) ==> SubstLayout(l, a, x) == l
    ensures ProperLayout(l) && Proper(x) && LeafSet(x) !! Leaves(l) - {a} ==> ProperLayout(SubstLayout(l, a, x))
  {
    if l != [] {
      SubstTabsProper(l[0], a, x);
      SubstLayoutLeaves(l[1..], a, x);
      assert SubstLayout(l, a, x)[1..] == SubstLayout(l[1..], a, x);
    }
  }

  lemma SubstLayoutProper(l: Layout, a: PaneId, x: Live)
    requires ProperLayout(l) && Proper(x) && a in LeafSet(x) && a in Leaves(l)
    requires LeafSet(x) * Leaves(l) <= {a}
    ensures ProperLayout(SubstLayout(l, a, x))
    ensures Leaves(SubstLayout(l, a, x)) == Leaves(l) + LeafSet(x)
  {
    SubstLayoutLeaves(l, a, x);
    assert LeafSet(x) !! Leaves(l) - {a} by {
      assert forall p :: p in LeafSet(x) && p in Leaves(l) ==> p in LeafSet(x) * Leaves(l);
    }
  }

  // Tab by tab: a tab without the leaf `a` is untouched.
  lemma {:induction false} SubstLayoutAt(l: Layout, a: PaneId, x: Live, w: nat, k: nat)
    requires w < |l| && k < |l[w]|
    ensures |SubstLayout(l, a, x)[w]| == |l[w]|
    ensures SubstLayout(l, a, x)[w][k] == l[w][k].(tree := Subst(l[w][k].tree, a, x))
    ensures a !in LeafSet(l[w][k].tree) ==> SubstLayout(l, a, x)[w][k] == l[w][k]
  {
    SubstLeaves(l[w][k].tree, a, x);
    if w > 0 {
      SubstLayoutAt(l[1..], a, x, w - 1, k);
    } else {
      SubstTabsAt(l[0], a, x, k);
    }
  }

  lemma {:induction false} SubstTabsAt(tabs: seq<Tab>, a: PaneId, x: Live, k: nat)
    requires k < |tabs|
    ensures SubstTabs(tabs, a, x)[k] == tabs[k].(tree := Subst(tabs[k].tree, a, x))
  {
    if k > 0 {
      SubstTabsAt(tabs[1..], a, x, k - 1);
    }
  }

  lemma {:induction false} SubstTabsTwice(tabs: seq<Tab>, a: PaneId, x: Live, b: PaneId, y: Live)
    requires b == a || b !in TabLeaves(tabs)
    ensures SubstTabs(SubstTabs(tabs, a, x), b, y) == SubstTabs(tabs, a, Subst(x, b, y))
  {
    if tabs != [] {
      SubstTwice(tabs[0].tree, a, x, b, y);
      SubstTabsTwice(tabs[1..], a, x, b, y);
      assert SubstTabs(tabs, a, x)[1..] == SubstTabs(tabs[1..], a, x);
    }
  }

  lemma {:induction false} SubstLayoutTwice(l: Layout, a: PaneId, x: Live, b: PaneId, y: Live)
    requires b == a || b !in Leaves(l)
    ensures SubstLayout(SubstLayout(l, a, x), b, y) == SubstLayout(l, a, Subst(x, b, y))
  {
    if l != [] {
      SubstTabsTwice(l[0], a, x, b, y);
      SubstLayoutTwice(l[1..], a, x, b, y);
      assert SubstLayout(l, a, x)[1..] == SubstLayout(l[1..], a, x);
    }
  }

  // A leaf replaced by itself.
  lemma {:induction false} SubstSame(t: Live, a: PaneId)
    ensures Subst(t, a, Leaf(a)) == t
  {
    if t.Split? {
      SubstSame(t.first, a);
      SubstSame(t.second, a);
    }
  }

  lemma {:induction false} SubstTabsSame(tabs: seq<Tab>, a: PaneId)
    ensures SubstTabs(tabs, a, Leaf(a)) == tabs
  {
    if tabs != [] {
      SubstSame(tabs[0].tree, a);
      SubstTabsSame(tabs[1..], a);
    }
  }

  lemma {:induction false} SubstLayoutSame(l: Layout, a: PaneId)
    ensures SubstLayout(l, a, Leaf(a)) == l
  {
    if l != [] {
      SubstTabsSame(l[0], a);
      SubstLayoutSame(l[1..], a);
    }
  }

  // Changing the one tab that has the leaf is the whole replacement.
  lemma {:induction false} ReplaceInTabsIsSubst(tabs: seq<Tab>, k: nat, a: PaneId, x: Live)
    requires ProperTabs(tabs) && k < |tabs| && a in LeafSet(tabs[k].tree)
    ensures tabs[k := tabs[k].(tree := Subst(tabs[k].tree, a, x))] == SubstTabs(tabs, a, x)
    ensures a in TabLeaves(tabs)
  {
    var changed := tabs[k := tabs[k].(tree := Subst(tabs[k].tree, a, x))];
    if k == 0 {
      SubstTabsProper(tabs[1..], a, x);
      assert changed == [changed[0]] + tabs[1..];
    } else {
      ReplaceInTabsIsSubst(tabs[1..], k - 1, a, x);
      SubstLeaves(tabs[0].tree, a, x);
      assert changed == [tabs[0]] + tabs[1..][k - 1 := changed[k]];
    }
  }

  lemma {:induction false} ReplaceInTabIsSubst(l: Layout, w: nat, k: nat, a: PaneId, x: Live)
    requires ProperLayout(l) && w < |l| && k < |l[w]| && a in LeafSet(l[w][k].tree)
    ensures l[w := l[w][k := l[w][k].(tree := Subst(l[w][k].tree, a, x))]] == SubstLayout(l, a, x)
    ensures a in Leaves(l)
  {
    var tabs := l[w][k := l[w][k].(tree := Subst(l[w][k].tree, a, x))];
    if w == 0 {
      ReplaceInTabsIsSubst(l[0], k, a, x);
      SubstLayoutLeaves(l[1..], a, x);
      assert l[w := tabs] == [tabs] + l[1..];
    } else {
      ReplaceInTabIsSubst(l[1..], w - 1, k, a, x);
      SubstTabsProper(l[0], a, x);
      assert l[w := tabs] == [l[0]] + l[1..][w - 1 := tabs];
    }
  }

  lemma {:induction false} ProperAt(l: Layout, w: nat, k: nat)
    requires ProperLayout(l) && w < |l| && k < |l[w]|
    ensures Proper(l[w][k].tree)
  {
    if w > 0 {
      ProperAt(l[1..], w - 1, k);
    } else {
      ProperTabAt(l[0], k);
    }
  }

  lemma {:induction false} ProperTabAt(tabs: seq<Tab>, k: nat)
    requires ProperTabs(tabs) && k < |tabs|
    ensures Proper(tabs[k].tree)
  {
    if k > 0 {
      ProperTabAt(tabs[1..], k - 1);
    }
  }

  lemma {:induction false} AppendedTabLeaves(tabs: seq<Tab>, tab: Tab)
    ensures TabLeaves(tabs + [tab]) == TabLeaves(tabs) + LeafSet(tab.tree)
    ensures ProperTabs(tabs) && Proper(tab.tree) && LeafSet(tab.tree) !! TabLeaves(tabs) ==> ProperTabs(tabs + [tab])
  {
    if tabs == [] {
      assert [tab][1..] == [];
    } else {
      AppendedTabLeaves(tabs[1..], tab);
      assert (tabs + [tab])[1..] == tabs[1..] + [tab];
    }
  }

  lemma {:induction false} AppendTabProper(l: Layout, w: nat, tab: Tab)
    requires ProperLayout(l) && w < |l| && Proper(tab.tree) && LeafSet(tab.tree) !! Leaves(l)
    ensures ProperLayout(l[w := l[w] + [tab]])
    ensures Leaves(l[w := l[w] + [tab]]) == Leaves(l) + LeafSet(tab.tree)
  {
    var m := l[w := l[w] + [tab]];
    AppendedTabLeaves(l[w], tab);
    if w == 0 {
      assert m == [l[0] + [tab]] + l[1..];
    } else {
      AppendTabProper(l[1..], w - 1, tab);
      assert m == [l[0]] + l[1..][w - 1 := l[w] + [tab]];
    }
  }

  // ---------------------------------------------------------------------
  // Closing a pane
  // ---------------------------------------------------------------------

  // The tabs but those that consist of the pane alone.
  function DropSole(tabs: seq<Tab>, id: PaneId): (r: seq<Tab>)
    ensures |r| <= |tabs| && (|r| == |tabs| ==> r == tabs)
  {
    if tabs == [] then []
    else if tabs[0].tree == Leaf(id) then DropSole(tabs[1..], id)
    else [tabs[0]] + DropSole(tabs[1..], id)
  }

  lemma {:induction false} DropsNone(tabs: seq<Tab>, id: PaneId)
    requires forall k :: 0 <= k < |tabs| ==> tabs[k].tree != Leaf(id)
    ensures DropSole(tabs, id) == tabs
  {
    if tabs != [] {
      DropsNone(tabs[1..], id);
    }
  }

  // The other tabs keep their order.
  lemma {:induction false} DropsOne(before: seq<Tab>, tab: Tab, after: seq<Tab>, id: PaneId)
    requires tab.tree == Leaf(id)
    requires forall k :: 0 <= k < |before| ==> before[k].tree != Leaf(id)
    requires forall k :: 0 <= k < |after| ==> after[k].tree != Leaf(id)
    ensures DropSole(before + [tab] + after, id) == before + after
  {
    var tabs := before + [tab] + after;
    if before == [] {
      assert tabs[1..] == after && before + after == after;
      DropsNone(after, id);
    } else {
      assert tabs[1..] == before[1..] + [tab] + after;
      DropsOne(before[1..], tab, after, id);
      assert [before[0]] + (before[1..] + after) == before + after;
    }
  }

  // The same in the first workspace where it changes anything.
  function DropSoleInLayout(l: Layout, id: PaneId): (r: Layout)
    ensures |r| == |l|
  {
    if l == [] then []
    else if |DropSole(l[0], id)| != |l[0]| then [DropSole(l[0], id)] + l[1..]
    else [l[0]] + DropSoleInLayout(l[1..], id)
  }

  // The pane is one of several in some tab.
  predicate TabsSplit(tabs: seq<Tab>, id: PaneId) {
    tabs != [] && ((tabs[0].tree.Split? && id in LeafSet(tabs[0].tree)) || TabsSplit(tabs[1..], id))
  }

  predicate InSplit(l: Layout, id: PaneId) {
    l != [] && (TabsSplit(l[0], id) || InSplit(l[1..], id))
  }

  lemma {:induction false} DropSoleLeaves(tabs: seq<Tab>, id: PaneId)
    requires ProperTabs(tabs)
    ensures ProperTabs(DropSole(tabs, id))
    ensures TabLeaves(DropSole(tabs, id)) == if TabsSplit(tabs, id) then TabLeaves(tabs) else TabLeaves(tabs) - {id}
    ensures TabsSplit(tabs, id) ==> id in TabLeaves(tabs)
    ensures |DropSole(tabs, id)| != |tabs| <==> id in TabLeaves(tabs) && !TabsSplit(tabs, id)
  {
    if tabs != [] {
      DropSoleLeaves(tabs[1..], id);
      if tabs[0].tree != Leaf(id) {
        assert DropSole(tabs, id)[1..] == DropSole(tabs[1..], id);
      }
    }
  }

  // The drop happens in the first workspace where there is one to make.
  lemma {:induction false} DropsHere(l: Layout, w: nat, id: PaneId)
    requires w < |l| && |DropSole(l[w], id)| != |l[w]|
    requires forall v :: 0 <= v < w ==> |DropSole(l[v], id)| == |l[v]|
    ensures DropSoleInLayout(l, id) == l[w := DropSole(l[w], id)]
  {
    if w > 0 {
      DropsHere(l[1..], w - 1, id);
    }
  }

  lemma {:induction false} DropsNothing(l: Layout, id: PaneId)
    requires forall v :: 0 <= v < |l| ==> |DropSole(l[v], id)| == |l[v]|
    ensures DropSoleInLayout(l, id) == l
  {
    if l != [] {
      DropsNothing(l[1..], id);
    }
  }

  lemma {:induction false} DropSoleLayoutLeaves(l: Layout, id: PaneId)
    requires ProperLayout(l)
    ensures ProperLayout(DropSoleInLayout(l, id))
    ensures Leaves(DropSoleInLayout(l, id)) == if InSplit(l, id) then Leaves(l) else Leaves(l) - {id}
    ensures InSplit(l, id) ==> id in Leaves(l)
  {
    if l != [] {
      DropSoleLeaves(l[0], id);
      DropSoleLayoutLeaves(l[1..], id);
      var m := DropSoleInLayout(l, id);
      if |DropSole(l[0], id)| != |l[0]| {
        assert m[1..] == l[1..];
      } else {
        assert m[1..] == DropSoleInLayout(l[1..], id);
      }
    }
  }

  // ---------------------------------------------------------------------
  // The session manager
  // ---------------------------------------------------------------------

  // The layout, the registry with each pane's working directory, and a bound
  // on the identifiers in use.
  datatype State = State(layout: Layout, panes: map<PaneId, Path>, minted: nat)

  ghost predicate ProperState(s: State) {
    && ProperLayout(s.layout)
    && (forall p :: p in Leaves(s.layout) ==> p < s.minted)
    && (forall p :: p in s.panes ==> p < s.minted)
  }

  // Every leaf of the layout is a live pane.
  predicate LeavesLive(s: State) {
    Leaves(s.layout) <= s.panes.Keys
  }

  // Dropping the pane's tab leaves a workspace without tabs.
  ghost predicate Empties(l: Layout, id: PaneId) {
    exists w :: 0 <= w < |l| && l[w] != [] && DropSoleInLayout(l, id)[w] == []
  }

  // From s to s' the pane has gone: it is not registered any more, the tab it
  // alone made up is dropped, and every other pane and tab is as it was, but for
  // a fresh tab if the workspace this has emptied is seeded.
  ghost predicate Closed(id: PaneId, s: State, s': State, home: Path, seeds: bool) {
    if seeds then exists w :: Seeded(id, w, s, s', home)
    else s'.layout == DropSoleInLayout(s.layout, id) && s'.panes == s.panes - {id}
  }

  ghost predicate Seeded(id: PaneId, w: nat, s: State, s': State, home: Path) {
    var dropped := DropSoleInLayout(s.layout, id);
    && w < |dropped| && |dropped| > 1 && dropped[w] == [] && s.layout[w] != []
    && s'.layout == dropped[w := [Tab(s.minted + 1, Leaf(s.minted), None)]]
    && s'.panes == (s.panes - {id})[s.minted := home]
  }

  class SessionManager {
    var layout: Layout
    var panes: map<PaneId, Path>  // the registry, with each pane's working directory
    var minted: nat               // identifiers in use are below this

    // The world outside: which shells start, and which paths are directories.
    const spawnOk: nat -> bool
    const isDir: Path -> bool
    const home: Path
    var spawns: nat               // shells asked for so far

    ghost function Now(): State
      reads this
    {
      State(layout, panes, minted)
    }

    constructor (spawnOk: nat -> bool, isDir: Path -> bool, home: Path, minted: nat)
      ensures ProperState(Now()) && LeavesLive(Now()) && layout == [[]] && panes == map[] && this.minted == minted
      ensures this.spawnOk == spawnOk && this.isDir == isDir && this.home == home && spawns == 0
    {
      this.spawnOk, this.isDir, this.home, this.minted := spawnOk, isDir, home, minted;
      layout, panes, spawns := [[]], map[], 0;
    }

    method NewId() returns (id: nat)
      requires ProperState(Now())
      modifies this`minted
      ensures ProperState(Now()) && id == old(minted) && minted == old(minted) + 1
      ensures id !in panes && id !in Leaves(layout)
    {
      id := minted;
      minted := minted + 1;
    }

    method SetPaneCwd(id: PaneId, cwd: Path)
      modifies this`panes
      ensures panes == if id in old(panes) then old(panes)[id := cwd] else old(panes)
    {
      if id in panes {
        panes := panes[id := cwd];
      }
    }

    method CreateTabWithPaneId(w: nat, cwd: Option<Path>, id: PaneId) returns (r: Result<PaneId>)
      requires ProperState(Now()) && id < minted && id !in panes && id !in Leaves(layout)
      modifies this
      ensures ProperState(Now()) && (LeavesLive(old(Now())) ==> LeavesLive(Now()))
      ensures r.Ok? <==> w < |old(layout)| && spawnOk(old(spawns))
      ensures spawns == old(spawns) + if w < |old(layout)| then 1 else 0
      ensures minted == old(minted) + if r.Ok? then 1 else 0
      ensures r.Err? ==> layout == old(layout) && panes == old(panes)
      ensures r.Ok? ==>
                && r.value == id
                && layout == old(layout)[w := old(layout)[w] + [Tab(old(minted), Leaf(id), None)]]
                && panes == old(panes)[id := if cwd.Some? then cwd.value else home]
    {
      if w >= |layout| {
        return Err;
      }
      var started := spawnOk(spawns);
      spawns := spawns + 1;
      if !started {
        return Err;
      }
      panes := panes[id := if cwd.Some? then cwd.value else home];
      var tabId := NewTabId();
      ghost var was := layout;
      layout := layout[w := layout[w] + [Tab(tabId, Leaf(id), None)]];
      AppendTabProper(was, w, Tab(tabId, Leaf(id), None));
      r := Ok(id);
    }

    method NewTabId() returns (id: nat)
      modifies this`minted
      ensures id == old(minted) && minted == old(minted) + 1
    {
      id := minted;
      minted := minted + 1;
    }

    // Walks the tabs until one has the target; in a proper layout the first
    // that has it is the only one.
    method ReplaceInTabs(target: PaneId, newPane: PaneId, direction: string, ratio: Ratio) returns (replaced: bool)
      requires ProperLayout(layout)
      modifies this`layout
      ensures replaced <==> target in Leaves(old(layout))
      ensures layout ==
              if replaced then SubstLayout(old(layout), target, Split(direction, ratio, Leaf(target), Leaf(newPane)))
              else old(layout)
    {
      ghost var was := layout;
      var w := 0;
      while w < |layout|
        invariant w <= |layout| && layout == was
        invariant target in Leaves(was) <==> target in Leaves(was[w..])
      {
        assert was[w..][1..] == was[w + 1..];
        var k := 0;
        while k < |layout[w]|
          invariant layout == was && k <= |layout[w]|
          invariant target in TabLeaves(was[w]) <==> target in TabLeaves(was[w][k..])
        {
          assert was[w][k..][1..] == was[w][k + 1..];
          ProperAt(was, w, k);
          ReplaceLeafIsSubst(was[w][k].tree, target, newPane, direction, ratio);
          var (tree, done) := ReplaceLeaf(layout[w][k].tree, target, newPane, direction, ratio);
          if done {
            layout := layout[w := layout[w][k := layout[w][k].(tree := tree)]];
            ReplaceInTabIsSubst(was, w, k, target, Split(direction, ratio, Leaf(target), Leaf(newPane)));
            return true;
          }
          k := k + 1;
        }
        w := w + 1;
      }
      replaced := false;
    }

    // The leaf of `pane` becomes a split of it and the new pane, in place. A
    // shell that does not start leaves everything as it was.
    method SplitPaneWithRatioAndPaneId(pane: PaneId, direction: string, ratio: Ratio, cwd: Option<Path>, newPane: PaneId)
      returns (r: Result<PaneId>)
      requires ProperState(Now()) && newPane < minted && newPane !in panes && newPane !in Leaves(layout)
      modifies this`layout, this`panes, this`spawns
      ensures ProperState(Now()) && (LeavesLive(old(Now())) ==> LeavesLive(Now()))
      ensures r.Ok? <==> pane in old(panes) && spawnOk(old(spawns)) && pane in Leaves(old(layout))
      ensures spawns == old(spawns) + if pane in old(panes) then 1 else 0
      ensures r.Err? ==> layout == old(layout) && panes == old(panes)
      ensures r.Ok? ==>
                && r.value == newPane
                && layout == SubstLayout(old(layout), pane, Split(direction, ratio, Leaf(pane), Leaf(newPane)))
                && Leaves(layout) == Leaves(old(layout)) + {newPane}
                && panes == old(panes)[newPane := if cwd.Some? then cwd.value else home]
    {
      if pane !in panes {
        return Err;
      }
      var started := spawnOk(spawns);
      spawns := spawns + 1;
      if !started {
        return Err;
      }
      panes := panes[newPane := if cwd.Some? then cwd.value else home];
      var replaced := ReplaceInTabs(pane, newPane, direction, ratio);
      if !replaced {
        panes := panes - {newPane};
        assert panes == old(panes);
        return Err;
      }
      SubstLayoutProper(old(layout), pane, Split(direction, ratio, Leaf(pane), Leaf(newPane)));
      r := Ok(newPane);
    }

    method RemoveSoleTab(id: PaneId) returns (emptied: Option<nat>)
      modifies this`layout
      ensures layout == DropSoleInLayout(old(layout), id)
      ensures emptied.Some? ==>
                emptied.value < |layout| && layout[emptied.value] == [] && old(layout)[emptied.value] != []
      ensures emptied.None? ==> forall w :: 0 <= w < |layout| && layout[w] == [] ==> old(layout)[w] == []
    {
      emptied := None;
      for w := 0 to |layout|
        invariant layout == old(layout)
        invariant forall v :: 0 <= v < w ==> |DropSole(layout[v], id)| == |layout[v]|
      {
        var kept := DropSole(layout[w], id);
        if |kept| != |layout[w]| {
          DropsHere(layout, w, id);
          layout := layout[w := kept];
          if kept == [] {
            emptied := Some(w);
          }
          return;
        }
      }
      DropsNothing(layout, id);
    }

    // Kills a pane and drops the tab it alone made up; a workspace left empty
    // gets a fresh tab unless it is the only one. A pane that is part of a
    // split keeps its leaf, so afterwards the leaves are all live panes if and
    // only if the pane was not part of a split. An unknown pane is ignored.
    method ClosePane(id: PaneId)
      requires ProperState(Now())
      modifies this
      ensures ProperState(Now()) && id !in panes
      ensures id !in old(panes) ==> Now() == old(Now())
      ensures id in old(panes) ==>
                var seeds := Empties(old(layout), id) && |old(layout)| > 1 && spawnOk(old(spawns));
                Closed(id, old(Now()), Now(), home, seeds)
      ensures LeavesLive(old(Now())) ==> (LeavesLive(Now()) <==> !InSplit(old(layout), id))
      ensures InSplit(old(layout), id) ==> id in Leaves(layout)
    {
      DropSoleLayoutLeaves(layout, id);
      if id !in panes {
        return;
      }
      panes := panes - {id};
      var emptied := RemoveSoleTab(id);
      if emptied.Some? && |layout| > 1 {
        SeedEmptied(emptied.value);
        assert spawnOk(old(spawns)) ==> Seeded(id, emptied.value, old(Now()), Now(), home);
      }
    }

    // A workspace without tabs gets one with a fresh pane, if its shell starts.
    method SeedEmptied(w: nat)
      requires ProperState(Now()) && w < |layout| && layout[w] == []
      modifies this
      ensures ProperState(Now()) && (LeavesLive(old(Now())) <==> LeavesLive(Now()))
      ensures Leaves(old(layout)) <= Leaves(layout) && panes.Keys <= old(panes).Keys + {old(minted)}
      ensures if spawnOk(old(spawns))
              then layout == old(layout)[w := [Tab(old(minted) + 1, Leaf(old(minted)), None)]]
                   && panes == old(panes)[old(minted) := home]
              else layout == old(layout) && panes == old(panes)
    {
      var seedId := NewId();
      ghost var before := Now();
      var seeded := CreateTabWithPaneId(w, None, seedId);
      var tab := Tab(before.minted, Leaf(seedId), None);
      AppendTabProper(before.layout, w, tab);
      assert before.layout[w] + [tab] == [tab];
    }
  }
}
