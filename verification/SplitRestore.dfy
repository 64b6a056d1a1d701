/**
 Cold-start restore: a saved split tree is rebuilt by repeated in-place splits
 of the live layout, any of which may fail because its shell does not start;
 afterwards the saved focused pane is looked up by walking both trees in step.
 */
module SplitRestore {

  import opened Wrappers
  import opened Sequences
  import opened SessionLayout

  datatype Saved =
    | SavedLeaf(cwd: Path, paneId: Option<PaneId>)
    | SavedSplit(direction: string, ratio: Ratio, first: Saved, second: Saved)

  datatype SavedTab = SavedTab(tree: Saved, activePane: Option<PaneId>)

  function FirstLeafCwd(t: Saved): Path {
    match t
    case SavedLeaf(cwd, _) => cwd
    case SavedSplit(_, _, first, _) => FirstLeafCwd(first)
  }

  function FirstLeafPaneId(t: Saved): Option<PaneId> {
    match t
    case SavedLeaf(_, id) => id
    case SavedSplit(_, _, first, _) => FirstLeafPaneId(first)
  }

  function Leftmost(t: Live): (p: PaneId)
    ensures p in LeafSet(t)
  {
    match t
    case Leaf(p) => p
    case Split(_, _, first, _) => Leftmost(first)
  }

  // The identifiers recorded at the leaves, and that no two leaves share one.
  function SavedIds(t: Saved): set<PaneId> {
    match t
    case SavedLeaf(_, id) => if id.Some? then {id.value} else {}
    case SavedSplit(_, _, a, b) => SavedIds(a) + SavedIds(b)
  }

  predicate SavedDistinct(t: Saved) {
    t.SavedSplit? ==>
      SavedDistinct(t.first) && SavedDistinct(t.second) && SavedIds(t.first) !! SavedIds(t.second)
  }

  lemma {:induction false} FirstLeafIsSaved(t: Saved)
    ensures FirstLeafPaneId(t).Some? ==> FirstLeafPaneId(t).value in SavedIds(t)
  {
    if t.SavedSplit? {
      FirstLeafIsSaved(t.first);
    }
  }

  // ---------------------------------------------------------------------
  // What a restored tree may look like
  // ---------------------------------------------------------------------

  // `live` is the saved tree rooted at pane `anchor`, with some subtrees
  // collapsed to the pane that anchors them; each second half hangs on its
  // recorded first pane, if it has one.
  predicate Restored(saved: Saved, anchor: PaneId, live: Live)
    decreases saved
  {
    match saved
    case SavedLeaf(_, _) => live == Leaf(anchor)
    case SavedSplit(d, r, a, b) =>
      live == Leaf(anchor) ||
      (&& live.Split? && live.direction == d && live.ratio == r
       && Restored(a, anchor, live.first)
       && Restored(b, Leftmost(live.second), live.second)
       && (FirstLeafPaneId(b).Some? ==> Leftmost(live.second) == FirstLeafPaneId(b).value))
  }

  predicate RestoredTree(saved: Saved, live: Live) {
    && Restored(saved, Leftmost(live), live)
    && (FirstLeafPaneId(saved).Some? ==> Leftmost(live) == FirstLeafPaneId(saved).value)
  }

  predicate SameShape(saved: Saved, live: Live)
    decreases saved
  {
    match (saved, live)
    case (SavedLeaf(_, _), Leaf(_)) => true
    case (SavedSplit(d, r, a, b), Split(d', r', la, lb)) => d == d' && r == r' && SameShape(a, la) && SameShape(b, lb)
    case _ => false
  }

  // The number of saved splits that stand as a single leaf.
  function Collapses(saved: Saved, live: Live): nat
    decreases saved
  {
    match (saved, live)
    case (SavedSplit(_, _, a, b), Split(_, _, la, lb)) => Collapses(a, la) + Collapses(b, lb)
    case (SavedSplit(_, _, _, _), Leaf(_)) => 1
    case _ => 0
  }

  // A leaf without a recorded identifier has a new one, unless it inherits the
  // anchor's.
  predicate UnnamedFresh(saved: Saved, live: Live, bound: nat)
    decreases saved
  {
    match (saved, live)
    case (SavedSplit(_, _, a, b), Split(_, _, la, lb)) =>
      && (FirstLeafPaneId(b).None? ==> bound <= Leftmost(lb))
      && UnnamedFresh(a, la, bound) && UnnamedFresh(b, lb, bound)
    case _ => true
  }

  lemma {:induction false} UnnamedFreshBelow(saved: Saved, live: Live, bound: nat, bound': nat)
    requires UnnamedFresh(saved, live, bound) && bound' <= bound
    ensures UnnamedFresh(saved, live, bound')
    decreases saved
  {
    if saved.SavedSplit? && live.Split? {
      UnnamedFreshBelow(saved.first, live.first, bound, bound');
      UnnamedFreshBelow(saved.second, live.second, bound, bound');
    }
  }

  // ---------------------------------------------------------------------
  // Which shells decide what
  // ---------------------------------------------------------------------

  // Shells are asked for one after the other; `ok` says which start. This is the
  // number of the next shell after a tree whose first shell is n.
  function Spent(tree: Saved, ok: nat -> bool, n: nat): (next: nat)
    ensures n <= next
  {
    match tree
    case SavedLeaf(_, _) => n
    case SavedSplit(_, _, a, b) => if ok(n) then Spent(b, ok, Spent(a, ok, n + 1)) else n + 1
  }

  // A split stands exactly if its shell started; otherwise it is one leaf.
  predicate Stands(tree: Saved, live: Live, ok: nat -> bool, n: nat)
    decreases tree
  {
    match tree
    case SavedLeaf(_, _) => live.Leaf?
    case SavedSplit(_, _, a, b) =>
      if ok(n) then
        live.Split? && Stands(a, live.first, ok, n + 1) && Stands(b, live.second, ok, Spent(a, ok, n + 1))
      else live.Leaf?
  }

  // The shell of a split comes before those of its first half, and these before
  // those of its second half: if only so many shells can be had, the splits made
  // first stand.
  lemma FirstHalvesFirst(tree: Saved, live: Live, ok: nat -> bool, n: nat, last: nat)
    requires tree.SavedSplit? && TwoLeaves(tree.first) && TwoLeaves(tree.second)
    requires forall k: nat :: ok(k) <==> k < last
    ensures Stands(tree, live, ok, n) <==>
            if last <= n then live.Leaf?
            else live.Split? && StandsOrNot(live.first, n + 1 < last) && StandsOrNot(live.second, n + 2 < last)
  {
    assert Spent(tree.first, ok, n + 1) == n + 2;
    OneSplit(tree.first, ok, n + 1);
    OneSplit(tree.second, ok, n + 2);
  }

  predicate TwoLeaves(tree: Saved) {
    tree.SavedSplit? && tree.first.SavedLeaf? && tree.second.SavedLeaf?
  }

  predicate StandsOrNot(live: Live, whole: bool) {
    if whole then live.Split? && live.first.Leaf? && live.second.Leaf? else live.Leaf?
  }

  lemma OneSplit(tree: Saved, ok: nat -> bool, n: nat)
    requires TwoLeaves(tree)
    ensures forall live :: Stands(tree, live, ok, n) <==> StandsOrNot(live, ok(n))
  {
  }

  // How many of the shells from n up to m do not start.
  function Failures(ok: nat -> bool, n: nat, m: nat): nat
    decreases m - n
  {
    if n >= m then 0 else (if ok(n) then 0 else 1) + Failures(ok, n + 1, m)
  }

  predicate AllStart(ok: nat -> bool, n: nat, m: nat) {
    forall k :: n <= k < m ==> ok(k)
  }

  lemma {:induction false} NoFailures(ok: nat -> bool, n: nat, m: nat)
    ensures Failures(ok, n, m) == 0 <==> AllStart(ok, n, m)
    decreases m - n
  {
    if n < m {
      NoFailures(ok, n + 1, m);
    }
  }

  lemma {:induction false} FailuresJoin(ok: nat -> bool, n: nat, m: nat, k: nat)
    requires n <= m <= k
    ensures Failures(ok, n, k) == Failures(ok, n, m) + Failures(ok, m, k)
    decreases m - n
  {
    if n < m {
      FailuresJoin(ok, n + 1, m, k);
    }
  }

  // One warning for each shell that failed, and one collapse.
  lemma {:induction false} CollapsesAreFailures(tree: Saved, live: Live, ok: nat -> bool, n: nat)
    requires Stands(tree, live, ok, n)
    ensures Collapses(tree, live) == Failures(ok, n, Spent(tree, ok, n))
    decreases tree
  {
    if tree.SavedSplit? && ok(n) {
      var m := Spent(tree.first, ok, n + 1);
      CollapsesAreFailures(tree.first, live.first, ok, n + 1);
      CollapsesAreFailures(tree.second, live.second, ok, m);
      FailuresJoin(ok, n + 1, m, Spent(tree.second, ok, m));
    }
  }

  // Each live leaf is registered in the directory saved with it, or in `home` if
  // that is gone; a collapsed subtree has the directory of its first leaf.
  predicate CwdsRestored(saved: Saved, live: Live, panes: map<PaneId, Path>, isDir: Path -> bool, home: Path)
    decreases saved
  {
    match (saved, live)
    case (SavedLeaf(cwd, _), Leaf(p)) => p in panes && panes[p] == if isDir(cwd) then cwd else home
    case (SavedSplit(_, _, a, _), Leaf(_)) => CwdsRestored(a, live, panes, isDir, home)
    case (SavedSplit(_, _, a, b), Split(_, _, la, lb)) =>
      CwdsRestored(a, la, panes, isDir, home) && CwdsRestored(b, lb, panes, isDir, home)
    case _ => true
  }

  lemma {:induction false} FirstLeafCwdIsRestored(saved: Saved, p: PaneId, panes: map<PaneId, Path>, isDir: Path -> bool, home: Path)
    requires p in panes && panes[p] == if isDir(FirstLeafCwd(saved)) then FirstLeafCwd(saved) else home
    ensures CwdsRestored(saved, Leaf(p), panes, isDir, home)
  {
    if saved.SavedSplit? {
      FirstLeafCwdIsRestored(saved.first, p, panes, isDir, home);
    }
  }

  lemma {:induction false} CwdsUntouched(saved: Saved, live: Live, before: map<PaneId, Path>, after: map<PaneId, Path>,
                                         isDir: Path -> bool, home: Path)
    requires CwdsRestored(saved, live, before, isDir, home)
    requires forall p :: p in LeafSet(live) && p in before ==> p in after && after[p] == before[p]
    ensures CwdsRestored(saved, live, after, isDir, home)
    decreases saved
  {
    if saved.SavedSplit? && live.Split? {
      CwdsUntouched(saved.first, live.first, before, after, isDir, home);
      CwdsUntouched(saved.second, live.second, before, after, isDir, home);
    } else if saved.SavedSplit? {
      CwdsUntouched(saved.first, live, before, after, isDir, home);
    }
  }

  // ---------------------------------------------------------------------
  // Rebuilding one tree
  // ---------------------------------------------------------------------

  // The pane `anchor` stands where `tree` is to be rebuilt, and the saved
  // identifiers are free, except the anchor's own.
  ghost predicate Ready(tree: Saved, anchor: PaneId, s: State) {
    && ProperState(s)
    && anchor in Leaves(s.layout) && anchor in s.panes
    && SavedDistinct(tree)
    && (FirstLeafPaneId(tree).Some? ==> FirstLeafPaneId(tree).value == anchor)
    && (anchor in SavedIds(tree) ==> FirstLeafPaneId(tree) == Some(anchor))
    && SavedIds(tree) - {anchor} !! s.panes.Keys
    && SavedIds(tree) - {anchor} !! Leaves(s.layout)
    && (forall p :: p in SavedIds(tree) ==> p < s.minted)
  }

  // From `s` to `s'` the leaf `anchor` has become the restored tree `live`
  // and nothing else has changed; the panes added are saved ones or new ones.
  ghost predicate Rebuilt(tree: Saved, anchor: PaneId, live: Live, s: State, s': State, isDir: Path -> bool, home: Path) {
    && RebuiltTree(tree, anchor, live, s, s')
    && RebuiltLayout(anchor, live, s, s')
    && RebuiltPanes(anchor, live, s, s')
    && CwdsRestored(tree, live, s'.panes, isDir, home)
  }

  ghost predicate RebuiltTree(tree: Saved, anchor: PaneId, live: Live, s: State, s': State) {
    && Restored(tree, anchor, live) && Proper(live) && anchor in LeafSet(live)
    && s.minted <= s'.minted
    && (forall p :: p in LeafSet(live) && p != anchor ==> p in SavedIds(tree) || s.minted <= p)
    && UnnamedFresh(tree, live, s.minted)
  }

  ghost predicate RebuiltLayout(anchor: PaneId, live: Live, s: State, s': State) {
    && ProperState(s')
    && s'.layout == SubstLayout(s.layout, anchor, live)
    && Leaves(s'.layout) == Leaves(s.layout) + LeafSet(live)
    && LeafSet(live) - {anchor} !! Leaves(s.layout)
  }

  ghost predicate RebuiltPanes(anchor: PaneId, live: Live, s: State, s': State) {
    && s'.panes.Keys == s.panes.Keys + LeafSet(live)
    && LeafSet(live) - {anchor} !! s.panes.Keys
    && (forall p :: p in s.panes && p != anchor ==> s'.panes[p] == s.panes[p])
  }

  // The state after the split itself.
  ghost predicate JustSplit(tree: Saved, anchor: PaneId, newPane: PaneId, s: State, s': State)
    requires tree.SavedSplit?
  {
    && ProperState(s')
    && s'.layout == SubstLayout(s.layout, anchor, Split(tree.direction, tree.ratio, Leaf(anchor), Leaf(newPane)))
    && Leaves(s'.layout) == Leaves(s.layout) + {newPane}
    && newPane !in Leaves(s.layout) && newPane !in s.panes
    && s.minted <= s'.minted
    && (if FirstLeafPaneId(tree.second).Some? then newPane == FirstLeafPaneId(tree.second).value else s.minted <= newPane)
    && s'.panes.Keys == s.panes.Keys + {newPane}
    && (forall p :: p in s.panes ==> s'.panes[p] == s.panes[p])
  }

  // Splits the anchor, giving the second half its recorded identifier if it
  // has one, and the directory of its first leaf. If the shell does not start the
  // anchor stands for all of `tree`.
  method SplitForSecond(sm: SessionManager, anchor: PaneId, tree: Saved) returns (r: Result<PaneId>)
    requires tree.SavedSplit? && Ready(tree, anchor, sm.Now())
    requires CwdsRestored(tree, Leaf(anchor), sm.panes, sm.isDir, sm.home)
    modifies sm
    ensures r.Ok? ==> JustSplit(tree, anchor, r.value, old(sm.Now()), sm.Now())
    ensures r.Ok? ==> CwdsRestored(tree.second, Leaf(r.value), sm.panes, sm.isDir, sm.home)
    ensures r.Err? ==> Rebuilt(tree, anchor, Leaf(anchor), old(sm.Now()), sm.Now(), sm.isDir, sm.home)
    ensures r.Ok? <==> sm.spawnOk(old(sm.spawns))
    ensures sm.spawns == old(sm.spawns) + 1
  {
    var secondCwd := FirstLeafCwd(tree.second);
    var effectiveCwd := if sm.isDir(secondCwd) then Some(secondCwd) else None;
    var savedSecond := FirstLeafPaneId(tree.second);
    FirstLeafIsSaved(tree.first);
    FirstLeafIsSaved(tree.second);
    var newPane;
    if savedSecond.Some? {
      newPane := savedSecond.value;
    } else {
      newPane := sm.NewId();
    }
    SubstLayoutSame(sm.layout, anchor);
    r := sm.SplitPaneWithRatioAndPaneId(anchor, tree.direction, tree.ratio, effectiveCwd, newPane);
    if r.Ok? {
      FirstLeafCwdIsRestored(tree.second, newPane, sm.panes, sm.isDir, sm.home);
    }
  }

  // What became of the shells for a tree, the first of them being n.
  ghost predicate Outcome(tree: Saved, live: Live, ok: nat -> bool, n: nat, next: nat, warnings: nat) {
    Stands(tree, live, ok, n) && next == Spent(tree, ok, n) && warnings == Failures(ok, n, next)
  }

  // Replaces the leaf `anchor` of the shared layout by the restored tree and
  // touches nothing else. Every shell that fails costs one warning and collapses
  // exactly the subtree it was for, so the tree comes back whole if and only if
  // every shell starts.
  method RestoreSubtree(sm: SessionManager, anchor: PaneId, tree: Saved) returns (warnings: nat, ghost live: Live)
    requires Ready(tree, anchor, sm.Now()) && CwdsRestored(tree, Leaf(anchor), sm.panes, sm.isDir, sm.home)
    modifies sm
    ensures Rebuilt(tree, anchor, live, old(sm.Now()), sm.Now(), sm.isDir, sm.home)
    ensures CwdsByPosition(tree, live, sm.panes, sm.isDir, sm.home)
    ensures Outcome(tree, live, sm.spawnOk, old(sm.spawns), sm.spawns, warnings)
    ensures warnings == Collapses(tree, live)
    ensures SameShape(tree, live) <==> AllStart(sm.spawnOk, old(sm.spawns), sm.spawns)
    decreases tree, 1
  {
    match tree {
      case SavedLeaf(cwd, _) =>
        ghost var s0 := sm.Now();
        if sm.isDir(cwd) {
          sm.SetPaneCwd(anchor, cwd);
        }
        LeafRebuilt(tree, anchor, s0, sm.Now(), sm.isDir, sm.home);
        warnings, live := 0, Leaf(anchor);
      case SavedSplit(_, _, _, _) =>
        ghost var s0 := sm.Now();
        var result := SplitForSecond(sm, anchor, tree);
        if result.Err? {
          warnings, live := 1, Leaf(anchor);
        } else {
          CwdsUntouched(tree.first, Leaf(anchor), s0.panes, sm.panes, sm.isDir, sm.home);
          warnings, live := RestoreHalves(sm, anchor, result.value, tree, s0);
        }
    }
    WholeIffAllStart(tree, anchor, live, sm.spawnOk, old(sm.spawns));
    LeavesKeepTheirCwds(tree, live, sm.panes, sm.isDir, sm.home);
  }

  lemma WholeIffAllStart(tree: Saved, anchor: PaneId, live: Live, ok: nat -> bool, n: nat)
    requires Restored(tree, anchor, live) && Stands(tree, live, ok, n)
    ensures Collapses(tree, live) == Failures(ok, n, Spent(tree, ok, n))
    ensures SameShape(tree, live) <==> AllStart(ok, n, Spent(tree, ok, n))
  {
    NoCollapseMeansSameShape(tree, anchor, live);
    CollapsesAreFailures(tree, live, ok, n);
    NoFailures(ok, n, Spent(tree, ok, n));
  }

  // The two halves of a tree whose anchor has just been split by shell n.
  method RestoreHalves(sm: SessionManager, anchor: PaneId, newPane: PaneId, tree: Saved, ghost s0: State)
    returns (warnings: nat, ghost live: Live)
    requires tree.SavedSplit? && Ready(tree, anchor, s0) && JustSplit(tree, anchor, newPane, s0, sm.Now())
    requires CwdsRestored(tree.first, Leaf(anchor), sm.panes, sm.isDir, sm.home)
    requires CwdsRestored(tree.second, Leaf(newPane), sm.panes, sm.isDir, sm.home)
    requires sm.spawns > 0 && sm.spawnOk(sm.spawns - 1)
    modifies sm
    ensures Rebuilt(tree, anchor, live, s0, sm.Now(), sm.isDir, sm.home)
    ensures Outcome(tree, live, sm.spawnOk, old(sm.spawns) - 1, sm.spawns, warnings)
    decreases tree, 0
  {
    ghost var s1, n1 := sm.Now(), sm.spawns;
    FirstReady(tree, anchor, newPane, s0, s1);
    var w1, live1 := RestoreSubtree(sm, anchor, tree.first);
    ghost var s2, n2 := sm.Now(), sm.spawns;
    SecondReady(tree, anchor, newPane, live1, s0, s1, s2, sm.isDir, sm.home);
    CwdsUntouched(tree.second, Leaf(newPane), s1.panes, s2.panes, sm.isDir, sm.home);
    var w2, live2 := RestoreSubtree(sm, newPane, tree.second);
    BothRebuilt(tree, anchor, newPane, live1, live2, s0, s1, s2, sm.Now(), sm.isDir, sm.home);
    BothOutcomes(tree, live1, live2, sm.spawnOk, n1, n2, sm.spawns, w1, w2);
    warnings, live := w1 + w2, Split(tree.direction, tree.ratio, live1, live2);
  }

  lemma LeafRebuilt(tree: Saved, anchor: PaneId, s: State, s': State, isDir: Path -> bool, home: Path)
    requires tree.SavedLeaf? && Ready(tree, anchor, s)
    requires s' == s.(panes := s'.panes)
    requires s'.panes == if isDir(tree.cwd) then s.panes[anchor := tree.cwd] else s.panes
    requires CwdsRestored(tree, Leaf(anchor), s.panes, isDir, home)
    ensures Rebuilt(tree, anchor, Leaf(anchor), s, s', isDir, home)
  {
    SubstLayoutSame(s.layout, anchor);
  }

  lemma FirstReady(tree: Saved, anchor: PaneId, newPane: PaneId, s0: State, s1: State)
    requires tree.SavedSplit? && Ready(tree, anchor, s0) && JustSplit(tree, anchor, newPane, s0, s1)
    ensures Ready(tree.first, anchor, s1)
  {
    FirstLeafIsSaved(tree.first);
    FirstLeafIsSaved(tree.second);
  }

  lemma SecondReady(tree: Saved, anchor: PaneId, newPane: PaneId, live1: Live, s0: State, s1: State, s2: State,
                    isDir: Path -> bool, home: Path)
    ensures (&& tree.SavedSplit? && Ready(tree, anchor, s0) && JustSplit(tree, anchor, newPane, s0, s1)
             && Rebuilt(tree.first, anchor, live1, s1, s2, isDir, home))
            ==> Ready(tree.second, newPane, s2)
  {
    if tree.SavedSplit? {
      FirstLeafIsSaved(tree.first);
      FirstLeafIsSaved(tree.second);
    }
  }

  lemma BothOutcomes(tree: Saved, live1: Live, live2: Live, ok: nat -> bool, n1: nat, n2: nat, n3: nat, w1: nat, w2: nat)
    requires tree.SavedSplit? && n1 > 0 && ok(n1 - 1)
    requires Outcome(tree.first, live1, ok, n1, n2, w1) && Outcome(tree.second, live2, ok, n2, n3, w2)
    ensures Outcome(tree, Split(tree.direction, tree.ratio, live1, live2), ok, n1 - 1, n3, w1 + w2)
  {
    FailuresJoin(ok, n1, n2, n3);
  }

  lemma BothTrees(tree: Saved, anchor: PaneId, newPane: PaneId, live1: Live, live2: Live, s0: State, s1: State, s2: State, s3: State)
    requires tree.SavedSplit? && Ready(tree, anchor, s0) && JustSplit(tree, anchor, newPane, s0, s1)
    requires RebuiltTree(tree.first, anchor, live1, s1, s2)
    requires RebuiltTree(tree.second, newPane, live2, s2, s3)
    requires LeafSet(live2) - {newPane} !! s2.panes.Keys && LeafSet(live1) <= s2.panes.Keys
    requires newPane !in LeafSet(live1)
    ensures RebuiltTree(tree, anchor, Split(tree.direction, tree.ratio, live1, live2), s0, s3)
  {
    RestoredLeftmost(tree.second, newPane, live2);
    FirstLeafIsSaved(tree.second);
    UnnamedFreshBelow(tree.first, live1, s1.minted, s0.minted);
    UnnamedFreshBelow(tree.second, live2, s2.minted, s0.minted);
    assert SavedIds(tree) == SavedIds(tree.first) + SavedIds(tree.second);
  }

  lemma BothLayouts(tree: Saved, anchor: PaneId, newPane: PaneId, live1: Live, live2: Live, s0: State, s1: State, s2: State, s3: State)
    requires tree.SavedSplit? && ProperState(s0) && anchor in Leaves(s0.layout)
    requires JustSplit(tree, anchor, newPane, s0, s1)
    requires RebuiltLayout(anchor, live1, s1, s2) && RebuiltLayout(newPane, live2, s2, s3)
    requires newPane in LeafSet(live2) && newPane !in LeafSet(live1) && anchor in LeafSet(live1)
    ensures RebuiltLayout(anchor, Split(tree.direction, tree.ratio, live1, live2), s0, s3)
  {
    var x := Split(tree.direction, tree.ratio, Leaf(anchor), Leaf(newPane));
    Reassemble(s0.layout, anchor, x, newPane, live1, live2);
    assert LeafSet(Split(tree.direction, tree.ratio, live1, live2)) == LeafSet(live1) + LeafSet(live2);
  }

  lemma BothPanes(tree: Saved, anchor: PaneId, newPane: PaneId, live1: Live, live2: Live, s0: State, s1: State, s2: State, s3: State)
    requires tree.SavedSplit? && JustSplit(tree, anchor, newPane, s0, s1)
    requires RebuiltPanes(anchor, live1, s1, s2) && RebuiltPanes(newPane, live2, s2, s3)
    requires newPane in LeafSet(live2)
    ensures RebuiltPanes(anchor, Split(tree.direction, tree.ratio, live1, live2), s0, s3)
  {
    assert LeafSet(Split(tree.direction, tree.ratio, live1, live2)) == LeafSet(live1) + LeafSet(live2);
  }

  lemma BothRebuilt(tree: Saved, anchor: PaneId, newPane: PaneId, live1: Live, live2: Live,
                    s0: State, s1: State, s2: State, s3: State, isDir: Path -> bool, home: Path)
    ensures (&& tree.SavedSplit? && Ready(tree, anchor, s0) && JustSplit(tree, anchor, newPane, s0, s1)
             && Rebuilt(tree.first, anchor, live1, s1, s2, isDir, home) && Rebuilt(tree.second, newPane, live2, s2, s3, isDir, home))
            ==> Rebuilt(tree, anchor, Split(tree.direction, tree.ratio, live1, live2), s0, s3, isDir, home)
  {
    if tree.SavedSplit? && Ready(tree, anchor, s0) && JustSplit(tree, anchor, newPane, s0, s1)
       && Rebuilt(tree.first, anchor, live1, s1, s2, isDir, home) && Rebuilt(tree.second, newPane, live2, s2, s3, isDir, home) {
      assert newPane !in LeafSet(live1) by {
        assert newPane in Leaves(s1.layout);
      }
      BothTrees(tree, anchor, newPane, live1, live2, s0, s1, s2, s3);
      BothLayouts(tree, anchor, newPane, live1, live2, s0, s1, s2, s3);
      BothPanes(tree, anchor, newPane, live1, live2, s0, s1, s2, s3);
      CwdsUntouched(tree.first, live1, s2.panes, s3.panes, isDir, home);
    }
  }

  lemma {:induction false} RestoredLeftmost(saved: Saved, anchor: PaneId, live: Live)
    requires Restored(saved, anchor, live)
    ensures Leftmost(live) == anchor
    decreases saved
  {
    if saved.SavedSplit? && live.Split? {
      RestoredLeftmost(saved.first, anchor, live.first);
    }
  }

  // The three replacements made by one split and its two halves are together
  // one replacement of the anchor.
  lemma Reassemble(l: Layout, anchor: PaneId, x: Live, newPane: PaneId, live1: Live, live2: Live)
    requires ProperLayout(l) && newPane !in Leaves(l) && anchor != newPane && newPane !in LeafSet(live1)
    requires x.Split? && x.first == Leaf(anchor) && x.second == Leaf(newPane)
    ensures SubstLayout(SubstLayout(SubstLayout(l, anchor, x), anchor, live1), newPane, live2)
            == SubstLayout(l, anchor, Split(x.direction, x.ratio, live1, live2))
  {
    SubstLayoutTwice(l, anchor, x, anchor, live1);
    var y := Subst(x, anchor, live1);
    assert y == Split(x.direction, x.ratio, live1, Leaf(newPane));
    SubstLayoutTwice(l, anchor, y, newPane, live2);
    SubstLeaves(live1, newPane, live2);
  }

  // ---------------------------------------------------------------------
  // When every shell starts
  // ---------------------------------------------------------------------

  lemma {:induction false} NoCollapseMeansSameShape(saved: Saved, anchor: PaneId, live: Live)
    requires Restored(saved, anchor, live)
    ensures SameShape(saved, live) <==> Collapses(saved, live) == 0
    decreases saved
  {
    if saved.SavedSplit? && live.Split? {
      NoCollapseMeansSameShape(saved.first, anchor, live.first);
      NoCollapseMeansSameShape(saved.second, Leftmost(live.second), live.second);
    }
  }

  // What the daemon writes for a live tree.
  function Snapshot(t: Live, panes: map<PaneId, Path>, home: Path): Saved {
    match t
    case Leaf(p) => SavedLeaf(if p in panes then panes[p] else home, Some(p))
    case Split(d, r, a, b) => SavedSplit(d, r, Snapshot(a, panes, home), Snapshot(b, panes, home))
  }

  // Before a save the daemon asks the system for the directory of each shell and
  // keeps the one it has if there is no answer.
  function Refreshed(panes: map<PaneId, Path>, proc: PaneId -> Option<Path>): map<PaneId, Path> {
    map p | p in panes :: if proc(p).Some? then proc(p).value else panes[p]
  }

  predicate StillThere(t: Live, panes: map<PaneId, Path>, proc: PaneId -> Option<Path>) {
    forall p :: p in LeafSet(t) && p in panes && proc(p).Some? ==> proc(p).value == panes[p]
  }

  // What is saved is what was recorded if and only if no shell has left its
  // directory.
  lemma {:induction false} RefreshChangesNothingIff(t: Live, panes: map<PaneId, Path>, proc: PaneId -> Option<Path>, home: Path)
    ensures Snapshot(t, Refreshed(panes, proc), home) == Snapshot(t, panes, home) <==> StillThere(t, panes, proc)
  {
    if t.Split? {
      RefreshChangesNothingIff(t.first, panes, proc, home);
      RefreshChangesNothingIff(t.second, panes, proc, home);
      assert StillThere(t, panes, proc) <==> StillThere(t.first, panes, proc) && StillThere(t.second, panes, proc);
    } else {
      assert t.pane in LeafSet(t);
    }
  }

  // What is saved names every leaf, live or not: a pane closed while it was
  // part of a split is written out and comes back at the next cold start.
  lemma {:induction false} SnapshotNamesEveryLeaf(t: Live, panes: map<PaneId, Path>, home: Path)
    ensures SavedIds(Snapshot(t, panes, home)) == LeafSet(t)
    ensures Proper(t) ==> SavedDistinct(Snapshot(t, panes, home))
  {
    if t.Split? {
      SnapshotNamesEveryLeaf(t.first, panes, home);
      SnapshotNamesEveryLeaf(t.second, panes, home);
    }
  }

  predicate FullyRecorded(t: Saved, isDir: Path -> bool) {
    match t
    case SavedLeaf(cwd, id) => id.Some? && isDir(cwd)
    case SavedSplit(_, _, a, b) => FullyRecorded(a, isDir) && FullyRecorded(b, isDir)
  }

  // Saving the restored tree gives back the tree that was restored, provided
  // nothing collapsed, every leaf has an identifier and every directory is
  // still there.
  lemma {:induction false} SaveAfterRestore(saved: Saved, live: Live, panes: map<PaneId, Path>, isDir: Path -> bool, home: Path)
    requires RestoredTree(saved, live) && Collapses(saved, live) == 0
    requires CwdsRestored(saved, live, panes, isDir, home) && FullyRecorded(saved, isDir)
    ensures Snapshot(live, panes, home) == saved
    decreases saved
  {
    if saved.SavedSplit? {
      RestoredLeftmost(saved.first, Leftmost(live), live.first);
      SaveAfterRestore(saved.first, live.first, panes, isDir, home);
      SaveAfterRestore(saved.second, live.second, panes, isDir, home);
    }
  }

  // ---------------------------------------------------------------------
  // Finding the saved focused pane
  // ---------------------------------------------------------------------

  function LivePaneIdForSaved(saved: Saved, live: Live, target: PaneId): Option<PaneId>
    decreases saved
  {
    match (saved, live)
    case (SavedLeaf(_, id), Leaf(p)) => if id == Some(target) then Some(p) else None
    case (SavedSplit(_, _, sa, sb), Split(_, _, la, lb)) =>
      var r := LivePaneIdForSaved(sa, la, target);
      if r.Some? then r else LivePaneIdForSaved(sb, lb, target)
    case _ => None
  }

  // A position in a tree: `false` is the first half. A hit is a position that
  // is a leaf of both trees and carries the target in the saved one.
  predicate Hit(saved: Saved, live: Live, target: PaneId, position: seq<bool>)
    decreases saved
  {
    match (saved, live)
    case (SavedLeaf(_, id), Leaf(_)) => position == [] && id == Some(target)
    case (SavedSplit(_, _, sa, sb), Split(_, _, la, lb)) =>
      position != [] &&
      if position[0] then Hit(sb, lb, target, position[1..]) else Hit(sa, la, target, position[1..])
    case _ => false
  }

  function PaneAt(live: Live, position: seq<bool>): Option<PaneId> {
    match At(live, position)
    case Some(Leaf(p)) => Some(p)
    case _ => None
  }

  // The saved leaf at a position, if there is one.
  function SavedAt(saved: Saved, position: seq<bool>): Option<Saved>
    decreases saved
  {
    match saved
    case SavedLeaf(_, _) => if position == [] then Some(saved) else None
    case SavedSplit(_, _, a, b) =>
      if position == [] then None else SavedAt(if position[0] then b else a, position[1..])
  }

  // Going from position p to first halves only leads to q.
  predicate FirstBelow(p: seq<bool>, q: seq<bool>) {
    p <= q && forall k :: |p| <= k < |q| ==> !q[k]
  }

  // Every live leaf is registered in the directory of the leftmost saved leaf at
  // or below its position, or in `home` if that is not a directory any more.
  ghost predicate CwdsByPosition(saved: Saved, live: Live, panes: map<PaneId, Path>, isDir: Path -> bool, home: Path) {
    forall p, q :: PaneAt(live, p).Some? && SavedAt(saved, q).Some? && FirstBelow(p, q) ==>
      var (pane, leaf) := (PaneAt(live, p).value, SavedAt(saved, q).value);
      leaf.SavedLeaf? && pane in panes && panes[pane] == if isDir(leaf.cwd) then leaf.cwd else home
  }

  lemma {:induction false} LeafKeepsItsCwd(saved: Saved, live: Live, panes: map<PaneId, Path>, isDir: Path -> bool, home: Path,
                                           p: seq<bool>, q: seq<bool>)
    requires CwdsRestored(saved, live, panes, isDir, home)
    requires PaneAt(live, p).Some? && SavedAt(saved, q).Some? && FirstBelow(p, q)
    ensures var (pane, leaf) := (PaneAt(live, p).value, SavedAt(saved, q).value);
            leaf.SavedLeaf? && pane in panes && panes[pane] == if isDir(leaf.cwd) then leaf.cwd else home
    decreases saved
  {
    if saved.SavedSplit? {
      assert forall k :: 0 <= k < |q| - 1 ==> q[1..][k] == q[k + 1];
      if live.Split? {
        LeafKeepsItsCwd(if p[0] then saved.second else saved.first, if p[0] then live.second else live.first,
                        panes, isDir, home, p[1..], q[1..]);
      } else {
        LeafKeepsItsCwd(saved.first, live, panes, isDir, home, [], q[1..]);
      }
    }
  }

  lemma LeavesKeepTheirCwds(saved: Saved, live: Live, panes: map<PaneId, Path>, isDir: Path -> bool, home: Path)
    requires CwdsRestored(saved, live, panes, isDir, home)
    ensures CwdsByPosition(saved, live, panes, isDir, home)
  {
    forall p, q | PaneAt(live, p).Some? && SavedAt(saved, q).Some? && FirstBelow(p, q)
      ensures var (pane, leaf) := (PaneAt(live, p).value, SavedAt(saved, q).value);
              leaf.SavedLeaf? && pane in panes && panes[pane] == if isDir(leaf.cwd) then leaf.cwd else home
    {
      LeafKeepsItsCwd(saved, live, panes, isDir, home, p, q);
    }
  }

  // Position q comes before position p in pre-order.
  predicate Before(q: seq<bool>, p: seq<bool>)
    decreases |q|
  {
    q != [] && p != [] && if q[0] == p[0] then Before(q[1..], p[1..]) else !q[0]
  }

  // The lookup finds the pane at the first hit, and nothing if and only if
  // there is no hit. The position is returned as evidence.
  lemma {:induction false} LookupFindsFirstHit(saved: Saved, live: Live, target: PaneId) returns (position: seq<bool>)
    ensures var r := LivePaneIdForSaved(saved, live, target);
            && (r.Some? ==>
                  && Hit(saved, live, target, position)
                  && PaneAt(live, position) == r
                  && forall q :: Before(q, position) ==> !Hit(saved, live, target, q))
            && (r.None? ==> forall q :: !Hit(saved, live, target, q))
    decreases saved
  {
    position := [];
    if saved.SavedSplit? && live.Split? {
      var p1 := LookupFindsFirstHit(saved.first, live.first, target);
      var p2 := LookupFindsFirstHit(saved.second, live.second, target);
      if LivePaneIdForSaved(saved.first, live.first, target).Some? {
        position := [false] + p1;
      } else {
        position := [true] + p2;
      }
    } else if saved.SavedLeaf? && live.Leaf? {
      assert forall q :: Before(q, []) ==> false;
    }
  }

  // After a restore the lookup never returns a pane other than the saved one,
  // however many splits failed.
  lemma {:induction false} LookupNeverAnotherPane(saved: Saved, live: Live, target: PaneId)
    requires RestoredTree(saved, live)
    ensures var r := LivePaneIdForSaved(saved, live, target);
            r.Some? ==> r.value == target
    decreases saved
  {
    if saved.SavedSplit? && live.Split? {
      RestoredLeftmost(saved.first, Leftmost(live), live.first);
      LookupNeverAnotherPane(saved.first, live.first, target);
      LookupNeverAnotherPane(saved.second, live.second, target);
    }
  }

  lemma {:induction false} LookupFindsSaved(saved: Saved, live: Live, target: PaneId)
    requires SameShape(saved, live)
    ensures LivePaneIdForSaved(saved, live, target).Some? <==> target in SavedIds(saved)
    decreases saved
  {
    if saved.SavedSplit? {
      LookupFindsSaved(saved.first, live.first, target);
      LookupFindsSaved(saved.second, live.second, target);
    }
  }

  // A collapsed subtree hides even the pane that survives it: the live tree
  // holds pane 1, and the lookup does not find it.
  lemma CollapseHidesItsAnchor()
    ensures var saved := SavedSplit("horizontal", 0.5, SavedLeaf("/", Some(1)), SavedLeaf("/", Some(2)));
            RestoredTree(saved, Leaf(1)) && LivePaneIdForSaved(saved, Leaf(1), 1) == None
  {
  }

  // ---------------------------------------------------------------------
  // The tabs of one workspace
  // ---------------------------------------------------------------------

  ghost predicate TabsDistinct(tabs: seq<SavedTab>) {
    && (forall i :: 0 <= i < |tabs| ==> SavedDistinct(tabs[i].tree))
    && (forall i, j :: 0 <= i < j < |tabs| ==> SavedIds(tabs[i].tree) !! SavedIds(tabs[j].tree))
  }

  // The ids at the leaves of `live` were saved with `saved` or are new.
  ghost predicate IdsFrom(saved: Saved, live: Live, bound: nat) {
    forall p :: p in LeafSet(live) ==> p in SavedIds(saved) || bound <= p
  }

  // From `s` to `s'` the saved tab has been appended to workspace w as `tab`
  // and nothing else has changed.
  ghost predicate TabAdded(saved: Saved, w: nat, tab: Tab, s: State, s': State, isDir: Path -> bool, home: Path) {
    && TabsAppended(w, [tab], s, s')
    && RestoredTab(saved, tab, s.minted)
    && CwdsRestored(saved, tab.tree, s'.panes, isDir, home)
  }

  // From `s` to `s'` the tabs have been appended to workspace w, their panes have
  // been registered, and nothing else has changed.
  ghost predicate TabsAppended(w: nat, live: seq<Tab>, s: State, s': State) {
    && ProperState(s') && s.minted <= s'.minted
    && w < |s.layout| && s'.layout == s.layout[w := s.layout[w] + live]
    && Leaves(s'.layout) == Leaves(s.layout) + TabLeaves(live)
    && s'.panes.Keys == s.panes.Keys + TabLeaves(live)
    && (forall p :: p in s.panes ==> s'.panes[p] == s.panes[p])
  }

  lemma AppendedMore(w: nat, live: seq<Tab>, more: seq<Tab>, s: State, s1: State, s2: State)
    requires TabsAppended(w, live, s, s1) && TabsAppended(w, more, s1, s2)
    ensures TabsAppended(w, live + more, s, s2)
  {
    assert s.layout[w] + live + more == s.layout[w] + (live + more);
    TabLeavesJoin(live, more);
  }

  lemma {:induction false} TabLeavesJoin(xs: seq<Tab>, ys: seq<Tab>)
    ensures TabLeaves(xs + ys) == TabLeaves(xs) + TabLeaves(ys)
  {
    if xs == [] {
      assert xs + ys == ys;
    } else {
      HeadAndTail(xs, ys);
      TabLeavesJoin(xs[1..], ys);
    }
  }

  // The tree of a tab restored under identifiers below `bound`.
  ghost predicate RestoredTab(saved: Saved, tab: Tab, bound: nat) {
    NamedTree(saved, tab.tree, bound) && IdsFrom(saved, tab.tree, bound) && tab.activePane == None
  }

  predicate NamedTree(saved: Saved, live: Live, bound: nat) {
    && RestoredTree(saved, live) && UnnamedFresh(saved, live, bound)
    && (FirstLeafPaneId(saved).None? ==> bound <= Leftmost(live))
  }

  // Every live leaf has the identifier of the leftmost saved leaf at or below its
  // position, and a new one if that had none.
  lemma {:induction false} LeafKeepsItsName(saved: Saved, live: Live, bound: nat, p: seq<bool>, q: seq<bool>)
    requires NamedTree(saved, live, bound)
    requires PaneAt(live, p).Some? && SavedAt(saved, q).Some? && FirstBelow(p, q)
    ensures var (pane, leaf) := (PaneAt(live, p).value, SavedAt(saved, q).value);
            leaf.SavedLeaf? && if leaf.paneId.Some? then pane == leaf.paneId.value else bound <= pane
    decreases saved
  {
    if saved.SavedSplit? {
      assert forall k :: 0 <= k < |q| - 1 ==> q[1..][k] == q[k + 1];
      if live.Split? {
        RestoredLeftmost(saved.first, Leftmost(live), live.first);
        LeafKeepsItsName(if p[0] then saved.second else saved.first,
                         if p[0] then live.second else live.first, bound, p[1..], q[1..]);
      } else {
        LeafKeepsItsName(saved.first, live, bound, [], q[1..]);
      }
    }
  }

  // There is such a saved leaf for every live one.
  lemma {:induction false} LeafBelow(saved: Saved, live: Live, anchor: PaneId, p: seq<bool>) returns (q: seq<bool>)
    requires Restored(saved, anchor, live) && PaneAt(live, p).Some?
    ensures SavedAt(saved, q).Some? && FirstBelow(p, q)
    decreases saved
  {
    q := p;
    if saved.SavedSplit? {
      var below;
      if live.Split? {
        below := LeafBelow(if p[0] then saved.second else saved.first, if p[0] then live.second else live.first,
                           if p[0] then Leftmost(live.second) else anchor, p[1..]);
        q := [p[0]] + below;
      } else {
        below := LeafBelow(saved.first, live, anchor, []);
        q := [false] + below;
      }
      assert q[1..] == below;
    }
  }

  // The state after the tab's root pane has been created.
  ghost predicate JustCreated(saved: Saved, w: nat, tab: Tab, s: State, s': State) {
    && ProperState(s) && tab.tree.Leaf? && tab.activePane == None
    && tab.tree.pane !in Leaves(s.layout) && tab.tree.pane !in s.panes
    && TabsAppended(w, [tab], s, s')
    && (if FirstLeafPaneId(saved).Some? then tab.tree.pane in SavedIds(saved) else s.minted <= tab.tree.pane)
    && Ready(saved, tab.tree.pane, s')
  }

  lemma OneTab(tab: Tab)
    ensures TabLeaves([tab]) == LeafSet(tab.tree)
  {
    assert [tab][1..] == [];
  }

  lemma CreatedThenRebuilt(saved: Saved, w: nat, tab: Tab, live: Live, s0: State, s1: State, s2: State, isDir: Path -> bool, home: Path)
    requires JustCreated(saved, w, tab, s0, s1) && Rebuilt(saved, tab.tree.pane, live, s1, s2, isDir, home)
    ensures TabAdded(saved, w, tab.(tree := live), s0, s2, isDir, home)
  {
    var root, whole := tab.tree.pane, tab.(tree := live);
    OneTab(tab);
    OneTab(whole);
    TabRebuiltInPlace(w, tab, live, s0.layout, s1.layout);
    RestoredLeftmost(saved, root, live);
    UnnamedFreshBelow(saved, live, s1.minted, s0.minted);
  }

  lemma TabRebuiltInPlace(w: nat, tab: Tab, live: Live, l0: Layout, l1: Layout)
    requires w < |l0| && tab.tree.Leaf? && l1 == l0[w := l0[w] + [tab]] && ProperLayout(l1)
    ensures SubstLayout(l1, tab.tree.pane, live) == l0[w := l0[w] + [tab.(tree := live)]]
  {
    ReplaceInTabIsSubst(l1, w, |l0[w]|, tab.tree.pane, live);
    assert l1[w][|l0[w]| := tab.(tree := live)] == l0[w] + [tab.(tree := live)];
  }

  ghost predicate TabReady(saved: Saved, w: nat, s: State) {
    && ProperState(s) && w < |s.layout| && SavedDistinct(saved)
    && SavedIds(saved) !! s.panes.Keys && SavedIds(saved) !! Leaves(s.layout)
    && forall p :: p in SavedIds(saved) ==> p < s.minted
  }

  // Nothing but identifiers has been used up.
  ghost predicate SameTabs(s: State, s': State) {
    ProperState(s') && s'.layout == s.layout && s'.panes == s.panes && s.minted <= s'.minted
  }

  // Creates the tab on its recorded first pane, if it has one.
  method CreateRoot(sm: SessionManager, w: nat, saved: Saved) returns (r: Result<PaneId>, ghost tab: Tab)
    requires TabReady(saved, w, sm.Now())
    modifies sm
    ensures r.Ok? <==> sm.spawnOk(old(sm.spawns))
    ensures sm.spawns == old(sm.spawns) + 1
    ensures r.Err? ==> SameTabs(old(sm.Now()), sm.Now())
    ensures r.Ok? ==> JustCreated(saved, w, tab, old(sm.Now()), sm.Now()) && tab.tree == Leaf(r.value)
    ensures r.Ok? ==> CwdsRestored(saved, Leaf(r.value), sm.panes, sm.isDir, sm.home)
  {
    var rootCwd := FirstLeafCwd(saved);
    var effectiveRootCwd := if sm.isDir(rootCwd) then Some(rootCwd) else None;
    var savedRoot := FirstLeafPaneId(saved);
    FirstLeafIsSaved(saved);
    var root;
    if savedRoot.Some? {
      root := savedRoot.value;
    } else {
      root := sm.NewId();
    }
    tab := Tab(sm.minted, Leaf(root), None);
    AppendTabProper(sm.layout, w, tab);
    OneTab(tab);
    r := sm.CreateTabWithPaneId(w, effectiveRootCwd, root);
    if r.Ok? {
      FirstLeafCwdIsRestored(saved, root, sm.panes, sm.isDir, sm.home);
    }
  }

  // The number of the next shell after a tab whose root is shell n.
  function TabSpent(saved: Saved, ok: nat -> bool, n: nat): (next: nat)
    ensures n < next
  {
    if ok(n) then Spent(saved, ok, n + 1) else n + 1
  }

  // What became of a tab and its shells, the first of them being n: the tab is
  // there if and only if that one started.
  ghost predicate TabOutcome(saved: Saved, tab: Option<Tab>, ok: nat -> bool, n: nat, next: nat, warnings: nat) {
    && next == TabSpent(saved, ok, n) && warnings == Failures(ok, n, next)
    && (tab.Some? <==> ok(n))
    && (tab.Some? ==> Stands(saved, tab.value.tree, ok, n + 1) && warnings == Collapses(saved, tab.value.tree))
    && (tab.None? ==> warnings == 1)
  }

  method RestoreTab(sm: SessionManager, w: nat, saved: Saved) returns (warnings: nat, ghost tab: Option<Tab>)
    requires TabReady(saved, w, sm.Now())
    modifies sm
    ensures TabOutcome(saved, tab, sm.spawnOk, old(sm.spawns), sm.spawns, warnings)
    ensures tab.None? ==> SameTabs(old(sm.Now()), sm.Now())
    ensures tab.Some? ==> TabAdded(saved, w, tab.value, old(sm.Now()), sm.Now(), sm.isDir, sm.home)
  {
    var created;
    ghost var placed;
    created, placed := CreateRoot(sm, w, saved);
    if created.Err? {
      return 1, None;
    }
    ghost var s1 := sm.Now();
    ghost var live;
    warnings, live := RestoreSubtree(sm, created.value, saved);
    CreatedThenRebuilt(saved, w, placed, live, old(sm.Now()), s1, sm.Now(), sm.isDir, sm.home);
    tab := Some(placed.(tree := live));
  }

  // The shell that saved tab i of a workspace begins with, the first tab
  // beginning with shell n.
  function ShellOf(tabs: seq<SavedTab>, ok: nat -> bool, n: nat, i: nat): (k: nat)
    requires i <= |tabs|
    ensures n <= k
  {
    if i == 0 then n else TabSpent(tabs[i - 1].tree, ok, ShellOf(tabs, ok, n, i - 1))
  }

  // The saved tabs before i whose first shell started.
  function Kept(tabs: seq<SavedTab>, ok: nat -> bool, n: nat, i: nat): (kept: seq<nat>)
    requires i <= |tabs|
    ensures |kept| <= i
    ensures forall m :: 0 <= m < |kept| ==> kept[m] < i
    ensures forall m, k :: 0 <= m < k < |kept| ==> kept[m] < kept[k]
  {
    if i == 0 then []
    else
      var before := Kept(tabs, ok, n, i - 1);
      if ok(ShellOf(tabs, ok, n, i - 1)) then before + [i - 1] else before
  }

  lemma {:induction false} KeptIffStarted(tabs: seq<SavedTab>, ok: nat -> bool, n: nat, i: nat, k: nat)
    requires k < i <= |tabs|
    ensures k in Kept(tabs, ok, n, i) <==> ok(ShellOf(tabs, ok, n, k))
  {
    if k < i - 1 {
      KeptIffStarted(tabs, ok, n, i - 1, k);
    }
  }

  function CollapsesIn(tabs: seq<SavedTab>, kept: seq<nat>, live: seq<Tab>): nat
    requires |kept| == |live| && forall m :: 0 <= m < |kept| ==> kept[m] < |tabs|
  {
    if kept == [] then 0
    else
      var m := |kept| - 1;
      CollapsesIn(tabs, kept[..m], live[..m]) + Collapses(tabs[kept[m]].tree, live[m].tree)
  }

  function Grown(live: seq<Tab>, tab: Option<Tab>): seq<Tab> {
    if tab.Some? then live + [tab.value] else live
  }

  // The saved tabs before i, restored with shells from n on: the live tabs are
  // exactly those whose first shell started, in order, each its own tree with
  // exactly the subtrees collapsed whose shell failed.
  ghost predicate TabsSoFar(tabs: seq<SavedTab>, i: nat, live: seq<Tab>, ok: nat -> bool, n: nat, bound: nat)
    requires i <= |tabs|
  {
    var kept := Kept(tabs, ok, n, i);
    && |live| == |kept|
    && forall m :: 0 <= m < |kept| ==>
         FromShells(tabs[kept[m]].tree, live[m], ok, ShellOf(tabs, ok, n, kept[m]), bound)
  }

  // The tab's root is shell `first`; the splits follow.
  ghost predicate FromShells(saved: Saved, tab: Tab, ok: nat -> bool, first: nat, bound: nat) {
    RestoredTab(saved, tab, bound) && Stands(saved, tab.tree, ok, first + 1)
  }

  // One warning for each shell that failed: a lost tab or a collapsed subtree.
  ghost predicate WarningsSoFar(tabs: seq<SavedTab>, i: nat, live: seq<Tab>, ok: nat -> bool, n: nat, next: nat, warnings: nat)
    requires i <= |tabs|
  {
    var kept := Kept(tabs, ok, n, i);
    && |live| == |kept| && next == ShellOf(tabs, ok, n, i)
    && warnings == Failures(ok, n, next)
    && warnings == (i - |kept|) + CollapsesIn(tabs, kept, live)
  }

  lemma TabsGrow(tabs: seq<SavedTab>, i: nat, live: seq<Tab>, tab: Option<Tab>, ok: nat -> bool, n: nat, bound: nat, bound': nat,
                 next': nat, more: nat)
    requires i < |tabs| && TabsSoFar(tabs, i, live, ok, n, bound) && bound <= bound'
    requires TabOutcome(tabs[i].tree, tab, ok, ShellOf(tabs, ok, n, i), next', more)
    requires tab.Some? ==> RestoredTab(tabs[i].tree, tab.value, bound')
    ensures TabsSoFar(tabs, i + 1, Grown(live, tab), ok, n, bound)
  {
    if tab.Some? {
      UnnamedFreshBelow(tabs[i].tree, tab.value.tree, bound', bound);
      assert FromShells(tabs[i].tree, tab.value, ok, ShellOf(tabs, ok, n, i), bound);
    }
  }

  lemma CollapsesMore(tabs: seq<SavedTab>, kept: seq<nat>, live: seq<Tab>, i: nat, tab: Tab)
    requires |kept| == |live| && i < |tabs| && forall m :: 0 <= m < |kept| ==> kept[m] < |tabs|
    ensures CollapsesIn(tabs, kept + [i], live + [tab]) == CollapsesIn(tabs, kept, live) + Collapses(tabs[i].tree, tab.tree)
  {
    assert (kept + [i])[..|kept|] == kept && (live + [tab])[..|live|] == live;
  }

  lemma WarningsGrow(tabs: seq<SavedTab>, i: nat, live: seq<Tab>, tab: Option<Tab>, ok: nat -> bool, n: nat, next: nat, next': nat,
                     warnings: nat, more: nat)
    requires i < |tabs| && WarningsSoFar(tabs, i, live, ok, n, next, warnings)
    requires TabOutcome(tabs[i].tree, tab, ok, next, next', more)
    ensures WarningsSoFar(tabs, i + 1, Grown(live, tab), ok, n, next', warnings + more)
  {
    FailuresJoin(ok, n, next, next');
    if tab.Some? {
      CollapsesMore(tabs, Kept(tabs, ok, n, i), live, i, tab.value);
    }
  }

  // All identifiers recorded in a workspace.
  function AllIds(tabs: seq<SavedTab>): set<PaneId> {
    if tabs == [] then {} else SavedIds(tabs[0].tree) + AllIds(tabs[1..])
  }

  lemma {:induction false} IdsAmongAll(tabs: seq<SavedTab>, i: nat)
    requires i < |tabs|
    ensures SavedIds(tabs[i].tree) <= AllIds(tabs)
  {
    if i > 0 {
      IdsAmongAll(tabs[1..], i - 1);
    }
  }

  ghost predicate Unused(tabs: seq<SavedTab>, i: nat, s: State, bound: nat) {
    forall j :: i <= j < |tabs| ==>
      && SavedIds(tabs[j].tree) !! s.panes.Keys
      && SavedIds(tabs[j].tree) !! Leaves(s.layout)
      && forall p :: p in SavedIds(tabs[j].tree) ==> p < bound
  }

  lemma UnusedStep(tabs: seq<SavedTab>, w: nat, i: nat, tab: Option<Tab>, s: State, s': State, bound: nat, isDir: Path -> bool, home: Path)
    requires i < |tabs| && TabsDistinct(tabs) && bound <= s.minted
    ensures (&& Unused(tabs, i, s, bound)
             && if tab.None? then SameTabs(s, s') else TabAdded(tabs[i].tree, w, tab.value, s, s', isDir, home))
            ==> Unused(tabs, i + 1, s', bound)
  {
    if tab.Some? {
      OneTab(tab.value);
      forall j | i + 1 <= j < |tabs|
        ensures SavedIds(tabs[j].tree) !! SavedIds(tabs[i].tree)
      {
        assert SavedIds(tabs[i].tree) !! SavedIds(tabs[j].tree);
      }
    }
  }

  // The panes of the live tabs were saved with the workspace or are new.
  ghost predicate LeavesFrom(tabs: seq<SavedTab>, live: seq<Tab>, bound: nat) {
    forall p :: p in TabLeaves(live) ==> p in AllIds(tabs) || bound <= p
  }

  lemma LeavesFromMore(tabs: seq<SavedTab>, i: nat, live: seq<Tab>, tab: Tab, bound: nat, bound': nat)
    requires i < |tabs| && LeavesFrom(tabs, live, bound) && IdsFrom(tabs[i].tree, tab.tree, bound') && bound <= bound'
    ensures LeavesFrom(tabs, live + [tab], bound)
  {
    OneTab(tab);
    TabLeavesJoin(live, [tab]);
    IdsAmongAll(tabs, i);
  }

  // The directories of the tabs restored so far.
  ghost predicate TabCwds(tabs: seq<SavedTab>, kept: seq<nat>, live: seq<Tab>, panes: map<PaneId, Path>, isDir: Path -> bool, home: Path) {
    && |kept| == |live|
    && forall m :: 0 <= m < |kept| ==>
         kept[m] < |tabs| && CwdsRestored(tabs[kept[m]].tree, live[m].tree, panes, isDir, home)
  }

  // The same leaf by leaf.
  ghost predicate TabCwdsByPosition(tabs: seq<SavedTab>, kept: seq<nat>, live: seq<Tab>, panes: map<PaneId, Path>,
                                    isDir: Path -> bool, home: Path) {
    && |kept| == |live|
    && forall m :: 0 <= m < |kept| ==>
         kept[m] < |tabs| && CwdsByPosition(tabs[kept[m]].tree, live[m].tree, panes, isDir, home)
  }

  lemma TabsKeepTheirCwds(tabs: seq<SavedTab>, kept: seq<nat>, live: seq<Tab>, panes: map<PaneId, Path>,
                          isDir: Path -> bool, home: Path)
    requires TabCwds(tabs, kept, live, panes, isDir, home)
    ensures TabCwdsByPosition(tabs, kept, live, panes, isDir, home)
  {
    forall m | 0 <= m < |kept|
      ensures CwdsByPosition(tabs[kept[m]].tree, live[m].tree, panes, isDir, home)
    {
      LeavesKeepTheirCwds(tabs[kept[m]].tree, live[m].tree, panes, isDir, home);
    }
  }

  lemma TabCwdsMore(tabs: seq<SavedTab>, w: nat, kept: seq<nat>, live: seq<Tab>, i: nat, tab: Tab, s: State, s': State,
                    isDir: Path -> bool, home: Path)
    requires TabCwds(tabs, kept, live, s.panes, isDir, home) && i < |tabs| && TabAdded(tabs[i].tree, w, tab, s, s', isDir, home)
    ensures TabCwds(tabs, kept + [i], live + [tab], s'.panes, isDir, home)
  {
    var kept', live' := kept + [i], live + [tab];
    forall m | 0 <= m < |kept'|
      ensures CwdsRestored(tabs[kept'[m]].tree, live'[m].tree, s'.panes, isDir, home)
    {
      if m < |kept| {
        CwdsUntouched(tabs[kept[m]].tree, live[m].tree, s.panes, s'.panes, isDir, home);
      }
    }
  }

  // From s0 to s the saved tabs before i have been restored at the end of
  // workspace w, with the shells from n up to `next`, and nothing else changed.
  ghost predicate TabsRestored(tabs: seq<SavedTab>, w: nat, i: nat, live: seq<Tab>, ok: nat -> bool, n: nat, next: nat, warnings: nat,
                               s0: State, s: State, isDir: Path -> bool, home: Path)
    requires i <= |tabs|
  {
    && TabsAppended(w, live, s0, s)
    && LeavesFrom(tabs, live, s0.minted)
    && TabsSoFar(tabs, i, live, ok, n, s0.minted)
    && WarningsSoFar(tabs, i, live, ok, n, next, warnings)
    && TabCwds(tabs, Kept(tabs, ok, n, i), live, s.panes, isDir, home)
  }

  lemma OneMoreTab(tabs: seq<SavedTab>, w: nat, i: nat, live: seq<Tab>, tab: Option<Tab>, ok: nat -> bool, n: nat, next: nat,
                   next': nat, warnings: nat, more: nat, s0: State, s: State, s': State, isDir: Path -> bool, home: Path)
    requires i < |tabs|
    ensures (&& TabsRestored(tabs, w, i, live, ok, n, next, warnings, s0, s, isDir, home)
             && TabOutcome(tabs[i].tree, tab, ok, next, next', more)
             && if tab.None? then SameTabs(s, s') else TabAdded(tabs[i].tree, w, tab.value, s, s', isDir, home))
            ==> TabsRestored(tabs, w, i + 1, Grown(live, tab), ok, n, next', warnings + more, s0, s', isDir, home)
  {
    if && TabsRestored(tabs, w, i, live, ok, n, next, warnings, s0, s, isDir, home)
       && TabOutcome(tabs[i].tree, tab, ok, next, next', more)
       && if tab.None? then SameTabs(s, s') else TabAdded(tabs[i].tree, w, tab.value, s, s', isDir, home) {
      TabsGrow(tabs, i, live, tab, ok, n, s0.minted, s.minted, next', more);
      WarningsGrow(tabs, i, live, tab, ok, n, next, next', warnings, more);
      if tab.Some? {
        AppendedMore(w, live, [tab.value], s0, s, s');
        LeavesFromMore(tabs, i, live, tab.value, s0.minted, s.minted);
        TabCwdsMore(tabs, w, Kept(tabs, ok, n, i), live, i, tab.value, s, s', isDir, home);
      }
    }
  }

  lemma NoTabs(tabs: seq<SavedTab>, w: nat, ok: nat -> bool, n: nat, s: State, isDir: Path -> bool, home: Path)
    requires ProperState(s) && w < |s.layout|
    ensures TabsRestored(tabs, w, 0, [], ok, n, n, 0, s, s, isDir, home)
  {
    assert s.layout[w] + [] == s.layout[w];
  }

  // Rebuilds the saved tabs in order at the end of workspace w.
  method RestoreTabs(sm: SessionManager, w: nat, tabs: seq<SavedTab>) returns (warnings: nat, ghost live: seq<Tab>)
    requires ProperState(sm.Now()) && w < |sm.layout| && TabsDistinct(tabs)
    requires Unused(tabs, 0, sm.Now(), sm.minted)
    modifies sm
    ensures TabsRestored(tabs, w, |tabs|, live, sm.spawnOk, old(sm.spawns), sm.spawns, warnings, old(sm.Now()), sm.Now(), sm.isDir, sm.home)
    ensures TabCwdsByPosition(tabs, Kept(tabs, sm.spawnOk, old(sm.spawns), |tabs|), live, sm.panes, sm.isDir, sm.home)
  {
    warnings, live := 0, [];
    ghost var s0, n := sm.Now(), sm.spawns;
    NoTabs(tabs, w, sm.spawnOk, n, s0, sm.isDir, sm.home);
    for i := 0 to |tabs|
      invariant TabsRestored(tabs, w, i, live, sm.spawnOk, n, sm.spawns, warnings, s0, sm.Now(), sm.isDir, sm.home)
      invariant Unused(tabs, i, sm.Now(), s0.minted)
    {
      warnings, live := RestoreNext(sm, w, tabs, i, warnings, live, n, s0);
    }
    TabsKeepTheirCwds(tabs, Kept(tabs, sm.spawnOk, n, |tabs|), live, sm.panes, sm.isDir, sm.home);
  }

  method RestoreNext(sm: SessionManager, w: nat, tabs: seq<SavedTab>, i: nat, soFar: nat, ghost live: seq<Tab>, ghost n: nat, ghost s0: State)
    returns (warnings: nat, ghost live': seq<Tab>)
    requires i < |tabs| && TabsDistinct(tabs) && Unused(tabs, i, sm.Now(), s0.minted)
    requires TabsRestored(tabs, w, i, live, sm.spawnOk, n, sm.spawns, soFar, s0, sm.Now(), sm.isDir, sm.home)
    modifies sm
    ensures TabsRestored(tabs, w, i + 1, live', sm.spawnOk, n, sm.spawns, warnings, s0, sm.Now(), sm.isDir, sm.home)
    ensures Unused(tabs, i + 1, sm.Now(), s0.minted)
  {
    ghost var s, next := sm.Now(), sm.spawns;
    var more;
    ghost var tab;
    more, tab := RestoreTab(sm, w, tabs[i].tree);
    OneMoreTab(tabs, w, i, live, tab, sm.spawnOk, n, next, sm.spawns, soFar, more, s0, s, sm.Now(), sm.isDir, sm.home);
    UnusedStep(tabs, w, i, tab, s, sm.Now(), s0.minted, sm.isDir, sm.home);
    warnings, live' := soFar + more, Grown(live, tab);
  }

  // With no warning nothing was lost: live tab m is saved tab m, whole.
  lemma NoWarningMeansWhole(tabs: seq<SavedTab>, i: nat, live: seq<Tab>, ok: nat -> bool, n: nat, bound: nat, next: nat, warnings: nat)
    requires i <= |tabs| && TabsSoFar(tabs, i, live, ok, n, bound) && WarningsSoFar(tabs, i, live, ok, n, next, warnings)
    ensures warnings == 0 <==> AllStart(ok, n, next)
    ensures warnings == 0 ==> |live| == i && forall m :: 0 <= m < i ==> Whole(tabs[m].tree, live[m], bound)
  {
    NoFailures(ok, n, next);
    if warnings == 0 {
      forall m | 0 <= m < i
        ensures Whole(tabs[m].tree, live[m], bound)
      {
        WholeAt(tabs, i, live, ok, n, bound, m);
      }
    }
  }

  ghost predicate Whole(saved: Saved, tab: Tab, bound: nat) {
    RestoredTab(saved, tab, bound) && SameShape(saved, tab.tree)
  }

  lemma WholeAt(tabs: seq<SavedTab>, i: nat, live: seq<Tab>, ok: nat -> bool, n: nat, bound: nat, m: nat)
    requires m < i <= |tabs| && TabsSoFar(tabs, i, live, ok, n, bound)
    requires |live| == i && CollapsesIn(tabs, Kept(tabs, ok, n, i), live) == 0
    ensures Kept(tabs, ok, n, i)[m] == m && Whole(tabs[m].tree, live[m], bound)
  {
    var kept := Kept(tabs, ok, n, i);
    AllKept(kept, i, m);
    CollapsesAt(tabs, kept, live, m);
    UncollapsedIsWhole(tabs[kept[m]].tree, live[m], ok, ShellOf(tabs, ok, n, kept[m]), bound);
  }

  lemma UncollapsedIsWhole(saved: Saved, tab: Tab, ok: nat -> bool, first: nat, bound: nat)
    requires FromShells(saved, tab, ok, first, bound) && Collapses(saved, tab.tree) == 0
    ensures Whole(saved, tab, bound)
  {
    NoCollapseMeansSameShape(saved, Leftmost(tab.tree), tab.tree);
  }

  lemma {:induction false} AllKept(kept: seq<nat>, i: nat, m: nat)
    requires |kept| == i && m < i
    requires forall k :: 0 <= k < |kept| ==> kept[k] < i
    requires forall k, l :: 0 <= k < l < |kept| ==> kept[k] < kept[l]
    ensures kept[m] == m
  {
    Below(kept, m);
    Above(kept, i, m);
  }

  lemma {:induction false} Below(kept: seq<nat>, m: nat)
    requires m < |kept| && forall k, l :: 0 <= k < l < |kept| ==> kept[k] < kept[l]
    ensures m <= kept[m]
  {
    if m > 0 {
      Below(kept, m - 1);
    }
  }

  lemma {:induction false} Above(kept: seq<nat>, i: nat, m: nat)
    requires |kept| == i && m < i
    requires forall k :: 0 <= k < |kept| ==> kept[k] < i
    requires forall k, l :: 0 <= k < l < |kept| ==> kept[k] < kept[l]
    ensures kept[m] <= m
    decreases i - m
  {
    if m + 1 < i {
      Above(kept, i, m + 1);
    }
  }

  lemma {:induction false} CollapsesAt(tabs: seq<SavedTab>, kept: seq<nat>, live: seq<Tab>, m: nat)
    requires |kept| == |live| && m < |kept| && forall k :: 0 <= k < |kept| ==> kept[k] < |tabs|
    ensures Collapses(tabs[kept[m]].tree, live[m].tree) <= CollapsesIn(tabs, kept, live)
    decreases |kept|
  {
    var last := |kept| - 1;
    if m < last {
      CollapsesAt(tabs, kept[..last], live[..last], m);
    }
  }

  // ---------------------------------------------------------------------
  // Restoring the focused panes
  // ---------------------------------------------------------------------

  function FocusTarget(tab: SavedTab, live: Tab): seq<(nat, PaneId)> {
    if tab.activePane.None? then []
    else
      var found := LivePaneIdForSaved(tab.tree, live.tree, tab.activePane.value);
      if found.None? then [] else [(live.id, found.value)]
  }

  // The panes to focus for the first n saved tabs: saved tab i is paired with
  // the i-th live tab, if there is one.
  function FocusTargets(tabs: seq<SavedTab>, live: seq<Tab>, n: nat): seq<(nat, PaneId)>
    requires n <= |tabs|
  {
    if n == 0 then []
    else FocusTargets(tabs, live, n - 1) + if n <= |live| then FocusTarget(tabs[n - 1], live[n - 1]) else []
  }

  // Where every saved tab has a focused pane that is found, tab i is focused i-th.
  lemma {:induction false} FocusInOrder(tabs: seq<SavedTab>, live: seq<Tab>, n: nat)
    requires n <= |tabs| && n <= |live|
    requires forall i :: 0 <= i < n ==>
               tabs[i].activePane.Some? && LivePaneIdForSaved(tabs[i].tree, live[i].tree, tabs[i].activePane.value).Some?
    ensures |FocusTargets(tabs, live, n)| == n
    ensures forall i :: 0 <= i < n ==>
              FocusTargets(tabs, live, n)[i] ==
              (live[i].id, LivePaneIdForSaved(tabs[i].tree, live[i].tree, tabs[i].activePane.value).value)
  {
    if n > 0 {
      FocusInOrder(tabs, live, n - 1);
    }
  }

  // The panes to focus, as the restore loop collects them.
  method CollectFocus(tabs: seq<SavedTab>, live: seq<Tab>) returns (targets: seq<(nat, PaneId)>)
    ensures targets == FocusTargets(tabs, live, |tabs|)
  {
    targets := [];
    for i := 0 to |tabs|
      invariant targets == FocusTargets(tabs, live, i)
    {
      if i < |live| && tabs[i].activePane.Some? {
        var found := LivePaneIdForSaved(tabs[i].tree, live[i].tree, tabs[i].activePane.value);
        if found.Some? {
          targets := targets + [(live[i].id, found.value)];
        }
      }
    }
  }

  // Every split above the leaf with the target got its shell, the first split's
  // being shell n.
  predicate Reaches(saved: Saved, ok: nat -> bool, n: nat, target: PaneId)
    decreases saved
  {
    match saved
    case SavedLeaf(_, id) => id == Some(target)
    case SavedSplit(_, _, a, b) =>
      ok(n) && if target in SavedIds(a) then Reaches(a, ok, n + 1, target) else Reaches(b, ok, Spent(a, ok, n + 1), target)
  }

  lemma {:induction false} LookupIsSaved(saved: Saved, live: Live, target: PaneId)
    ensures LivePaneIdForSaved(saved, live, target).Some? ==> target in SavedIds(saved)
    decreases saved
  {
    if saved.SavedSplit? && live.Split? {
      LookupIsSaved(saved.first, live.first, target);
      LookupIsSaved(saved.second, live.second, target);
    }
  }

  // The lookup answers if and only if the shells of all splits above the leaf
  // have started.
  lemma {:induction false} LookupIffReached(saved: Saved, live: Live, ok: nat -> bool, n: nat, target: PaneId)
    requires Stands(saved, live, ok, n) && SavedDistinct(saved)
    ensures LivePaneIdForSaved(saved, live, target).Some? <==> Reaches(saved, ok, n, target)
    decreases saved
  {
    if saved.SavedSplit? && ok(n) {
      LookupIffReached(saved.first, live.first, ok, n + 1, target);
      LookupIffReached(saved.second, live.second, ok, Spent(saved.first, ok, n + 1), target);
      LookupIsSaved(saved.first, live.first, target);
      LookupIsSaved(saved.second, live.second, target);
    }
  }

  // The live tree standing at index i was rebuilt from saved tab j, its splits from
  // shell n on. The lookup for saved tab i then answers with the saved pane if and
  // only if i is j and no split above its leaf has failed; otherwise, when a tab
  // before it was lost, it may well answer with another tab's pane.
  lemma FocusIsRightOnlyInStep(tabs: seq<SavedTab>, i: nat, j: nat, live: Live, ok: nat -> bool, n: nat, bound: nat, target: PaneId)
    requires TabsDistinct(tabs) && i < |tabs| && j < |tabs|
    requires RestoredTree(tabs[j].tree, live) && IdsFrom(tabs[j].tree, live, bound) && Stands(tabs[j].tree, live, ok, n)
    requires target < bound
    ensures LivePaneIdForSaved(tabs[i].tree, live, target) == Some(target) <==>
            i == j && Reaches(tabs[i].tree, ok, n, target)
  {
    var saved := tabs[i].tree;
    if i == j {
      LookupIffReached(saved, live, ok, n, target);
      LookupNeverAnotherPane(saved, live, target);
    } else {
      LookupIsALeaf(saved, live, target);
      LookupIsSaved(saved, live, target);
      assert if i < j then SavedIds(saved) !! SavedIds(tabs[j].tree) else SavedIds(tabs[j].tree) !! SavedIds(saved);
    }
  }

  // All first shells up to tab i have started.
  predicate RootsStarted(tabs: seq<SavedTab>, ok: nat -> bool, n: nat, i: nat)
    requires i < |tabs|
  {
    ok(ShellOf(tabs, ok, n, i)) && (i > 0 ==> RootsStarted(tabs, ok, n, i - 1))
  }

  lemma {:induction false} RootsAreKept(tabs: seq<SavedTab>, ok: nat -> bool, n: nat, i: nat)
    requires i < |tabs|
    ensures RootsStarted(tabs, ok, n, i) <==> forall k :: 0 <= k <= i ==> k in Kept(tabs, ok, n, |tabs|)
  {
    KeptIffStarted(tabs, ok, n, |tabs|, i);
    if i > 0 {
      RootsAreKept(tabs, ok, n, i - 1);
    }
  }

  // Live tab i comes from saved tab i exactly if no tab up to it was lost.
  lemma InStepIffRootsStarted(tabs: seq<SavedTab>, ok: nat -> bool, n: nat, i: nat)
    requires i < |tabs|
    ensures var kept := Kept(tabs, ok, n, |tabs|);
            i < |kept| && kept[i] == i <==> RootsStarted(tabs, ok, n, i)
  {
    var kept := Kept(tabs, ok, n, |tabs|);
    RootsAreKept(tabs, ok, n, i);
    if i < |kept| && kept[i] == i {
      forall k | 0 <= k <= i
        ensures k in kept
      {
        NoneSkipped(kept, i, k);
      }
    } else if RootsStarted(tabs, ok, n, i) {
      AllFirst(kept, i);
    }
  }

  lemma {:induction false} NoneSkipped(kept: seq<nat>, i: nat, k: nat)
    requires i < |kept| && kept[i] == i && k <= i
    requires forall m, l :: 0 <= m < l < |kept| ==> kept[m] < kept[l]
    ensures kept[k] == k
    decreases i - k
  {
    Below(kept, k);
    if k < i {
      NoneSkipped(kept, i, k + 1);
    }
  }

  lemma {:induction false} AllFirst(kept: seq<nat>, i: nat)
    requires forall m, l :: 0 <= m < l < |kept| ==> kept[m] < kept[l]
    requires forall k :: 0 <= k <= i ==> k in kept
    ensures i < |kept| && kept[i] == i
  {
    if i > 0 {
      AllFirst(kept, i - 1);
    }
    assert i in kept;
    var at :| 0 <= at < |kept| && kept[at] == i;
    Below(kept, at);
  }

  // After the tabs have been restored, the pane that the loop finds for saved tab i
  // is the saved one if and only if the first shells of tabs 0 to i have all
  // started and no split above the pane's leaf has failed.
  lemma FocusRightIff(tabs: seq<SavedTab>, live: seq<Tab>, ok: nat -> bool, n: nat, bound: nat, i: nat, target: PaneId)
    requires TabsDistinct(tabs) && TabsSoFar(tabs, |tabs|, live, ok, n, bound) && i < |tabs| && target < bound
    ensures i < |live| && LivePaneIdForSaved(tabs[i].tree, live[i].tree, target) == Some(target) <==>
            RootsStarted(tabs, ok, n, i) && Reaches(tabs[i].tree, ok, ShellOf(tabs, ok, n, i) + 1, target)
  {
    InStepIffRootsStarted(tabs, ok, n, i);
    if i < |live| {
      var j := Kept(tabs, ok, n, |tabs|)[i];
      assert FromShells(tabs[j].tree, live[i], ok, ShellOf(tabs, ok, n, j), bound);
      FocusOfTab(tabs, i, j, live[i], ok, ShellOf(tabs, ok, n, j), bound, target);
    }
  }

  lemma FocusOfTab(tabs: seq<SavedTab>, i: nat, j: nat, tab: Tab, ok: nat -> bool, first: nat, bound: nat, target: PaneId)
    requires TabsDistinct(tabs) && i < |tabs| && j < |tabs| && target < bound
    requires FromShells(tabs[j].tree, tab, ok, first, bound)
    ensures LivePaneIdForSaved(tabs[i].tree, tab.tree, target) == Some(target) <==>
            i == j && Reaches(tabs[i].tree, ok, first + 1, target)
  {
    FocusIsRightOnlyInStep(tabs, i, j, tab.tree, ok, first + 1, bound, target);
  }

  lemma {:induction false} LookupIsALeaf(saved: Saved, live: Live, target: PaneId)
    ensures var r := LivePaneIdForSaved(saved, live, target);
            r.Some? ==> r.value in LeafSet(live)
    decreases saved
  {
    if saved.SavedSplit? && live.Split? {
      LookupIsALeaf(saved.first, live.first, target);
      LookupIsALeaf(saved.second, live.second, target);
    }
  }

  // Two saved tabs with one pane each; the first shell does not start, the
  // second tab moves up, and the lookup for the first tab focuses its pane.
  lemma LostTabShiftsFocus()
    ensures var tabs := [SavedTab(SavedLeaf("/", Some(1)), Some(1)), SavedTab(SavedLeaf("/", Some(2)), Some(2))];
            FocusTargets(tabs, [Tab(9, Leaf(2), None)], 2) == [(9, 2)]
            && LivePaneIdForSaved(tabs[0].tree, Leaf(2), 1) == Some(2)
  {
    var tabs := [SavedTab(SavedLeaf("/", Some(1)), Some(1)), SavedTab(SavedLeaf("/", Some(2)), Some(2))];
    assert FocusTargets(tabs, [Tab(9, Leaf(2), None)], 0) == [];
    assert FocusTargets(tabs, [Tab(9, Leaf(2), None)], 1) == [(9, 2)];
  }
}
