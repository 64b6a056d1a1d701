/**
 Cold start as a whole: the restore loop over all saved workspaces, which uses
 up the shells one after the other, and what saving afterwards writes.
 */
module ColdStart {

  import opened Wrappers
  import opened Sequences
  import opened SessionLayout
  import opened SplitRestore

  // A saved session: for each workspace its saved tabs.
  type Workspaces = seq<seq<SavedTab>>

  ghost predicate WorkspacesDistinct(saved: Workspaces) {
    && (forall v :: 0 <= v < |saved| ==> TabsDistinct(saved[v]))
    && (forall v, u :: 0 <= v < u < |saved| ==> AllIds(saved[v]) !! AllIds(saved[u]))
  }

  // ---------------------------------------------------------------------
  // One workspace
  // ---------------------------------------------------------------------

  // The number of the next shell after a workspace whose first shell is n; one
  // saved without tabs asks for a shell too.
  function WorkspaceSpent(tabs: seq<SavedTab>, ok: nat -> bool, n: nat): (next: nat)
    ensures n <= next
  {
    if tabs == [] then n + 1 else ShellOf(tabs, ok, n, |tabs|)
  }

  // What stands in the place of the saved tabs: those whose first shell started,
  // or one new pane if there were none and its shell starts.
  ghost predicate StandsFor(tabs: seq<SavedTab>, live: seq<Tab>, ok: nat -> bool, n: nat, bound: nat) {
    if tabs != [] then TabsSoFar(tabs, |tabs|, live, ok, n, bound) && OneWarningEach(tabs, live, ok, n)
    else if ok(n) then |live| == 1 && SeedTab(live[0], bound)
    else live == []
  }

  ghost predicate OneWarningEach(tabs: seq<SavedTab>, live: seq<Tab>, ok: nat -> bool, n: nat) {
    var next := ShellOf(tabs, ok, n, |tabs|);
    WarningsSoFar(tabs, |tabs|, live, ok, n, next, Failures(ok, n, next))
  }

  predicate SeedTab(tab: Tab, bound: nat) {
    tab.tree.Leaf? && bound <= tab.tree.pane && tab.activePane == None
  }

  // The directories in which the panes of one workspace are registered; a seeded
  // pane has the home directory.
  ghost predicate CwdsIn(tabs: seq<SavedTab>, live: seq<Tab>, ok: nat -> bool, n: nat, panes: map<PaneId, Path>,
                         isDir: Path -> bool, home: Path) {
    if tabs != [] then TabCwds(tabs, Kept(tabs, ok, n, |tabs|), live, panes, isDir, home)
    else live != [] ==> live[0].tree.Leaf? && live[0].tree.pane in panes && panes[live[0].tree.pane] == home
  }

  // A workspace ends up without tabs if and only if every tab saved with it lost
  // its first shell, or it was saved without tabs and the shell for its new pane
  // does not start. One saved with tabs gets no new pane, even if all are lost.
  lemma EmptyIffNoneStarted(tabs: seq<SavedTab>, live: seq<Tab>, ok: nat -> bool, n: nat, bound: nat)
    requires StandsFor(tabs, live, ok, n, bound)
    ensures live == [] <==>
            if tabs == [] then !ok(n) else forall i :: 0 <= i < |tabs| ==> !ok(ShellOf(tabs, ok, n, i))
  {
    if tabs != [] {
      var kept := Kept(tabs, ok, n, |tabs|);
      forall i | 0 <= i < |tabs|
        ensures i in kept <==> ok(ShellOf(tabs, ok, n, i))
      {
        KeptIffStarted(tabs, ok, n, |tabs|, i);
      }
      if live == [] {
        assert kept == [];
      } else {
        assert kept[0] in kept && ok(ShellOf(tabs, ok, n, kept[0]));
      }
    }
  }

  // From s to s' the workspace w has been restored and nothing else has changed.
  ghost predicate WorkspaceRestored(tabs: seq<SavedTab>, w: nat, live: seq<Tab>, ok: nat -> bool, n: nat, next: nat, warnings: nat,
                                    s: State, s': State, isDir: Path -> bool, home: Path) {
    && TabsAppended(w, live, s, s')
    && LeavesFrom(tabs, live, s.minted)
    && StandsFor(tabs, live, ok, n, s.minted)
    && CwdsIn(tabs, live, ok, n, s'.panes, isDir, home)
    && next == WorkspaceSpent(tabs, ok, n) && warnings == Failures(ok, n, next)
  }

  // The identifiers recorded in the workspaces from i on are free.
  ghost predicate Free(saved: Workspaces, i: nat, s: State, bound: nat) {
    forall v :: i <= v < |saved| ==>
      && AllIds(saved[v]) !! s.panes.Keys
      && AllIds(saved[v]) !! Leaves(s.layout)
      && forall p :: p in AllIds(saved[v]) ==> p < bound
  }

  lemma FreeMeansUnused(saved: Workspaces, i: nat, s: State, bound: nat)
    requires i < |saved| && Free(saved, i, s, bound) && bound <= s.minted
    ensures Unused(saved[i], 0, s, s.minted)
  {
    forall j | 0 <= j < |saved[i]|
      ensures SavedIds(saved[i][j].tree) <= AllIds(saved[i])
    {
      IdsAmongAll(saved[i], j);
    }
  }

  // A workspace saved without tabs gets a new pane.
  method SeedWorkspace(sm: SessionManager, w: nat) returns (warnings: nat, ghost live: seq<Tab>)
    requires ProperState(sm.Now()) && w < |sm.layout|
    modifies sm
    ensures WorkspaceRestored([], w, live, sm.spawnOk, old(sm.spawns), sm.spawns, warnings, old(sm.Now()), sm.Now(), sm.isDir, sm.home)
  {
    ghost var s := sm.Now();
    var id := sm.NewId();
    ghost var tab := Tab(sm.minted, Leaf(id), None);
    AppendTabProper(sm.layout, w, tab);
    OneTab(tab);
    var r := sm.CreateTabWithPaneId(w, None, id);
    assert s.layout[w] + [] == s.layout[w];
    warnings, live := if r.Ok? then 0 else 1, if r.Ok? then [tab] else [];
  }

  method RestoreWorkspace(sm: SessionManager, w: nat, tabs: seq<SavedTab>) returns (warnings: nat, ghost live: seq<Tab>)
    requires ProperState(sm.Now()) && w < |sm.layout| && TabsDistinct(tabs)
    requires Unused(tabs, 0, sm.Now(), sm.minted)
    modifies sm
    ensures WorkspaceRestored(tabs, w, live, sm.spawnOk, old(sm.spawns), sm.spawns, warnings, old(sm.Now()), sm.Now(), sm.isDir, sm.home)
  {
    if tabs == [] {
      warnings, live := SeedWorkspace(sm, w);
    } else {
      warnings, live := RestoreTabs(sm, w, tabs);
    }
  }
  // ---------------------------------------------------------------------
  // All workspaces
  // ---------------------------------------------------------------------

  // The shell that workspace i begins with.
  function FirstShell(saved: Workspaces, ok: nat -> bool, n: nat, i: nat): (k: nat)
    requires i <= |saved|
    ensures n <= k
  {
    if i == 0 then n else WorkspaceSpent(saved[i - 1], ok, FirstShell(saved, ok, n, i - 1))
  }

  // The tabs of the first workspaces have been appended, their panes have been
  // registered, and nothing else has changed.
  ghost predicate Appended(lives: Layout, s0: State, s: State) {
    && ProperState(s) && s0.minted <= s.minted
    && |lives| <= |s0.layout| == |s.layout|
    && (forall v :: 0 <= v < |s.layout| ==> s.layout[v] == if v < |lives| then s0.layout[v] + lives[v] else s0.layout[v])
    && s.panes.Keys == s0.panes.Keys + Leaves(lives)
    && (forall p :: p in s0.panes ==> s.panes[p] == s0.panes[p])
  }

  // Each of the first workspaces is what its own shells made of it.
  ghost predicate EachStands(saved: Workspaces, lives: Layout, ok: nat -> bool, n: nat, bound: nat)
    requires |lives| <= |saved|
  {
    forall v {:trigger lives[v]} :: 0 <= v < |lives| ==> StandsFor(saved[v], lives[v], ok, FirstShell(saved, ok, n, v), bound)
  }

  ghost predicate EachCwds(saved: Workspaces, lives: Layout, ok: nat -> bool, n: nat, panes: map<PaneId, Path>,
                           isDir: Path -> bool, home: Path)
    requires |lives| <= |saved|
  {
    forall v {:trigger lives[v]} :: 0 <= v < |lives| ==> CwdsIn(saved[v], lives[v], ok, FirstShell(saved, ok, n, v), panes, isDir, home)
  }

  // From s0 to s the first workspaces have been restored.
  ghost predicate AllRestored(saved: Workspaces, lives: Layout, ok: nat -> bool, n: nat, next: nat, warnings: nat,
                              s0: State, s: State, isDir: Path -> bool, home: Path) {
    && Appended(lives, s0, s)
    && |lives| <= |saved|
    && EachStands(saved, lives, ok, n, s0.minted)
    && EachCwds(saved, lives, ok, n, s.panes, isDir, home)
    && next == FirstShell(saved, ok, n, |lives|) && warnings == Failures(ok, n, next)
  }

  lemma {:induction false} LeavesMore(lives: Layout, live: seq<Tab>)
    ensures Leaves(lives + [live]) == Leaves(lives) + TabLeaves(live)
  {
    if lives == [] {
      assert [live][1..] == [];
    } else {
      HeadAndTail(lives, [live]);
      LeavesMore(lives[1..], live);
    }
  }

  lemma AppendedNext(lives: Layout, live: seq<Tab>, s0: State, s: State, s': State)
    requires Appended(lives, s0, s) && |lives| < |s.layout| && TabsAppended(|lives|, live, s, s')
    ensures Appended(lives + [live], s0, s')
  {
    LeavesMore(lives, live);
  }

  lemma StandsBelow(tabs: seq<SavedTab>, live: seq<Tab>, ok: nat -> bool, n: nat, bound: nat, bound': nat)
    requires StandsFor(tabs, live, ok, n, bound') && bound <= bound'
    ensures StandsFor(tabs, live, ok, n, bound)
  {
    if tabs != [] {
      var kept := Kept(tabs, ok, n, |tabs|);
      forall m | 0 <= m < |kept|
        ensures FromShells(tabs[kept[m]].tree, live[m], ok, ShellOf(tabs, ok, n, kept[m]), bound)
      {
        UnnamedFreshBelow(tabs[kept[m]].tree, live[m].tree, bound', bound);
      }
    }
  }

  lemma CwdsStay(tabs: seq<SavedTab>, live: seq<Tab>, ok: nat -> bool, n: nat, before: map<PaneId, Path>, after: map<PaneId, Path>,
                 isDir: Path -> bool, home: Path)
    requires CwdsIn(tabs, live, ok, n, before, isDir, home)
    requires forall p :: p in before ==> p in after && after[p] == before[p]
    ensures CwdsIn(tabs, live, ok, n, after, isDir, home)
  {
    if tabs != [] {
      var kept := Kept(tabs, ok, n, |tabs|);
      forall m | 0 <= m < |kept|
        ensures CwdsRestored(tabs[kept[m]].tree, live[m].tree, after, isDir, home)
      {
        CwdsUntouched(tabs[kept[m]].tree, live[m].tree, before, after, isDir, home);
      }
    }
  }

  lemma StandsNext(saved: Workspaces, lives: Layout, live: seq<Tab>, ok: nat -> bool, n: nat, bound: nat, bound': nat)
    requires |lives| < |saved| && bound <= bound'
    requires EachStands(saved, lives, ok, n, bound)
    requires StandsFor(saved[|lives|], live, ok, FirstShell(saved, ok, n, |lives|), bound')
    ensures EachStands(saved, lives + [live], ok, n, bound)
  {
    StandsBelow(saved[|lives|], live, ok, FirstShell(saved, ok, n, |lives|), bound, bound');
  }

  lemma CwdsNext(saved: Workspaces, lives: Layout, live: seq<Tab>, ok: nat -> bool, n: nat,
                 before: map<PaneId, Path>, after: map<PaneId, Path>, isDir: Path -> bool, home: Path)
    requires |lives| < |saved| && EachCwds(saved, lives, ok, n, before, isDir, home)
    requires CwdsIn(saved[|lives|], live, ok, FirstShell(saved, ok, n, |lives|), after, isDir, home)
    requires forall p :: p in before ==> p in after && after[p] == before[p]
    ensures EachCwds(saved, lives + [live], ok, n, after, isDir, home)
  {
    forall v {:trigger lives[v]} | 0 <= v < |lives|
      ensures CwdsIn(saved[v], lives[v], ok, FirstShell(saved, ok, n, v), after, isDir, home)
    {
      CwdsStay(saved[v], lives[v], ok, FirstShell(saved, ok, n, v), before, after, isDir, home);
    }
  }

  lemma AllRestoredNext(saved: Workspaces, lives: Layout, live: seq<Tab>, ok: nat -> bool, n: nat, next: nat, next': nat,
                        warnings: nat, more: nat, s0: State, s: State, s': State, isDir: Path -> bool, home: Path)
    requires |lives| < |saved| <= |s0.layout|
    ensures (&& AllRestored(saved, lives, ok, n, next, warnings, s0, s, isDir, home)
             && WorkspaceRestored(saved[|lives|], |lives|, live, ok, next, next', more, s, s', isDir, home))
            ==> AllRestored(saved, lives + [live], ok, n, next', warnings + more, s0, s', isDir, home)
  {
    if && AllRestored(saved, lives, ok, n, next, warnings, s0, s, isDir, home)
       && WorkspaceRestored(saved[|lives|], |lives|, live, ok, next, next', more, s, s', isDir, home) {
      AppendedNext(lives, live, s0, s, s');
      StandsNext(saved, lives, live, ok, n, s0.minted, s.minted);
      CwdsNext(saved, lives, live, ok, n, s.panes, s'.panes, isDir, home);
      FailuresJoin(ok, n, next, next');
    }
  }

  lemma FreeNext(saved: Workspaces, i: nat, live: seq<Tab>, ok: nat -> bool, n: nat, next: nat, warnings: nat,
                 s: State, s': State, bound: nat, isDir: Path -> bool, home: Path)
    requires i < |saved| && WorkspacesDistinct(saved) && bound <= s.minted
    ensures Free(saved, i, s, bound) && WorkspaceRestored(saved[i], i, live, ok, n, next, warnings, s, s', isDir, home)
            ==> Free(saved, i + 1, s', bound)
  {
    if Free(saved, i, s, bound) && WorkspaceRestored(saved[i], i, live, ok, n, next, warnings, s, s', isDir, home) {
      forall v | i + 1 <= v < |saved|
        ensures AllIds(saved[v]) !! TabLeaves(live)
      {
        assert AllIds(saved[i]) !! AllIds(saved[v]);
      }
    }
  }

  // Every live leaf of every restored tab, and every seeded pane, is registered in
  // the directory it should have.
  ghost predicate EveryCwd(saved: Workspaces, lives: Layout, ok: nat -> bool, n: nat, panes: map<PaneId, Path>,
                           isDir: Path -> bool, home: Path)
    requires |lives| <= |saved|
  {
    forall v {:trigger lives[v]} :: 0 <= v < |lives| ==>
      LeafCwdsIn(saved[v], lives[v], ok, FirstShell(saved, ok, n, v), panes, isDir, home)
  }

  ghost predicate LeafCwdsIn(tabs: seq<SavedTab>, live: seq<Tab>, ok: nat -> bool, n: nat, panes: map<PaneId, Path>,
                             isDir: Path -> bool, home: Path) {
    if tabs != [] then TabCwdsByPosition(tabs, Kept(tabs, ok, n, |tabs|), live, panes, isDir, home)
    else live != [] ==> live[0].tree.Leaf? && live[0].tree.pane in panes && panes[live[0].tree.pane] == home
  }

  lemma AllKeepTheirCwds(saved: Workspaces, lives: Layout, ok: nat -> bool, n: nat, panes: map<PaneId, Path>,
                         isDir: Path -> bool, home: Path)
    requires |lives| <= |saved| && EachCwds(saved, lives, ok, n, panes, isDir, home)
    ensures EveryCwd(saved, lives, ok, n, panes, isDir, home)
  {
    forall v {:trigger lives[v]} | 0 <= v < |lives|
      ensures LeafCwdsIn(saved[v], lives[v], ok, FirstShell(saved, ok, n, v), panes, isDir, home)
    {
      var first := FirstShell(saved, ok, n, v);
      assert CwdsIn(saved[v], lives[v], ok, first, panes, isDir, home);
      if saved[v] != [] {
        TabsKeepTheirCwds(saved[v], Kept(saved[v], ok, first, |saved[v]|), lives[v], panes, isDir, home);
      }
    }
  }

  // Restores the saved workspaces in order, each into the live one of its index.
  method RestoreWorkspaces(sm: SessionManager, saved: Workspaces) returns (warnings: nat, ghost lives: Layout)
    requires ProperState(sm.Now()) && |saved| <= |sm.layout| && WorkspacesDistinct(saved)
    requires Free(saved, 0, sm.Now(), sm.minted)
    modifies sm
    ensures |lives| == |saved|
    ensures AllRestored(saved, lives, sm.spawnOk, old(sm.spawns), sm.spawns, warnings, old(sm.Now()), sm.Now(), sm.isDir, sm.home)
    ensures EveryCwd(saved, lives, sm.spawnOk, old(sm.spawns), sm.panes, sm.isDir, sm.home)
  {
    warnings, lives := 0, [];
    ghost var s0, n := sm.Now(), sm.spawns;
    for i := 0 to |saved|
      invariant |lives| == i && s0.minted <= sm.minted
      invariant AllRestored(saved, lives, sm.spawnOk, n, sm.spawns, warnings, s0, sm.Now(), sm.isDir, sm.home)
      invariant Free(saved, i, sm.Now(), s0.minted)
    {
      warnings, lives := RestoreNextWorkspace(sm, saved, i, warnings, lives, n, s0);
    }
    AllKeepTheirCwds(saved, lives, sm.spawnOk, n, sm.panes, sm.isDir, sm.home);
  }

  method RestoreNextWorkspace(sm: SessionManager, saved: Workspaces, i: nat, soFar: nat, ghost lives: Layout, ghost n: nat, ghost s0: State)
    returns (warnings: nat, ghost lives': Layout)
    requires i == |lives| < |saved| <= |s0.layout| && WorkspacesDistinct(saved)
    requires s0.minted <= sm.minted && Free(saved, i, sm.Now(), s0.minted)
    requires AllRestored(saved, lives, sm.spawnOk, n, sm.spawns, soFar, s0, sm.Now(), sm.isDir, sm.home)
    modifies sm
    ensures |lives'| == i + 1 && s0.minted <= sm.minted && Free(saved, i + 1, sm.Now(), s0.minted)
    ensures AllRestored(saved, lives', sm.spawnOk, n, sm.spawns, warnings, s0, sm.Now(), sm.isDir, sm.home)
  {
    ghost var s, next := sm.Now(), sm.spawns;
    FreeMeansUnused(saved, i, s, s0.minted);
    var more;
    ghost var live;
    more, live := RestoreWorkspace(sm, i, saved[i]);
    AllRestoredNext(saved, lives, live, sm.spawnOk, n, next, sm.spawns, soFar, more, s0, s, sm.Now(), sm.isDir, sm.home);
    FreeNext(saved, i, live, sm.spawnOk, next, sm.spawns, more, s, sm.Now(), s0.minted, sm.isDir, sm.home);
    warnings, lives' := soFar + more, lives + [live];
  }

  // ---------------------------------------------------------------------
  // When every shell starts
  // ---------------------------------------------------------------------

  lemma {:induction false} ShellsInOrder(saved: Workspaces, ok: nat -> bool, n: nat, i: nat, j: nat)
    requires i <= j <= |saved|
    ensures FirstShell(saved, ok, n, i) <= FirstShell(saved, ok, n, j)
  {
    if i < j {
      ShellsInOrder(saved, ok, n, i, j - 1);
    }
  }

  lemma WorkspaceWhole(saved: Workspaces, lives: Layout, ok: nat -> bool, n: nat, bound: nat, v: nat)
    requires v < |lives| <= |saved| && EachStands(saved, lives, ok, n, bound)
    requires AllStart(ok, n, FirstShell(saved, ok, n, |lives|)) && saved[v] != []
    ensures |lives[v]| == |saved[v]| && forall m :: 0 <= m < |saved[v]| ==> Whole(saved[v][m].tree, lives[v][m], bound)
  {
    var first := FirstShell(saved, ok, n, v);
    var next := FirstShell(saved, ok, n, v + 1);
    ShellsInOrder(saved, ok, n, v + 1, |lives|);
    assert StandsFor(saved[v], lives[v], ok, first, bound);
    NoFailures(ok, first, next);
    NoWarningMeansWhole(saved[v], |saved[v]|, lives[v], ok, first, bound, next, Failures(ok, first, next));
  }

  // Restoring without a warning means that every shell has started, and then
  // nothing is lost: tab m of workspace v is whole, in its place.
  lemma NoWarningNothingLost(saved: Workspaces, lives: Layout, ok: nat -> bool, n: nat, next: nat, warnings: nat,
                             s0: State, s: State, isDir: Path -> bool, home: Path)
    requires |lives| == |saved| && AllRestored(saved, lives, ok, n, next, warnings, s0, s, isDir, home)
    ensures warnings == 0 <==> AllStart(ok, n, next)
    ensures warnings == 0 ==>
              forall v, m :: 0 <= v < |saved| && 0 <= m < |saved[v]| ==>
                |lives[v]| == |saved[v]| && Whole(saved[v][m].tree, lives[v][m], s0.minted)
  {
    NoFailures(ok, n, next);
    if warnings == 0 {
      forall v, m | 0 <= v < |saved| && 0 <= m < |saved[v]|
        ensures |lives[v]| == |saved[v]| && Whole(saved[v][m].tree, lives[v][m], s0.minted)
      {
        WorkspaceWhole(saved, lives, ok, n, s0.minted, v);
      }
    }
  }

  // Every leaf has an identifier and its directory is still there, and no
  // workspace was saved without tabs.
  ghost predicate Complete(saved: Workspaces, isDir: Path -> bool) {
    forall v :: 0 <= v < |saved| ==>
      saved[v] != [] && forall m :: 0 <= m < |saved[v]| ==> FullyRecorded(saved[v][m].tree, isDir)
  }

  lemma WholeTabRoundTrip(tabs: seq<SavedTab>, live: seq<Tab>, ok: nat -> bool, n: nat, bound: nat, panes: map<PaneId, Path>,
                          isDir: Path -> bool, home: Path, m: nat)
    requires m < |tabs| == |live| && StandsFor(tabs, live, ok, n, bound) && CwdsIn(tabs, live, ok, n, panes, isDir, home)
    requires Whole(tabs[m].tree, live[m], bound) && FullyRecorded(tabs[m].tree, isDir)
    ensures Snapshot(live[m].tree, panes, home) == tabs[m].tree
  {
    AllKept(Kept(tabs, ok, n, |tabs|), |tabs|, m);
    NoCollapseMeansSameShape(tabs[m].tree, Leftmost(live[m].tree), live[m].tree);
    SaveAfterRestore(tabs[m].tree, live[m].tree, panes, isDir, home);
  }

  lemma WorkspaceRoundTrip(saved: Workspaces, lives: Layout, ok: nat -> bool, n: nat, next: nat, s0: State, s: State,
                           isDir: Path -> bool, home: Path, v: nat)
    requires v < |lives| == |saved| == |s0.layout| && AllRestored(saved, lives, ok, n, next, 0, s0, s, isDir, home)
    requires saved[v] != [] && s0.layout[v] == []
    requires forall m :: 0 <= m < |saved[v]| ==> FullyRecorded(saved[v][m].tree, isDir)
    ensures |s.layout| == |saved| && |s.layout[v]| == |saved[v]|
    ensures forall m :: 0 <= m < |saved[v]| ==> Snapshot(s.layout[v][m].tree, s.panes, home) == saved[v][m].tree
  {
    NoFailures(ok, n, next);
    WorkspaceWhole(saved, lives, ok, n, s0.minted, v);
    assert s.layout[v] == [] + lives[v] == lives[v];
    var first := FirstShell(saved, ok, n, v);
    assert StandsFor(saved[v], lives[v], ok, first, s0.minted) && CwdsIn(saved[v], lives[v], ok, first, s.panes, isDir, home);
    forall m | 0 <= m < |saved[v]|
      ensures Snapshot(lives[v][m].tree, s.panes, home) == saved[v][m].tree
    {
      WholeTabRoundTrip(saved[v], lives[v], ok, first, s0.minted, s.panes, isDir, home, m);
    }
  }

  // A daemon that starts from a complete session without a warning and saves
  // again writes a tab's tree as it has read it, if and only if no shell of the
  // tab has left its directory.
  lemma ColdStartRoundTrip(saved: Workspaces, lives: Layout, ok: nat -> bool, n: nat, next: nat, s0: State, s: State,
                           isDir: Path -> bool, home: Path, proc: PaneId -> Option<Path>)
    requires |lives| == |saved| == |s0.layout| && AllRestored(saved, lives, ok, n, next, 0, s0, s, isDir, home)
    requires Complete(saved, isDir) && forall v :: 0 <= v < |s0.layout| ==> s0.layout[v] == []
    ensures |s.layout| == |saved|
    ensures forall v :: 0 <= v < |saved| ==> |s.layout[v]| == |saved[v]|
    ensures forall v, m :: 0 <= v < |saved| && 0 <= m < |saved[v]| ==>
              (Snapshot(s.layout[v][m].tree, Refreshed(s.panes, proc), home) == saved[v][m].tree <==>
               StillThere(s.layout[v][m].tree, s.panes, proc))
  {
    forall v | 0 <= v < |saved|
      ensures |s.layout[v]| == |saved[v]|
      ensures forall m :: 0 <= m < |saved[v]| ==> Snapshot(s.layout[v][m].tree, s.panes, home) == saved[v][m].tree
    {
      WorkspaceRoundTrip(saved, lives, ok, n, next, s0, s, isDir, home, v);
    }
    forall v, m | 0 <= v < |saved| && 0 <= m < |saved[v]|
      ensures Snapshot(s.layout[v][m].tree, Refreshed(s.panes, proc), home) == saved[v][m].tree <==>
              StillThere(s.layout[v][m].tree, s.panes, proc)
    {
      RefreshChangesNothingIff(s.layout[v][m].tree, s.panes, proc, home);
    }
  }
}
