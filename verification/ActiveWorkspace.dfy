/**
 The active workspace over every run: whatever replies and events are lost and
 whatever other clients do, the active index stays in range until GTK's list is
 emptied, and the active workspace is the same until one of a few actions
 replaces it.
 */
module ActiveWorkspace {

  import opened Wrappers
  import opened WorkspaceReplica
  import opened WorkspaceConvergence

  // GTK's view is valid, or its list is empty.
  ghost predicate Good(s: System) {
    (ValidView(s.gtk.view) || s.gtk.view == View([], 0)) && ValidView(s.server.view)
  }

  // New workspaces get identifiers that neither side has.
  predicate NewId(s: System, a: Action) {
    a.Create? || a.Duplicate? ==> a.id !in s.gtk.view.order && a.id !in s.server.view.order
  }

  // Nothing else is asked of a run.
  ghost predicate AnyRun(s: System, actions: seq<Action>)
    decreases |actions|
  {
    actions == [] || (NewId(s, actions[0]) && AnyRun(Step(s, actions[0]), actions[1..]))
  }

  // GTK reads the deletion of the only workspace it has.
  predicate Empties(s: System, a: Action) {
    && a.Drain? && s.server.outbox != []
    && s.server.outbox[0].Deleted? && s.gtk.view.order == [s.server.outbox[0].id]
  }

  // ---------------------------------------------------------------------
  // The index stays in range
  // ---------------------------------------------------------------------

  lemma ServerMoveValid(d: Server, i: nat, j: nat)
    requires ValidView(d.view)
    ensures ValidView(ServerMove(d, i, j).0.view)
  {
    if InBounds(|d.view.order|, (i, j)) {
      SwapFollowsActive(d.view, i, j);
    }
  }

  lemma ServerDeleteValid(d: Server, i: nat)
    requires ValidView(d.view)
    ensures ValidView(ServerDelete(d, i).0.view)
  {
    if i < |d.view.order| {
      RemoveFollowsActive(d.view, i);
    }
  }

  lemma ServerCreateValid(d: Server, id: WorkspaceId)
    requires ValidView(d.view) && id !in d.view.order
    ensures ValidView(ServerCreate(d, id).view)
  {
  }

  lemma ServerDuplicateValid(d: Server, i: nat, id: WorkspaceId)
    requires ValidView(d.view) && id !in d.view.order
    ensures ValidView(ServerDuplicate(d, i, id).0.view)
  {
    if i < |d.view.order| {
      InsertKeepsOthers(d.view, i + 1, id);
    }
  }

  lemma DaemonStaysValid(s: System, a: Action)
    requires ValidView(s.server.view) && NewId(s, a)
    ensures ValidView(Step(s, a).server.view)
  {
    match a
    case MoveUp(i, _) => if i > 0 { ServerMoveValid(s.server, i, i - 1); }
    case MoveDown(i, _) => ServerMoveValid(s.server, i, i + 1);
    case OtherMove(f, t) => ServerMoveValid(s.server, f, t);
    case Delete(i, _) => ServerDeleteValid(s.server, i);
    case OtherDelete(i) => ServerDeleteValid(s.server, i);
    case Create(id, _) => ServerCreateValid(s.server, id);
    case Duplicate(i, id, _) => ServerDuplicateValid(s.server, i, id);
    case _ =>
  }

  lemma HandleStaysGood(g: Gtk, e: Event)
    requires ValidView(g.view) || g.view == View([], 0)
    ensures ValidView(Handle(g, e).view) || Handle(g, e).view == View([], 0)
    ensures g.view.order != [] ==>
              (Handle(g, e).view.order == [] <==> e.Deleted? && g.view.order == [e.id])
  {
    match e
    case Reordered(f, t) =>
      if InBounds(|g.view.order|, (f, t)) {
        SwapFollowsActive(g.view, f, t);
      }
    case Deleted(_, id) =>
      var i := IndexOf(g.view.order, id);
      if i.Some? {
        RemoveFollowsActive(g.view, i.value);
      }
  }

  lemma LocalMoveGood(s: System, i: nat, j: nat, net: Net)
    requires ValidView(s.gtk.view) || s.gtk.view == View([], 0)
    ensures var v := LocalMove(s, i, j, net).gtk.view;
            (ValidView(v) || v == View([], 0)) && |v.order| == |s.gtk.view.order|
  {
    if InBounds(|s.gtk.view.order|, (i, j)) {
      SwapFollowsActive(s.gtk.view, i, j);
    }
  }

  lemma LocalDeleteGood(s: System, i: nat, net: Net)
    requires ValidView(s.gtk.view) || s.gtk.view == View([], 0)
    ensures var v := LocalDelete(s, i, net).gtk.view;
            (ValidView(v) || v == View([], 0)) && (v.order == [] <==> s.gtk.view.order == [])
  {
    if i < |s.gtk.view.order| && |s.gtk.view.order| > 1 {
      RemoveFollowsActive(s.gtk.view, i);
    }
  }

  lemma LocalDuplicateGood(s: System, i: nat, id: WorkspaceId, net: Net)
    requires ValidView(s.gtk.view) || s.gtk.view == View([], 0)
    requires id !in s.gtk.view.order
    ensures var v := LocalDuplicate(s, i, id, net).gtk.view;
            (ValidView(v) || v == View([], 0)) && (v.order == [] <==> s.gtk.view.order == [])
  {
    if i < |s.gtk.view.order| {
      InsertKeepsOthers(s.gtk.view, i + 1, id);
    }
  }

  lemma GtkStaysGood(s: System, a: Action)
    requires ValidView(s.gtk.view) || s.gtk.view == View([], 0)
    requires NewId(s, a)
    ensures ValidView(Step(s, a).gtk.view) || Step(s, a).gtk.view == View([], 0)
    ensures s.gtk.view.order != [] ==> (Step(s, a).gtk.view.order == [] <==> Empties(s, a))
  {
    match a
    case MoveUp(i, net) => if i > 0 { LocalMoveGood(s, i, i - 1, net); }
    case MoveDown(i, net) => LocalMoveGood(s, i, i + 1, net);
    case Delete(i, net) => LocalDeleteGood(s, i, net);
    case Duplicate(i, id, net) => LocalDuplicateGood(s, i, id, net);
    case Drain => if s.server.outbox != [] { HandleStaysGood(s.gtk, s.server.outbox[0]); }
    case _ =>
  }

  // One action empties GTK's list if and only if it reads the deletion of the
  // only workspace there; short of that the active index stays in range.
  lemma StepStaysGood(s: System, a: Action)
    requires Good(s) && NewId(s, a)
    ensures Good(Step(s, a))
    ensures s.gtk.view.order != [] ==> (Step(s, a).gtk.view.order == [] <==> Empties(s, a))
  {
    DaemonStaysValid(s, a);
    GtkStaysGood(s, a);
  }

  lemma {:induction false} RunStaysGood(s: System, actions: seq<Action>)
    requires Good(s) && AnyRun(s, actions)
    ensures Good(Run(s, actions))
    decreases |actions|
  {
    if actions != [] {
      StepStaysGood(s, actions[0]);
      RunStaysGood(Step(s, actions[0]), actions[1..]);
    }
  }

  // Some action of the run empties GTK's list.
  predicate EmptiesSomewhere(s: System, actions: seq<Action>)
    decreases |actions|
  {
    actions != [] && (Empties(s, actions[0]) || EmptiesSomewhere(Step(s, actions[0]), actions[1..]))
  }

  // The active index is in range at every moment of the run.
  ghost predicate AlwaysInRange(s: System, actions: seq<Action>)
    decreases |actions|
  {
    && s.gtk.view.active < |s.gtk.view.order|
    && (actions == [] || AlwaysInRange(Step(s, actions[0]), actions[1..]))
  }

  // From a list that is not empty, over every run.
  lemma {:induction false} InRangeUnlessEmptied(s: System, actions: seq<Action>)
    requires Good(s) && s.gtk.view.order != [] && AnyRun(s, actions)
    ensures AlwaysInRange(s, actions) <==> !EmptiesSomewhere(s, actions)
    decreases |actions|
  {
    if actions != [] {
      var s' := Step(s, actions[0]);
      StepStaysGood(s, actions[0]);
      if s'.gtk.view.order != [] {
        InRangeUnlessEmptied(s', actions[1..]);
      }
    }
  }

  // Another client deletes GTK's only workspace, the daemon having another that
  // GTK was not told of.
  lemma LostCreationEmptiesList()
    ensures var s := System(Gtk(View([7], 0), []), Server(View([7], 0), []));
            var r := Step(Step(Step(s, Create(8, ReplyLost)), OtherDelete(0)), Drain);
            r.gtk.view == View([], 0) && r.server == Server(View([8], 0), [])
  {
    var s := System(Gtk(View([7], 0), []), Server(View([7], 0), []));
    var s1 := Step(s, Create(8, ReplyLost));
    assert s1.server == Server(View([7, 8], 0), []);
    var s2 := Step(s1, OtherDelete(0));
    assert s2.server == Server(View([8], 0), [Deleted(0, 7)]);
    assert IndexOf([7], 7) == Some(0);
  }

  // With a single client, one lost reply is enough: the lists are in different
  // orders afterwards, so each deletion takes two workspaces out of GTK's. Every
  // event is delivered, and all are read before each deletion.
  lemma LostReplyEmptiesList()
    ensures var s := System(Gtk(View([7, 8, 9, 10], 0), []), Server(View([7, 8, 9, 10], 0), []));
            var s1 := Step(Step(Step(Step(s, MoveUp(1, ReplyLost)), MoveDown(1, Delivered)), Drain), Drain);
            var s2 := Step(Step(s1, Delete(0, Delivered)), Drain);
            var r := Step(Step(s2, Delete(1, Delivered)), Drain);
            r == System(Gtk(View([], 0), []), Server(View([9, 10], r.server.view.active), []))
  {
    var s := System(Gtk(View([7, 8, 9, 10], 0), []), Server(View([7, 8, 9, 10], 0), []));
    var s1 := Step(Step(Step(Step(s, MoveUp(1, ReplyLost)), MoveDown(1, Delivered)), Drain), Drain);
    OrdersPart(s);
    DeletionTakesTwo(s1);
    LastDeletion(Step(Step(s1, Delete(0, Delivered)), Drain));
  }

  lemma OrdersPart(s: System)
    requires s == System(Gtk(View([7, 8, 9, 10], 0), []), Server(View([7, 8, 9, 10], 0), []))
    ensures var s1 := Step(Step(Step(Step(s, MoveUp(1, ReplyLost)), MoveDown(1, Delivered)), Drain), Drain);
            s1 == System(Gtk(View([9, 7, 8, 10], 1), []), Server(View([8, 9, 7, 10], 2), []))
  {
    var a := Step(s, MoveUp(1, ReplyLost));
    assert a.server == Server(View([8, 7, 9, 10], 1), [Reordered(1, 0)]);
    var b := Step(a, MoveDown(1, Delivered));
    assert b.gtk == Gtk(View([7, 9, 8, 10], 0), [(1, 2)]);
    assert b.server == Server(View([8, 9, 7, 10], 2), [Reordered(1, 0), Reordered(1, 2)]);
    var c := Step(b, Drain);
    assert c.gtk == Gtk(View([9, 7, 8, 10], 1), [(1, 2)]);
  }

  lemma DeletionTakesTwo(s1: System)
    requires s1 == System(Gtk(View([9, 7, 8, 10], 1), []), Server(View([8, 9, 7, 10], 2), []))
    ensures var s2 := Step(Step(s1, Delete(0, Delivered)), Drain);
            s2 == System(Gtk(View([7, 10], 0), []), Server(View([9, 7, 10], 1), []))
  {
    var a := Step(s1, Delete(0, Delivered));
    assert a.gtk.view == View([7, 8, 10], 0);
    assert a.server == Server(View([9, 7, 10], 1), [Deleted(0, 8)]);
    assert IndexOf(a.gtk.view.order, 8) == Some(1) by {
      assert a.gtk.view.order[1..] == [8, 10];
    }
  }

  lemma LastDeletion(s2: System)
    requires s2 == System(Gtk(View([7, 10], 0), []), Server(View([9, 7, 10], 1), []))
    ensures var r := Step(Step(s2, Delete(1, Delivered)), Drain);
            r == System(Gtk(View([], 0), []), Server(View([9, 10], r.server.view.active), []))
  {
    var a := Step(s2, Delete(1, Delivered));
    assert a.gtk.view == View([7], 0);
    assert a.server.view.order == [9, 10] && a.server.outbox == [Deleted(1, 7)];
    assert IndexOf([7], 7) == Some(0);
  }

  // ---------------------------------------------------------------------
  // The same workspace stays active
  // ---------------------------------------------------------------------

  function ActiveId(v: View): Option<WorkspaceId> {
    if v.active < |v.order| then Some(v.order[v.active]) else None
  }

  // GTK switches, creates or duplicates, deletes the active workspace, or reads
  // that it has been deleted.
  predicate ReplacesActive(s: System, a: Action) {
    var v, d := s.gtk.view, s.server.view;
    match a
    case Switch(i) => i < |v.order| && i != v.active
    case Create(_, net) => net == Delivered
    case Duplicate(i, _, net) => net == Delivered && i < |v.order| && i < |d.order|
    case Delete(i, net) =>
      net == Delivered && i == v.active && i < |v.order| && |v.order| > 1 && i < |d.order| && |d.order| > 1
    case Drain => s.server.outbox != [] && s.server.outbox[0].Deleted? && ActiveId(v) == Some(s.server.outbox[0].id)
    case _ => false
  }

  lemma HandleActive(g: Gtk, e: Event)
    requires ValidView(g.view) || g.view == View([], 0)
    ensures ActiveId(Handle(g, e).view) == ActiveId(g.view) <==> !(e.Deleted? && ActiveId(g.view) == Some(e.id))
  {
    match e
    case Reordered(f, t) =>
      if InBounds(|g.view.order|, (f, t)) {
        SwapFollowsActive(g.view, f, t);
      }
    case Deleted(_, id) =>
      var i := IndexOf(g.view.order, id);
      if i.Some? {
        RemoveFollowsActive(g.view, i.value);
      }
  }

  lemma LocalMoveActive(s: System, i: nat, j: nat, net: Net)
    requires ValidView(s.gtk.view) || s.gtk.view == View([], 0)
    ensures ActiveId(LocalMove(s, i, j, net).gtk.view) == ActiveId(s.gtk.view)
  {
    if InBounds(|s.gtk.view.order|, (i, j)) {
      SwapFollowsActive(s.gtk.view, i, j);
    }
  }

  lemma LocalDeleteActive(s: System, i: nat, net: Net)
    requires ValidView(s.gtk.view) || s.gtk.view == View([], 0)
    ensures ActiveId(LocalDelete(s, i, net).gtk.view) == ActiveId(s.gtk.view) <==> !ReplacesActive(s, Delete(i, net))
  {
    if i < |s.gtk.view.order| && |s.gtk.view.order| > 1 {
      RemoveFollowsActive(s.gtk.view, i);
    }
  }

  lemma LocalDuplicateActive(s: System, i: nat, id: WorkspaceId, net: Net)
    requires ValidView(s.gtk.view) || s.gtk.view == View([], 0)
    requires id !in s.gtk.view.order
    ensures ActiveId(LocalDuplicate(s, i, id, net).gtk.view) == ActiveId(s.gtk.view)
            <==> !ReplacesActive(s, Duplicate(i, id, net))
  {
    if i < |s.gtk.view.order| {
      InsertKeepsOthers(s.gtk.view, i + 1, id);
    }
  }

  // An action keeps GTK's active workspace if and only if it is none of those:
  // moves of any rows, deletions of others and all that other clients do keep it.
  lemma ActiveKeptIff(s: System, a: Action)
    requires Good(s) && NewId(s, a)
    ensures ActiveId(Step(s, a).gtk.view) == ActiveId(s.gtk.view) <==> !ReplacesActive(s, a)
  {
    match a
    case MoveUp(i, net) => if i > 0 { LocalMoveActive(s, i, i - 1, net); }
    case MoveDown(i, net) => LocalMoveActive(s, i, i + 1, net);
    case Delete(i, net) => LocalDeleteActive(s, i, net);
    case Duplicate(i, id, net) => LocalDuplicateActive(s, i, id, net);
    case Drain => if s.server.outbox != [] { HandleActive(s.gtk, s.server.outbox[0]); }
    case _ =>
  }

  predicate NeverReplaced(s: System, actions: seq<Action>)
    decreases |actions|
  {
    actions == [] || (!ReplacesActive(s, actions[0]) && NeverReplaced(Step(s, actions[0]), actions[1..]))
  }

  lemma {:induction false} ActiveKeptOverRun(s: System, actions: seq<Action>)
    requires Good(s) && AnyRun(s, actions) && NeverReplaced(s, actions)
    ensures ActiveId(Run(s, actions).gtk.view) == ActiveId(s.gtk.view)
    decreases |actions|
  {
    if actions != [] {
      ActiveKeptIff(s, actions[0]);
      StepStaysGood(s, actions[0]);
      ActiveKeptOverRun(Step(s, actions[0]), actions[1..]);
    }
  }
}
