/**
 What holds of every run of the workspace mirror: once the outstanding events
 are read, GTK's list is the daemon's, and the queue of pending moves is
 exactly the moves whose echo is still on its way. This needs that replies to
 creations arrive and that the layout stream loses no event but deletions of
 workspaces that GTK has deleted already. Where the code does not converge, the
 exact condition under which it does is given; what lost events do is in
 LostEvents.
 */
module WorkspaceConvergence {

  import opened Wrappers
  import opened WorkspaceReplica

  // GTK after reading every event in `evs`.
  function DrainAll(g: Gtk, evs: seq<Event>): Gtk
    decreases |evs|
  {
    if evs == [] then g else DrainAll(Handle(g, evs[0]), evs[1..])
  }

  // Every outstanding event is the echo of something GTK has already done.
  predicate Quiet(g: Gtk, evs: seq<Event>)
    decreases |evs|
  {
    var allOwn :=
      if evs == [] then g.pending == []
      else
        match evs[0]
        case Reordered(f, t) =>
          && InBounds(|g.view.order|, (f, t))
          && g.pending != []
          && SamePair(g.pending[0], (f, t))
          && Quiet(g.(pending := g.pending[1..]), evs[1..])
        case Deleted(_, id) => id !in g.view.order && Quiet(g, evs[1..]);
    allOwn
  }

  // The moves among a list of events.
  function Moves(evs: seq<Event>): seq<(nat, nat)>
    decreases |evs|
  {
    if evs == [] then []
    else if evs[0].Reordered? then [(evs[0].fromIdx, evs[0].toIdx)] + Moves(evs[1..])
    else Moves(evs[1..])
  }

  ghost predicate PendingInBounds(g: Gtk, n: int) {
    forall k :: 0 <= k < |g.pending| ==> InBounds(n, g.pending[k])
  }

  ghost predicate NoDeletedPresent(order: seq<WorkspaceId>, evs: seq<Event>) {
    forall k :: 0 <= k < |evs| && evs[k].Deleted? ==> evs[k].id !in order
  }

  ghost predicate Mirrored(pending: seq<(nat, nat)>, moves: seq<(nat, nat)>, n: int) {
    && |pending| == |moves|
    && forall k :: 0 <= k < |pending| ==> SamePair(pending[k], moves[k]) && InBounds(n, pending[k])
  }

  lemma MirroredCons(pending: seq<(nat, nat)>, m: (nat, nat), moves: seq<(nat, nat)>, n: int)
    requires pending != []
    ensures Mirrored(pending, [m] + moves, n) <==>
            SamePair(pending[0], m) && InBounds(n, pending[0]) && Mirrored(pending[1..], moves, n)
  {
    var all := [m] + moves;
    if Mirrored(pending, all, n) {
      forall k | 0 <= k < |pending[1..]|
        ensures SamePair(pending[1..][k], moves[k]) && InBounds(n, pending[1..][k])
      {
        assert SamePair(pending[k + 1], all[k + 1]);
      }
    }
    if SamePair(pending[0], m) && InBounds(n, pending[0]) && Mirrored(pending[1..], moves, n) {
      forall k | 0 <= k < |pending|
        ensures SamePair(pending[k], all[k]) && InBounds(n, pending[k])
      {
        if k > 0 {
          assert SamePair(pending[1..][k - 1], moves[k - 1]);
        }
      }
    }
  }

  // `Quiet` in plain terms: the pending moves are, pair for pair and up to
  // reversal, the moves still to be read, and no deletion still to be read
  // concerns a workspace GTK has.
  lemma {:induction false} QuietMeansMirrored(g: Gtk, evs: seq<Event>)
    ensures Quiet(g, evs) <==>
            Mirrored(g.pending, Moves(evs), |g.view.order|) && NoDeletedPresent(g.view.order, evs)
    decreases |evs|
  {
    if evs != [] {
      var rest := evs[1..];
      assert evs == [evs[0]] + rest;
      assert NoDeletedPresent(g.view.order, evs) <==>
             (evs[0].Deleted? ==> evs[0].id !in g.view.order) && NoDeletedPresent(g.view.order, rest);
      match evs[0]
      case Reordered(f, t) =>
        if g.pending != [] {
          QuietMeansMirrored(g.(pending := g.pending[1..]), rest);
          MirroredCons(g.pending, (f, t), Moves(rest), |g.view.order|);
        }
      case Deleted(_, id) =>
        QuietMeansMirrored(g, rest);
    }
  }

  // ---------------------------------------------------------------------
  // Draining
  // ---------------------------------------------------------------------

  lemma {:induction false} DrainQuiet(g: Gtk, evs: seq<Event>)
    requires Quiet(g, evs)
    ensures DrainAll(g, evs) == g.(pending := [])
    decreases |evs|
  {
    if evs != [] {
      match evs[0]
      case Reordered(f, t) => DrainQuiet(g.(pending := g.pending[1..]), evs[1..]);
      case Deleted(_, id) => DrainQuiet(g, evs[1..]);
    }
  }

  lemma {:induction false} DrainSnoc(g: Gtk, evs: seq<Event>, e: Event)
    ensures DrainAll(g, evs + [e]) == Handle(DrainAll(g, evs), e)
    decreases |evs|
  {
    if evs == [] {
      assert DrainAll(Handle(g, e), []) == Handle(g, e);
    } else {
      assert (evs + [e])[1..] == evs[1..] + [e];
      DrainSnoc(Handle(g, evs[0]), evs[1..], e);
    }
  }

  // Quietness survives a change of list, as long as the pending indices still
  // exist and no workspace awaiting its deletion event comes back.
  lemma {:induction false} QuietTransfer(g: Gtk, h: Gtk, evs: seq<Event>)
    requires Quiet(g, evs) && g.pending == h.pending
    requires PendingInBounds(h, |h.view.order|)
    requires NoDeletedPresent(h.view.order, evs)
    ensures Quiet(h, evs)
  {
    QuietMeansMirrored(g, evs);
    QuietMeansMirrored(h, evs);
  }

  lemma {:induction false} QuietSnocMove(g: Gtk, evs: seq<Event>, f: nat, t: nat)
    requires Quiet(g, evs) && InBounds(|g.view.order|, (f, t))
    ensures Quiet(g.(pending := g.pending + [(f, t)]), evs + [Reordered(f, t)])
    decreases |evs|
  {
    var h := g.(pending := g.pending + [(f, t)]);
    if evs == [] {
      assert h.pending[1..] == [];
    } else {
      assert (evs + [Reordered(f, t)])[1..] == evs[1..] + [Reordered(f, t)];
      match evs[0]
      case Reordered(f0, t0) =>
        QuietSnocMove(g.(pending := g.pending[1..]), evs[1..], f, t);
        assert h.pending[1..] == g.pending[1..] + [(f, t)];
      case Deleted(_, id) => QuietSnocMove(g, evs[1..], f, t);
    }
  }

  lemma {:induction false} QuietSnocDelete(g: Gtk, evs: seq<Event>, i: nat, id: WorkspaceId)
    requires Quiet(g, evs) && id !in g.view.order
    ensures Quiet(g, evs + [Deleted(i, id)])
    decreases |evs|
  {
    if evs != [] {
      assert (evs + [Deleted(i, id)])[1..] == evs[1..] + [Deleted(i, id)];
      match evs[0]
      case Reordered(f0, t0) => QuietSnocDelete(g.(pending := g.pending[1..]), evs[1..], i, id);
      case Deleted(_, _) => QuietSnocDelete(g, evs[1..], i, id);
    }
  }

  lemma HandleAddsNothing(g: Gtk, e: Event, id: WorkspaceId)
    requires id !in g.view.order
    ensures id !in Handle(g, e).view.order
  {
  }

  lemma {:induction false} DrainAddsNothing(g: Gtk, evs: seq<Event>, id: WorkspaceId)
    requires id !in g.view.order
    ensures id !in DrainAll(g, evs).view.order
    decreases |evs|
  {
    if evs != [] {
      HandleAddsNothing(g, evs[0], id);
      DrainAddsNothing(Handle(g, evs[0]), evs[1..], id);
    }
  }

  // ---------------------------------------------------------------------
  // The active workspace follows identity
  // ---------------------------------------------------------------------

  ghost predicate ValidView(v: View) {
    v.active < |v.order| && Distinct(v.order)
  }

  lemma SwapFollowsActive(v: View, i: nat, j: nat)
    requires ValidView(v) && InBounds(|v.order|, (i, j))
    ensures ValidView(SwapView(v, i, j))
    ensures multiset(SwapView(v, i, j).order) == multiset(v.order)
    ensures forall id :: id in SwapView(v, i, j).order <==> id in v.order
    ensures SwapView(v, i, j).order[SwapView(v, i, j).active] == v.order[v.active]
  {
    var w := SwapView(v, i, j);
    forall id
      ensures id in w.order <==> id in v.order
    {
      if id in v.order {
        var k :| 0 <= k < |v.order| && v.order[k] == id;
        assert w.order[Follow(k, i, j)] == id;
      }
      if id in w.order {
        var k :| 0 <= k < |w.order| && w.order[k] == id;
        assert v.order[Follow(k, i, j)] == id;
      }
    }
  }

  lemma RemoveMembers(order: seq<WorkspaceId>, i: nat)
    requires Distinct(order) && i < |order|
    ensures Distinct(RemoveAt(order, i)) && |RemoveAt(order, i)| == |order| - 1
    ensures forall id :: id in RemoveAt(order, i) <==> id in order && id != order[i]
  {
    var rest := RemoveAt(order, i);
    assert forall k :: 0 <= k < |rest| ==> rest[k] == order[if k < i then k else k + 1];
    forall id
      ensures id in rest <==> id in order && id != order[i]
    {
      if id in order && id != order[i] {
        var k :| 0 <= k < |order| && order[k] == id;
        assert rest[if k < i then k else k - 1] == id;
      }
    }
  }

  // Removing the only workspace leaves an index past the end of an empty list.
  lemma RemoveFollowsActive(v: View, i: nat)
    requires ValidView(v) && i < |v.order|
    ensures if |v.order| == 1 then RemoveView(v, i) == View([], 0) else ValidView(RemoveView(v, i))
    ensures forall id :: id in RemoveView(v, i).order <==> id in v.order && id != v.order[i]
    ensures i != v.active ==> RemoveView(v, i).order[RemoveView(v, i).active] == v.order[v.active]
    ensures |v.order| > 1 ==> RemoveViewLocally(v, i) == RemoveView(v, i)
  {
    RemoveMembers(v.order, i);
  }

  lemma InsertKeepsOthers(v: View, at: nat, id: WorkspaceId)
    requires ValidView(v) && at <= |v.order| && id !in v.order
    ensures Distinct(InsertAt(v.order, at, id))
    ensures forall x :: x in InsertAt(v.order, at, id) <==> x in v.order || x == id
    ensures forall k :: 0 <= k < |v.order| ==>
              InsertAt(v.order, at, id)[if k >= at then k + 1 else k] == v.order[k]
  {
    var r := InsertAt(v.order, at, id);
    assert r[at] == id;
    assert forall k :: 0 <= k < |r| ==> r[k] == if k < at then v.order[k] else if k == at then id else v.order[k - 1];
    forall x
      ensures x in r <==> x in v.order || x == id
    {
      if x in v.order {
        var k :| 0 <= k < |v.order| && v.order[k] == x;
        assert r[if k >= at then k + 1 else k] == x;
      }
    }
  }

  // ---------------------------------------------------------------------
  // What draining makes of the list
  // ---------------------------------------------------------------------

  // The moves that GTK applies on reading reorder events: all in range but those
  // that match the head of the queue in their turn.
  function Unmatched(pending: seq<(nat, nat)>, moves: seq<(nat, nat)>, n: nat): (r: seq<(nat, nat)>)
    ensures forall k :: 0 <= k < |r| ==> InBounds(n, r[k])
    decreases |moves|
  {
    if moves == [] then []
    else if !InBounds(n, moves[0]) then Unmatched(pending, moves[1..], n)
    else if pending != [] && SamePair(pending[0], moves[0]) then Unmatched(pending[1..], moves[1..], n)
    else [moves[0]] + Unmatched(pending, moves[1..], n)
  }

  function SwapAll(order: seq<WorkspaceId>, moves: seq<(nat, nat)>): (r: seq<WorkspaceId>)
    requires forall k :: 0 <= k < |moves| ==> InBounds(|order|, moves[k])
    ensures |r| == |order|
    decreases |moves|
  {
    if moves == [] then order
    else
      assert InBounds(|order|, moves[0]);
      SwapAll(Swap(order, moves[0].0, moves[0].1), moves[1..])
  }

  lemma SwapAllCons(order: seq<WorkspaceId>, m: (nat, nat), moves: seq<(nat, nat)>)
    requires InBounds(|order|, m) && forall k :: 0 <= k < |moves| ==> InBounds(|order|, moves[k])
    ensures forall k :: 0 <= k < |[m] + moves| ==> InBounds(|order|, ([m] + moves)[k])
    ensures SwapAll(order, [m] + moves) == SwapAll(Swap(order, m.0, m.1), moves)
  {
    assert ([m] + moves)[1..] == moves;
  }

  lemma {:induction false} DrainExactly(g: Gtk, evs: seq<Event>)
    requires ValidView(g.view) && NoDeletedPresent(g.view.order, evs)
    ensures DrainAll(g, evs).view.order == SwapAll(g.view.order, Unmatched(g.pending, Moves(evs), |g.view.order|))
    decreases |evs|
  {
    if evs != [] {
      assert evs == [evs[0]] + evs[1..];
      match evs[0]
      case Reordered(f, t) =>
        var n := |g.view.order|;
        assert Moves(evs)[0] == (f, t) && Moves(evs)[1..] == Moves(evs[1..]);
        if InBounds(n, (f, t)) {
          SwapFollowsActive(g.view, f, t);
          SwapAllCons(g.view.order, (f, t), Unmatched(g.pending, Moves(evs[1..]), n));
        }
        DrainExactly(Handle(g, evs[0]), evs[1..]);
      case Deleted(_, id) =>
        assert IndexOf(g.view.order, id).None?;
        DrainExactly(g, evs[1..]);
    }
  }

  // ---------------------------------------------------------------------
  // One step
  // ---------------------------------------------------------------------

  // When everything outstanding has been read, the lists agree and nothing is
  // pending; with `activeToo`, the active workspaces agree as well.
  ghost predicate Converging(s: System, activeToo: bool) {
    var g := DrainAll(s.gtk, s.server.outbox);
    var agree :=
      && ValidView(s.gtk.view)
      && ValidView(s.server.view)
      && g.pending == []
      && g.view.order == s.server.view.order
      && (activeToo ==> g.view.active == s.server.view.active);
    agree
  }

  predicate Local(a: Action) {
    !a.OtherMove? && !a.OtherDelete? && !a.Drain? && !a.Miss?
  }

  predicate Fresh(s: System, id: WorkspaceId) {
    && id !in s.gtk.view.order
    && id !in s.server.view.order
    && forall k :: 0 <= k < |s.server.outbox| && s.server.outbox[k].Deleted? ==> s.server.outbox[k].id != id
  }

  // The event that the stream loses, if any, deletes a workspace that GTK has not.
  ghost predicate MissesNothing(s: System, k: nat) {
    k < |s.server.outbox| ==> s.server.outbox[k].Deleted? && s.server.outbox[k].id !in s.gtk.view.order
  }

  // The hypotheses under which an action is allowed. GTK acts only while
  // every outstanding event is an echo of its own; it deletes only if the
  // pending indices survive the shorter list; the reply to a creation is not
  // lost, because no event tells GTK of a creation. The stream loses no event
  // but deletions of workspaces that GTK has deleted already.
  ghost predicate Allowed(s: System, a: Action) {
    && (a.Miss? ==> MissesNothing(s, a.index))
    && (Local(a) ==> Quiet(s.gtk, s.server.outbox))
    && (a.Delete? && a.net == Delivered ==> PendingInBounds(s.gtk, |s.gtk.view.order| - 1))
    && (a.Create? || a.Duplicate? ==> a.net != ReplyLost && Fresh(s, a.id))
  }

  lemma HandleAgrees(g: Gtk, d: View, e: Event, activeToo: bool)
    requires g.pending == [] && g.view.order == d.order && ValidView(d)
    requires activeToo ==> g.view.active == d.active
    ensures e.Reordered? && InBounds(|d.order|, (e.fromIdx, e.toIdx)) ==>
              var h := Handle(g, e);
              var d' := SwapView(d, e.fromIdx, e.toIdx);
              h.pending == [] && h.view.order == d'.order && (activeToo ==> h.view == d')
    ensures e.Deleted? && e.idx < |d.order| && d.order[e.idx] == e.id ==>
              var h := Handle(g, e);
              var d' := RemoveView(d, e.idx);
              h.pending == [] && h.view.order == d'.order && (activeToo ==> h.view == d')
  {
  }

  lemma HandleKeepsValid(s: System)
    requires Converging(s, false) && s.server.outbox != []
    ensures ValidView(Handle(s.gtk, s.server.outbox[0]).view)
  {
    var e := s.server.outbox[0];
    match e
    case Reordered(f, t) =>
      if InBounds(|s.gtk.view.order|, (f, t)) {
        SwapFollowsActive(s.gtk.view, f, t);
      }
    case Deleted(_, id) =>
      if |s.gtk.view.order| > 1 {
        var i := IndexOf(s.gtk.view.order, id);
        if i.Some? {
          RemoveFollowsActive(s.gtk.view, i.value);
        }
      } else {
        EmptyStaysEmpty(Handle(s.gtk, e), s.server.outbox[1..]);
      }
  }

  // No event adds a workspace, so an empty list would stay empty.
  lemma {:induction false} EmptyStaysEmpty(g: Gtk, evs: seq<Event>)
    ensures g.view.order == [] ==> DrainAll(g, evs).view.order == []
    decreases |evs|
  {
    if evs != [] {
      EmptyStaysEmpty(Handle(g, evs[0]), evs[1..]);
    }
  }

  lemma LocalMoveConverges(s: System, i: nat, j: nat, net: Net, activeToo: bool)
    requires Converging(s, activeToo) && Quiet(s.gtk, s.server.outbox) && i != j
    ensures Converging(LocalMove(s, i, j, net), activeToo)
    ensures net != ReplyLost ==>
              var s' := LocalMove(s, i, j, net);
              Quiet(s'.gtk, s'.server.outbox)
  {
    DrainQuiet(s.gtk, s.server.outbox);
    if InBounds(|s.gtk.view.order|, (i, j)) && net != Refused {
      SwapFollowsActive(s.server.view, i, j);
      SwapFollowsActive(s.gtk.view, i, j);
      if net == ReplyLost {
        DrainSnoc(s.gtk, s.server.outbox, Reordered(i, j));
      } else {
        var h := s.gtk.(view := SwapView(s.gtk.view, i, j));
        QuietMeansMirrored(s.gtk, s.server.outbox);
        QuietTransfer(s.gtk, h, s.server.outbox);
        QuietSnocMove(h, s.server.outbox, i, j);
        DrainQuiet(h.(pending := h.pending + [(i, j)]), s.server.outbox + [Reordered(i, j)]);
      }
    }
  }

  lemma LocalDeleteConverges(s: System, i: nat, net: Net, activeToo: bool)
    requires Converging(s, activeToo) && Allowed(s, Delete(i, net))
    ensures Converging(LocalDelete(s, i, net), activeToo)
    ensures net != ReplyLost ==>
              var s' := LocalDelete(s, i, net);
              Quiet(s'.gtk, s'.server.outbox)
  {
    DrainQuiet(s.gtk, s.server.outbox);
    if i < |s.gtk.view.order| && |s.gtk.view.order| > 1 && net != Refused {
      RemoveFollowsActive(s.server.view, i);
      RemoveFollowsActive(s.gtk.view, i);
      if net == ReplyLost {
        DrainSnoc(s.gtk, s.server.outbox, Deleted(i, s.server.view.order[i]));
      } else {
        DeleteBothSides(s, i);
      }
    }
  }

  lemma DeleteBothSides(s: System, i: nat)
    requires Quiet(s.gtk, s.server.outbox) && s.gtk.view.order == s.server.view.order && ValidView(s.gtk.view)
    requires i < |s.gtk.view.order| && |s.gtk.view.order| > 1 && PendingInBounds(s.gtk, |s.gtk.view.order| - 1)
    ensures var s' := LocalDelete(s, i, Delivered);
            && Quiet(s'.gtk, s'.server.outbox)
            && DrainAll(s'.gtk, s'.server.outbox) == Gtk(RemoveView(s.gtk.view, i), [])
  {
    var id := s.server.view.order[i];
    var h := s.gtk.(view := RemoveView(s.gtk.view, i));
    RemoveFollowsActive(s.gtk.view, i);
    QuietDeleted(s.gtk, h, s.server.outbox, i, id);
    DrainQuiet(h, s.server.outbox + [Deleted(i, id)]);
  }

  lemma QuietDeleted(g: Gtk, h: Gtk, evs: seq<Event>, i: nat, id: WorkspaceId)
    requires Quiet(g, evs) && h.pending == g.pending && PendingInBounds(h, |h.view.order|)
    requires id !in h.view.order && forall x :: x in h.view.order ==> x in g.view.order
    ensures Quiet(h, evs + [Deleted(i, id)])
  {
    QuietMeansMirrored(g, evs);
    QuietTransfer(g, h, evs);
    QuietSnocDelete(h, evs, i, id);
  }

  lemma LocalInsertConverges(s: System, s': System, at: nat, id: WorkspaceId)
    requires Converging(s, false) && Quiet(s.gtk, s.server.outbox) && Fresh(s, id)
    requires at <= |s.gtk.view.order| == |s.server.view.order|
    requires s'.gtk.pending == s.gtk.pending && s'.server.outbox == s.server.outbox
    requires s'.gtk.view.order == InsertAt(s.gtk.view.order, at, id)
    requires s'.server.view.order == InsertAt(s.server.view.order, at, id)
    requires s'.gtk.view.active < |s'.gtk.view.order| && s'.server.view.active < |s'.server.view.order|
    ensures Converging(s', false) && Quiet(s'.gtk, s'.server.outbox)
    ensures DrainAll(s'.gtk, s'.server.outbox).view.active == s'.gtk.view.active
  {
    DrainQuiet(s.gtk, s.server.outbox);
    InsertKeepsOthers(s.gtk.view, at, id);
    QuietMeansMirrored(s.gtk, s.server.outbox);
    QuietTransfer(s.gtk, s'.gtk, s.server.outbox);
    DrainQuiet(s'.gtk, s.server.outbox);
  }

  lemma OtherConverges(s: System, a: Action, activeToo: bool)
    requires Converging(s, activeToo) && (a.OtherMove? || a.OtherDelete?)
    ensures Converging(Step(s, a), activeToo)
  {
    var g := DrainAll(s.gtk, s.server.outbox);
    match a
    case OtherMove(f, t) =>
      if InBounds(|s.server.view.order|, (f, t)) && f != t {
        SwapFollowsActive(s.server.view, f, t);
        DrainSnoc(s.gtk, s.server.outbox, Reordered(f, t));
        HandleAgrees(g, s.server.view, Reordered(f, t), activeToo);
      }
    case OtherDelete(i) =>
      if i < |s.server.view.order| && |s.server.view.order| > 1 {
        RemoveFollowsActive(s.server.view, i);
        DrainSnoc(s.gtk, s.server.outbox, Deleted(i, s.server.view.order[i]));
        HandleAgrees(g, s.server.view, Deleted(i, s.server.view.order[i]), activeToo);
      }
  }

  lemma LocalCreationConverges(s: System, a: Action, activeToo: bool)
    requires Converging(s, activeToo) && Allowed(s, a) && (a.Create? || a.Duplicate?)
    ensures Converging(Step(s, a), activeToo && !a.Create?)
    ensures Quiet(Step(s, a).gtk, Step(s, a).server.outbox)
  {
    DrainQuiet(s.gtk, s.server.outbox);
    var s' := Step(s, a);
    if s' != s {
      match a
      case Create(id, net) =>
        assert InsertAt(s.gtk.view.order, |s.gtk.view.order|, id) == s.gtk.view.order + [id];
        LocalInsertConverges(s, s', |s.gtk.view.order|, id);
      case Duplicate(i, id, net) =>
        LocalInsertConverges(s, s', i + 1, id);
    }
  }

  lemma LocalSwitchConverges(s: System, i: nat, activeToo: bool)
    requires Converging(s, activeToo) && Quiet(s.gtk, s.server.outbox)
    ensures Converging(LocalSwitch(s, i), activeToo)
    ensures Quiet(LocalSwitch(s, i).gtk, LocalSwitch(s, i).server.outbox)
  {
    var s' := LocalSwitch(s, i);
    DrainQuiet(s.gtk, s.server.outbox);
    QuietMeansMirrored(s.gtk, s.server.outbox);
    QuietTransfer(s.gtk, s'.gtk, s.server.outbox);
    DrainQuiet(s'.gtk, s.server.outbox);
  }

  lemma {:induction false} QuietWithoutDelete(g: Gtk, evs: seq<Event>, k: nat)
    requires Quiet(g, evs) && k < |evs| && evs[k].Deleted?
    ensures Quiet(g, RemoveAt(evs, k))
    decreases |evs|
  {
    var rest := RemoveAt(evs, k);
    if k == 0 {
      assert rest == evs[1..];
    } else {
      assert rest[1..] == RemoveAt(evs[1..], k - 1);
      QuietWithoutDelete(if evs[0].Reordered? then g.(pending := g.pending[1..]) else g, evs[1..], k - 1);
    }
  }

  // An event that deletes a workspace GTK has not makes no difference.
  lemma {:induction false} DrainWithout(g: Gtk, evs: seq<Event>, k: nat)
    requires k < |evs| && evs[k].Deleted? && evs[k].id !in g.view.order
    ensures DrainAll(g, RemoveAt(evs, k)) == DrainAll(g, evs)
    decreases |evs|
  {
    var rest := RemoveAt(evs, k);
    if k == 0 {
      assert rest == evs[1..];
      assert IndexOf(g.view.order, evs[0].id).None?;
    } else {
      assert rest[0] == evs[0] && rest[1..] == RemoveAt(evs[1..], k - 1);
      HandleAddsNothing(g, evs[0], evs[k].id);
      DrainWithout(Handle(g, evs[0]), evs[1..], k - 1);
    }
  }

  lemma MissConverges(s: System, k: nat, activeToo: bool)
    requires Converging(s, activeToo) && MissesNothing(s, k)
    ensures Converging(Step(s, Miss(k)), activeToo)
    ensures Quiet(s.gtk, s.server.outbox) ==> Quiet(Step(s, Miss(k)).gtk, Step(s, Miss(k)).server.outbox)
  {
    if k < |s.server.outbox| {
      DrainWithout(s.gtk, s.server.outbox, k);
      if Quiet(s.gtk, s.server.outbox) {
        QuietWithoutDelete(s.gtk, s.server.outbox, k);
      }
    }
  }

  // Every allowed action keeps the two sides converging; only a creation may
  // part the active workspaces, for GTK does not report it.
  lemma StepConverges(s: System, a: Action, activeToo: bool)
    requires Converging(s, activeToo) && Allowed(s, a)
    ensures Converging(Step(s, a), activeToo && !a.Create?)
  {
    match a
    case MoveUp(i, net) => if i != 0 { LocalMoveConverges(s, i, i - 1, net, activeToo); }
    case MoveDown(i, net) => LocalMoveConverges(s, i, i + 1, net, activeToo);
    case Delete(i, net) => LocalDeleteConverges(s, i, net, activeToo);
    case Create(id, net) => LocalCreationConverges(s, a, activeToo);
    case Duplicate(i, id, net) => LocalCreationConverges(s, a, activeToo);
    case Switch(i) => LocalSwitchConverges(s, i, activeToo);
    case OtherMove(f, t) => OtherConverges(s, a, activeToo);
    case OtherDelete(i) => OtherConverges(s, a, activeToo);
    case Drain => if s.server.outbox != [] { HandleKeepsValid(s); }
    case Miss(k) => MissConverges(s, k, activeToo);
  }

  // ---------------------------------------------------------------------
  // Every run
  // ---------------------------------------------------------------------

  ghost predicate AllowedRun(s: System, actions: seq<Action>)
    decreases |actions|
  {
    actions == [] || (Allowed(s, actions[0]) && AllowedRun(Step(s, actions[0]), actions[1..]))
  }

  predicate NoCreate(actions: seq<Action>) {
    forall k :: 0 <= k < |actions| ==> !actions[k].Create?
  }

  // Lost replies to moves and deletions and other clients included, reading
  // what is outstanding always brings GTK's list to the daemon's and empties
  // the queue, as long as the stream loses no event that GTK needs.
  lemma {:induction false} RunConverges(s: System, actions: seq<Action>, activeToo: bool)
    requires Converging(s, activeToo) && AllowedRun(s, actions)
    ensures Converging(Run(s, actions), activeToo && NoCreate(actions))
    decreases |actions|
  {
    if actions != [] {
      var a := actions[0];
      StepConverges(s, a, activeToo);
      RunConverges(Step(s, a), actions[1..], activeToo && !a.Create?);
      if NoCreate(actions) {
        assert NoCreate(actions[1..]);
      }
    }
  }

  // Reading the outstanding events one at a time is `DrainAll`.
  lemma {:induction false} DrainRuns(s: System)
    ensures Run(s, seq(|s.server.outbox|, _ => Drain))
            == System(DrainAll(s.gtk, s.server.outbox), s.server.(outbox := []))
    decreases |s.server.outbox|
  {
    var n := |s.server.outbox|;
    if n > 0 {
      var drains: seq<Action> := seq(n, _ => Drain);
      assert drains[1..] == seq(n - 1, _ => Drain);
      DrainRuns(Step(s, Drain));
    }
  }

  // A client alone with its daemon, no reply and no reorder event lost.
  ghost predicate AloneRun(s: System, actions: seq<Action>)
    decreases |actions|
  {
    actions == [] ||
    (var a := actions[0];
     && !a.OtherMove? && !a.OtherDelete?
     && (a.MoveUp? || a.MoveDown? || a.Delete? || a.Create? || a.Duplicate? ==> a.net != ReplyLost)
     && (a.Delete? && a.net == Delivered ==> PendingInBounds(s.gtk, |s.gtk.view.order| - 1))
     && (a.Create? || a.Duplicate? ==> Fresh(s, a.id))
     && (a.Miss? ==> MissesNothing(s, a.index))
     && AloneRun(Step(s, a), actions[1..]))
  }

  lemma StepStaysQuiet(s: System, a: Action)
    requires Converging(s, false) && Quiet(s.gtk, s.server.outbox) && AloneRun(s, [a])
    ensures Converging(Step(s, a), false) && Quiet(Step(s, a).gtk, Step(s, a).server.outbox)
  {
    StepConverges(s, a, false);
    match a
    case MoveUp(i, net) => if i != 0 { LocalMoveConverges(s, i, i - 1, net, false); }
    case MoveDown(i, net) => LocalMoveConverges(s, i, i + 1, net, false);
    case Delete(i, net) => LocalDeleteConverges(s, i, net, false);
    case Create(id, net) => LocalCreationConverges(s, a, false);
    case Duplicate(i, id, net) => LocalCreationConverges(s, a, false);
    case Switch(i) => LocalSwitchConverges(s, i, false);
    case Miss(k) => MissConverges(s, k, false);
    case Drain =>
      if s.server.outbox != [] && s.server.outbox[0].Deleted? {
        assert IndexOf(s.gtk.view.order, s.server.outbox[0].id).None?;
      }
  }

  // Then, at every moment and not only after reading, the lists are equal and
  // the pending moves are exactly the moves whose echo is outstanding.
  lemma {:induction false} AloneRunMirrors(s: System, actions: seq<Action>)
    requires Converging(s, false) && Quiet(s.gtk, s.server.outbox) && AloneRun(s, actions)
    ensures var r := Run(s, actions);
            && ValidView(r.gtk.view)
            && r.gtk.view.order == r.server.view.order
            && Mirrored(r.gtk.pending, Moves(r.server.outbox), |r.gtk.view.order|)
    decreases |actions|
  {
    if actions == [] {
      DrainQuiet(s.gtk, s.server.outbox);
      QuietMeansMirrored(s.gtk, s.server.outbox);
    } else {
      assert AloneRun(Step(s, actions[0]), []);
      StepStaysQuiet(s, actions[0]);
      AloneRunMirrors(Step(s, actions[0]), actions[1..]);
    }
  }

  // GTK fetches the layout (`v`) and opens the event stream afterwards, when the
  // daemon has `d`. That is a good starting point if and only if nothing has
  // changed in between.
  lemma StartConvergesIffUnchanged(v: View, d: View)
    requires ValidView(v) && ValidView(d)
    ensures Converging(System(Gtk(v, []), Server(d, [])), true) <==> v == d
    ensures Quiet(Gtk(v, []), [])
  {
  }

  // ---------------------------------------------------------------------
  // Where the code does not converge, and exactly when it does
  // ---------------------------------------------------------------------

  predicate Disjoint(p: (nat, nat), q: (nat, nat)) {
    p.0 != q.0 && p.0 != q.1 && p.1 != q.0 && p.1 != q.1
  }

  // Entries queued behind those of a quiet state are left over.
  lemma {:induction false} DrainQuietPrefix(g: Gtk, evs: seq<Event>, extra: seq<(nat, nat)>)
    requires Quiet(g, evs)
    ensures DrainAll(g.(pending := g.pending + extra), evs) == g.(pending := extra)
    decreases |evs|
  {
    if evs == [] {
      assert g.pending + extra == extra;
    } else {
      match evs[0]
      case Reordered(f, t) =>
        assert (g.pending + extra)[1..] == g.pending[1..] + extra;
        DrainQuietPrefix(g.(pending := g.pending[1..]), evs[1..], extra);
      case Deleted(_, id) => DrainQuietPrefix(g, evs[1..], extra);
    }
  }

  // A quiet state stays quiet when GTK exchanges two workspaces.
  lemma QuietSwapped(g: Gtk, evs: seq<Event>, i: nat, j: nat)
    requires Quiet(g, evs) && ValidView(g.view) && InBounds(|g.view.order|, (i, j))
    ensures Quiet(g.(view := SwapView(g.view, i, j)), evs)
  {
    SwapFollowsActive(g.view, i, j);
    QuietMeansMirrored(g, evs);
    QuietTransfer(g, g.(view := SwapView(g.view, i, j)), evs);
  }

  lemma SwapTwice(order: seq<WorkspaceId>, x: (nat, nat), m: (nat, nat))
    requires Distinct(order) && InBounds(|order|, x) && InBounds(|order|, m) && x.0 != x.1 && m.0 != m.1
    ensures Swap(Swap(order, m.0, m.1), m.0, m.1) == order != Swap(order, m.0, m.1)
    ensures SamePair(x, m) ==> Swap(order, x.0, x.1) == Swap(order, m.0, m.1)
    ensures Swap(Swap(order, m.0, m.1), x.0, x.1) == Swap(Swap(order, x.0, x.1), m.0, m.1)
            <==> SamePair(x, m) || Disjoint(x, m)
  {
    var once := Swap(order, m.0, m.1);
    assert once[m.0] != order[m.0];
    assert Swap(once, m.0, m.1) == order;
    var a, b := Swap(once, x.0, x.1), Swap(Swap(order, x.0, x.1), m.0, m.1);
    if SamePair(x, m) || Disjoint(x, m) {
      assert a == b;
    } else {
      var shared := if x.0 == m.0 || x.0 == m.1 then x.0 else x.1;
      assert a[shared] != b[shared];
    }
  }

  // A reply is lost, so the daemon alone makes the move x; before its event is
  // read, GTK makes the move m. Once everything is read the lists agree if and
  // only if m is the same exchange as x or touches neither of its rows.
  lemma MoveOverLostReply(s: System, x: (nat, nat), m: (nat, nat))
    requires Converging(s, false) && Quiet(s.gtk, s.server.outbox)
    requires InBounds(|s.gtk.view.order|, x) && InBounds(|s.gtk.view.order|, m)
    requires x.0 != x.1 && m.0 != m.1
    ensures var s2 := LocalMove(LocalMove(s, x.0, x.1, ReplyLost), m.0, m.1, Delivered);
            DrainAll(s2.gtk, s2.server.outbox).view.order == s2.server.view.order <==>
            SamePair(x, m) || Disjoint(x, m)
  {
    var evs := s.server.outbox;
    var s2 := LocalMove(LocalMove(s, x.0, x.1, ReplyLost), m.0, m.1, Delivered);
    DrainQuiet(s.gtk, evs);
    SwapTwice(s.gtk.view.order, x, m);
    MoveBothSides(s, x, m);
    QuietSwapped(s.gtk, evs, m.0, m.1);
    DrainMoves(s.gtk.(view := SwapView(s.gtk.view, m.0, m.1)), evs, x, m);
  }

  lemma MoveBothSides(s: System, x: (nat, nat), m: (nat, nat))
    requires |s.gtk.view.order| == |s.server.view.order|
    requires InBounds(|s.gtk.view.order|, x) && InBounds(|s.gtk.view.order|, m) && x.0 != x.1 && m.0 != m.1
    ensures var s2 := LocalMove(LocalMove(s, x.0, x.1, ReplyLost), m.0, m.1, Delivered);
            && s2.gtk == Gtk(SwapView(s.gtk.view, m.0, m.1), s.gtk.pending + [m])
            && s2.server.outbox == s.server.outbox + [Reordered(x.0, x.1)] + [Reordered(m.0, m.1)]
            && s2.server.view.order == Swap(Swap(s.server.view.order, x.0, x.1), m.0, m.1)
  {
  }

  lemma DrainMoves(h: Gtk, evs: seq<Event>, x: (nat, nat), m: (nat, nat))
    requires Quiet(h, evs) && InBounds(|h.view.order|, x) && InBounds(|h.view.order|, m)
    ensures DrainAll(h.(pending := h.pending + [m]), evs + [Reordered(x.0, x.1)] + [Reordered(m.0, m.1)]).view.order
         == Swap(h.view.order, x.0, x.1)
  {
    var g := h.(pending := h.pending + [m]);
    DrainQuietPrefix(h, evs, [m]);
    DrainSnoc(g, evs, Reordered(x.0, x.1));
    DrainSnoc(g, evs + [Reordered(x.0, x.1)], Reordered(m.0, m.1));
    assert SamePair(m, x) ==> Swap(h.view.order, x.0, x.1) == Swap(h.view.order, m.0, m.1);
  }

  lemma LostReplyDiverges()
    ensures var v := View([7, 8, 9], 0);
            var s := Step(Step(System(Gtk(v, []), Server(v, [])), MoveUp(1, ReplyLost)), MoveDown(1, Delivered));
            var r := Step(Step(s, Drain), Drain);
            r.server.outbox == [] && r.gtk.view.order == [9, 7, 8] && r.server.view.order == [8, 9, 7]
  {
    var v := View([7, 8, 9], 0);
    var s := Step(Step(System(Gtk(v, []), Server(v, [])), MoveUp(1, ReplyLost)), MoveDown(1, Delivered));
    assert s.gtk.view.order == [7, 9, 8] && s.server.view.order == [8, 9, 7];
    assert Step(s, Drain).gtk.view.order == [9, 7, 8];
  }

  // ---------------------------------------------------------------------
  // Deleting in the echo window
  // ---------------------------------------------------------------------

  // A pending move whose index is past the end stays at the head for ever: the
  // bounds check returns before the queue is looked at.
  lemma {:induction false} StrandedHeadStays(g: Gtk, evs: seq<Event>)
    requires g.pending != [] && !InBounds(|g.view.order|, g.pending[0])
    ensures DrainAll(g, evs).pending == g.pending
    decreases |evs|
  {
    if evs != [] {
      StrandedHeadStays(Handle(g, evs[0]), evs[1..]);
    }
  }

  lemma {:induction false} StrandedInside(g: Gtk, h: Gtk, evs: seq<Event>)
    requires Quiet(g, evs) && h.pending == g.pending && |h.view.order| <= |g.view.order|
    requires NoDeletedPresent(h.view.order, evs)
    requires !PendingInBounds(h, |h.view.order|)
    ensures DrainAll(h, evs).pending != []
    decreases |evs|
  {
    if !InBounds(|h.view.order|, h.pending[0]) {
      StrandedHeadStays(h, evs);
    } else {
      assert evs == [evs[0]] + evs[1..];
      match evs[0]
      case Reordered(f, t) =>
        var h' := h.(pending := h.pending[1..]);
        var k :| 0 <= k < |h.pending| && !InBounds(|h.view.order|, h.pending[k]);
        assert h'.pending[k - 1] == h.pending[k];
        StrandedInside(g.(pending := g.pending[1..]), h', evs[1..]);
      case Deleted(_, id) =>
        StrandedInside(g, h, evs[1..]);
    }
  }

  // GTK deletes a workspace while echoes of its own moves are outstanding. The
  // queue drains if and only if every pending index exists in the shorter list.
  lemma DeleteInEchoWindow(s: System, i: nat)
    requires Converging(s, false) && Quiet(s.gtk, s.server.outbox)
    requires i < |s.gtk.view.order| && |s.gtk.view.order| > 1
    ensures var s' := LocalDelete(s, i, Delivered);
            DrainAll(s'.gtk, s'.server.outbox).pending == [] <==>
            PendingInBounds(s.gtk, |s.gtk.view.order| - 1)
  {
    if PendingInBounds(s.gtk, |s.gtk.view.order| - 1) {
      LocalDeleteConverges(s, i, Delivered, false);
    } else {
      DrainQuiet(s.gtk, s.server.outbox);
      var s' := LocalDelete(s, i, Delivered);
      RemoveFollowsActive(s.gtk.view, i);
      QuietMeansMirrored(s.gtk, s.server.outbox);
      StrandedInside(s.gtk, s'.gtk, s.server.outbox);
      DrainSnoc(s'.gtk, s.server.outbox, Deleted(i, s.server.view.order[i]));
    }
  }

  // After such a delete GTK ends with the daemon's list and the unmatched moves
  // made on top of it, so the lists agree if and only if those cancel out.
  lemma DeleteInEchoWindowLists(s: System, i: nat)
    requires Converging(s, false) && Quiet(s.gtk, s.server.outbox)
    requires i < |s.gtk.view.order| && |s.gtk.view.order| > 1
    ensures var s' := LocalDelete(s, i, Delivered);
            var extra := Unmatched(s.gtk.pending, Moves(s.server.outbox), |s.gtk.view.order| - 1);
            && |s'.server.view.order| == |s.gtk.view.order| - 1
            && DrainAll(s'.gtk, s'.server.outbox).view.order == SwapAll(s'.server.view.order, extra)
  {
    DrainQuiet(s.gtk, s.server.outbox);
    var s' := LocalDelete(s, i, Delivered);
    RemoveFollowsActive(s.gtk.view, i);
    QuietMeansMirrored(s.gtk, s.server.outbox);
    DrainExactly(s'.gtk, s.server.outbox);
    var id := s.server.view.order[i];
    DrainSnoc(s'.gtk, s.server.outbox, Deleted(i, id));
    DrainAddsNothing(s'.gtk, s.server.outbox, id);
    assert IndexOf(DrainAll(s'.gtk, s.server.outbox).view.order, id).None?;
  }

  // ... and a stranded head makes GTK apply its own next move twice.
  lemma StrandedHeadAppliesTwice()
    ensures var v := View([7, 8, 9], 0);
            var s1 := Step(System(Gtk(v, []), Server(v, [])), MoveDown(1, Delivered));
            var s2 := Step(s1, Delete(2, Delivered));
            var s3 := Step(Step(s2, Drain), Drain);
            var s4 := Step(Step(s3, MoveUp(1, Delivered)), Drain);
            && s4.server.outbox == [] && s4.gtk.pending == [(1, 2), (1, 0)]
            && s4.gtk.view.order == [7, 9] && s4.server.view.order == [9, 7]
  {
    var v := View([7, 8, 9], 0);
    var s1 := Step(System(Gtk(v, []), Server(v, [])), MoveDown(1, Delivered));
    assert s1.gtk.view.order == [7, 9, 8];
    var s2 := Step(s1, Delete(2, Delivered));
    assert s2.gtk.view.order == [7, 9] && s2.server.outbox == [Reordered(1, 2), Deleted(2, 8)];
    var s3 := Step(Step(s2, Drain), Drain);
    assert s3 == System(Gtk(View([7, 9], 0), [(1, 2)]), Server(View([7, 9], 0), []));
    MoveBehindStrandedHead();
  }

  lemma MoveBehindStrandedHead()
    ensures var s := System(Gtk(View([7, 9], 0), [(1, 2)]), Server(View([7, 9], 0), []));
            var s' := Step(Step(s, MoveUp(1, Delivered)), Drain);
            && s'.server.outbox == [] && s'.gtk.pending == [(1, 2), (1, 0)]
            && s'.gtk.view.order == [7, 9] && s'.server.view.order == [9, 7]
  {
    var s := System(Gtk(View([7, 9], 0), [(1, 2)]), Server(View([7, 9], 0), []));
    assert Step(s, MoveUp(1, Delivered)).server.outbox == [Reordered(1, 0)];
  }

  // Creation parts the active workspaces: GTK moves to the new one and does
  // not say so.
  lemma CreateLeavesActiveBehind(s: System, id: WorkspaceId)
    requires Converging(s, true) && Quiet(s.gtk, s.server.outbox) && Fresh(s, id)
    ensures var s' := LocalCreate(s, id, Delivered);
            s'.gtk.view.active != s'.server.view.active
  {
    DrainQuiet(s.gtk, s.server.outbox);
  }
}
