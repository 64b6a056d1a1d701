/**
 Events that the layout stream loses, and replies that do not come: which of
 them GTK can do without, and what becomes of the lists after the others.
 */
module LostEvents {

  import opened ActiveWorkspace
  import opened Parity
  import opened Wrappers
  import opened WorkspaceConvergence
  import opened WorkspaceReplica

  // ---------------------------------------------------------------------
  // What is outstanding in every run
  // ---------------------------------------------------------------------

  ghost predicate DeletedOnce(evs: seq<Event>) {
    forall i, j :: 0 <= i < j < |evs| && evs[i].Deleted? && evs[j].Deleted? ==> evs[i].id != evs[j].id
  }

  ghost predicate ProperEvents(evs: seq<Event>) {
    forall k :: 0 <= k < |evs| && evs[k].Reordered? ==> evs[k].fromIdx != evs[k].toIdx
  }

  // Outstanding deletions are of different workspaces that the daemon no longer
  // has, and outstanding moves are of two rows.
  ghost predicate Orderly(d: Server) {
    ValidView(d.view) && NoDeletedPresent(d.view.order, d.outbox) && DeletedOnce(d.outbox) && ProperEvents(d.outbox)
  }

  ghost predicate FreshRun(s: System, actions: seq<Action>)
    decreases |actions|
  {
    actions == [] ||
    (var a := actions[0];
     (a.Create? || a.Duplicate? ==> Fresh(s, a.id)) && FreshRun(Step(s, a), actions[1..]))
  }

  lemma ServerMoveOrderly(d: Server, i: nat, j: nat)
    requires Orderly(d)
    ensures Orderly(ServerMove(d, i, j).0)
  {
    if InBounds(|d.view.order|, (i, j)) {
      SwapFollowsActive(d.view, i, j);
    }
  }

  lemma ServerDeleteOrderly(d: Server, i: nat)
    requires Orderly(d)
    ensures Orderly(ServerDelete(d, i).0)
  {
    if i < |d.view.order| && |d.view.order| > 1 {
      RemoveFollowsActive(d.view, i);
      var id, evs := d.view.order[i], d.outbox;
      assert forall k :: 0 <= k < |evs| && evs[k].Deleted? ==> evs[k].id != id;
    }
  }

  lemma ServerCreateOrderly(d: Server, id: WorkspaceId)
    requires Orderly(d) && id !in d.view.order
    requires forall k :: 0 <= k < |d.outbox| && d.outbox[k].Deleted? ==> d.outbox[k].id != id
    ensures Orderly(ServerCreate(d, id))
  {
  }

  lemma ServerDuplicateOrderly(d: Server, i: nat, id: WorkspaceId)
    requires Orderly(d) && id !in d.view.order
    requires forall k :: 0 <= k < |d.outbox| && d.outbox[k].Deleted? ==> d.outbox[k].id != id
    ensures Orderly(ServerDuplicate(d, i, id).0)
  {
    if i < |d.view.order| {
      InsertKeepsOthers(d.view, i + 1, id);
    }
  }

  lemma FewerEventsOrderly(d: Server, k: nat)
    requires Orderly(d) && k < |d.outbox|
    ensures Orderly(d.(outbox := RemoveAt(d.outbox, k)))
  {
    var evs := d.outbox;
    var rest := RemoveAt(evs, k);
    assert forall i :: 0 <= i < |rest| ==> rest[i] == evs[if i < k then i else i + 1];
  }

  lemma StepOrderly(s: System, a: Action)
    requires Orderly(s.server) && (a.Create? || a.Duplicate? ==> Fresh(s, a.id))
    ensures Orderly(Step(s, a).server)
  {
    match a
    case MoveUp(i, _) => if i > 0 { ServerMoveOrderly(s.server, i, i - 1); }
    case MoveDown(i, _) => ServerMoveOrderly(s.server, i, i + 1);
    case OtherMove(f, t) => ServerMoveOrderly(s.server, f, t);
    case Delete(i, _) => ServerDeleteOrderly(s.server, i);
    case OtherDelete(i) => ServerDeleteOrderly(s.server, i);
    case Create(id, _) => ServerCreateOrderly(s.server, id);
    case Duplicate(i, id, _) => ServerDuplicateOrderly(s.server, i, id);
    case Drain => if s.server.outbox != [] { FewerEventsOrderly(s.server, 0); }
    case Miss(k) => if k < |s.server.outbox| { FewerEventsOrderly(s.server, k); }
    case _ =>
  }

  lemma {:induction false} RunOrderly(s: System, actions: seq<Action>)
    requires Orderly(s.server) && FreshRun(s, actions)
    ensures Orderly(Run(s, actions).server)
    decreases |actions|
  {
    if actions != [] {
      StepOrderly(s, actions[0]);
      RunOrderly(Step(s, actions[0]), actions[1..]);
    }
  }

  // ---------------------------------------------------------------------
  // Facts about reading
  // ---------------------------------------------------------------------

  lemma {:induction false} DrainJoin(g: Gtk, xs: seq<Event>, ys: seq<Event>)
    ensures DrainAll(g, xs + ys) == DrainAll(DrainAll(g, xs), ys)
    decreases |xs|
  {
    if xs == [] {
      assert xs + ys == ys;
    } else {
      assert (xs + ys)[0] == xs[0] && (xs + ys)[1..] == xs[1..] + ys;
      DrainJoin(Handle(g, xs[0]), xs[1..], ys);
    }
  }

  lemma HandleKeeps(g: Gtk, e: Event, id: WorkspaceId)
    requires ValidView(g.view) || g.view == View([], 0)
    requires id in g.view.order
    ensures id in Handle(g, e).view.order <==> e != Deleted(if e.Deleted? then e.idx else 0, id)
  {
    match e
    case Reordered(f, t) =>
      if InBounds(|g.view.order|, (f, t)) {
        SwapFollowsActive(g.view, f, t);
      }
    case Deleted(_, x) =>
      var i := IndexOf(g.view.order, x);
      if i.Some? {
        RemoveFollowsActive(g.view, i.value);
      }
  }

  // Reading takes out exactly the workspaces whose deletion is read.
  lemma {:induction false} DrainTakesOut(g: Gtk, evs: seq<Event>, id: WorkspaceId)
    requires ValidView(g.view) || g.view == View([], 0)
    ensures ValidView(DrainAll(g, evs).view) || DrainAll(g, evs).view == View([], 0)
    ensures id in DrainAll(g, evs).view.order <==> id in g.view.order && NoDeletedPresent([id], evs)
    decreases |evs|
  {
    if evs != [] {
      assert evs == [evs[0]] + evs[1..];
      HandleStaysGood(g, evs[0]);
      DrainTakesOut(Handle(g, evs[0]), evs[1..], id);
      assert NoDeletedPresent([id], evs) <==> (evs[0].Deleted? ==> evs[0].id != id) && NoDeletedPresent([id], evs[1..]);
      if id in g.view.order {
        HandleKeeps(g, evs[0], id);
      } else {
        HandleAddsNothing(g, evs[0], id);
      }
    }
  }

  // ---------------------------------------------------------------------
  // Which events GTK can do without
  // ---------------------------------------------------------------------

  // Reading a move in range either pops an entry or exchanges two rows, so this
  // changes each time.
  predicate Phase(g: Gtk) {
    IsEven(g.view.order) <==> Even(|g.pending|)
  }

  lemma MoveChangesPhase(g: Gtk, e: Event)
    requires ValidView(g.view) && e.Reordered? && e.fromIdx != e.toIdx
    requires InBounds(|g.view.order|, (e.fromIdx, e.toIdx))
    ensures Phase(Handle(g, e)) <==> !Phase(g)
  {
    if e.fromIdx < e.toIdx {
      SwapFlips(g.view.order, e.fromIdx, e.toIdx);
    } else {
      SwapFlips(g.view.order, e.toIdx, e.fromIdx);
      assert Swap(g.view.order, e.fromIdx, e.toIdx) == Swap(g.view.order, e.toIdx, e.fromIdx);
    }
  }

  // An event that takes nothing out of the list.
  predicate Spares(e: Event, g: Gtk) {
    if e.Deleted? then e.id !in g.view.order else e.fromIdx != e.toIdx
  }

  lemma HandlePhase(g: Gtk, e: Event)
    requires ValidView(g.view) && Spares(e, g)
    ensures ValidView(Handle(g, e).view) && |Handle(g, e).view.order| == |g.view.order|
    ensures forall id :: id in Handle(g, e).view.order ==> id in g.view.order
    ensures Phase(Handle(g, e)) <==>
            (Phase(g) <==> !(e.Reordered? && InBounds(|g.view.order|, (e.fromIdx, e.toIdx))))
  {
    if e.Deleted? {
      assert IndexOf(g.view.order, e.id).None?;
    } else if InBounds(|g.view.order|, (e.fromIdx, e.toIdx)) {
      SwapFollowsActive(g.view, e.fromIdx, e.toIdx);
      MoveChangesPhase(g, e);
    }
  }

  // Two lists of the same length stay out of phase whatever both read.
  lemma {:induction false} PhasesStayApart(g: Gtk, h: Gtk, evs: seq<Event>)
    requires ValidView(g.view) && ValidView(h.view) && |g.view.order| == |h.view.order|
    requires NoDeletedPresent(g.view.order, evs) && NoDeletedPresent(h.view.order, evs) && ProperEvents(evs)
    requires Phase(g) != Phase(h)
    ensures Phase(DrainAll(g, evs)) != Phase(DrainAll(h, evs))
    decreases |evs|
  {
    if evs != [] {
      assert evs == [evs[0]] + evs[1..];
      HandlePhase(g, evs[0]);
      HandlePhase(h, evs[0]);
      PhasesStayApart(Handle(g, evs[0]), Handle(h, evs[0]), evs[1..]);
    }
  }

  // The first event to be read is a move in range and is lost.
  lemma MissedMove(g: Gtk, evs: seq<Event>)
    requires ValidView(g.view) && NoDeletedPresent(g.view.order, evs) && ProperEvents(evs)
    requires evs != [] && evs[0].Reordered? && InBounds(|g.view.order|, (evs[0].fromIdx, evs[0].toIdx))
    requires DrainAll(g, evs).pending == [] && DrainAll(g, evs[1..]).pending == []
    ensures DrainAll(g, evs[1..]).view.order != DrainAll(g, evs).view.order
  {
    assert evs == [evs[0]] + evs[1..];
    HandlePhase(g, evs[0]);
    PhasesStayApart(g, Handle(g, evs[0]), evs[1..]);
  }

  lemma {:induction false} DrainLength(g: Gtk, evs: seq<Event>)
    requires ValidView(g.view) || g.view == View([], 0)
    requires NoDeletedPresent(g.view.order, evs)
    ensures |DrainAll(g, evs).view.order| == |g.view.order|
  {
    if g.view.order != [] {
      DrainExactly(g, evs);
    } else {
      EmptyStaysEmpty(g, evs);
    }
  }

  // Where the k-th event is lost.
  lemma AroundEvent(s: System, k: nat)
    requires k < |s.server.outbox|
    ensures var evs := s.server.outbox;
            var g := DrainAll(s.gtk, evs[..k]);
            && DrainAll(s.gtk, evs) == DrainAll(g, evs[k..])
            && DrainAll(s.gtk, RemoveAt(evs, k)) == DrainAll(g, evs[k..][1..])
  {
    var evs := s.server.outbox;
    assert evs == evs[..k] + evs[k..] && evs[k..][1..] == evs[k + 1..];
    DrainJoin(s.gtk, evs[..k], evs[k..]);
    DrainJoin(s.gtk, evs[..k], evs[k + 1..]);
  }

  lemma MissedDeletion(s: System, k: nat)
    requires Converging(s, false) && Orderly(s.server)
    requires k < |s.server.outbox| && s.server.outbox[k].Deleted?
    ensures Converging(Step(s, Miss(k)), false) <==> s.server.outbox[k].id !in s.gtk.view.order
  {
    var evs, id := s.server.outbox, s.server.outbox[k].id;
    if id !in s.gtk.view.order {
      MissConverges(s, k, false);
    } else {
      var rest := RemoveAt(evs, k);
      assert forall i :: 0 <= i < |rest| ==> rest[i] == evs[if i < k then i else i + 1];
      DrainTakesOut(s.gtk, rest, id);
      DrainTakesOut(s.gtk, evs, id);
      assert !NoDeletedPresent([id], evs) && NoDeletedPresent([id], rest);
    }
  }

  lemma MissedReorder(s: System, k: nat)
    requires Converging(s, false) && Orderly(s.server)
    requires k < |s.server.outbox| && s.server.outbox[k].Reordered?
    requires NoDeletedPresent(s.gtk.view.order, s.server.outbox[k + 1..])
    ensures Converging(Step(s, Miss(k)), false) <==>
            !InBounds(|s.server.view.order|, (s.server.outbox[k].fromIdx, s.server.outbox[k].toIdx))
  {
    var evs := s.server.outbox;
    var g, tail := DrainAll(s.gtk, evs[..k]), evs[k..];
    AroundEvent(s, k);
    DrainTakesOut(s.gtk, evs[..k], 0);
    assert NoDeletedPresent(g.view.order, tail) by {
      forall i | 0 <= i < |tail| && tail[i].Deleted?
        ensures tail[i].id !in g.view.order
      {
        assert tail[i] == evs[k + 1..][i - 1];
        DrainTakesOut(s.gtk, evs[..k], tail[i].id);
      }
    }
    DrainLength(g, tail);
    if InBounds(|g.view.order|, (evs[k].fromIdx, evs[k].toIdx)) && DrainAll(g, tail[1..]).pending == [] {
      MissedMove(g, tail);
    }
  }

  // The event that GTK can do without, in any converging state: a deletion of a
  // workspace it has not, or a move out of range. The condition is exact for any
  // deletion, and for a move with no deletion behind it that takes out a
  // workspace GTK has; such a deletion may undo the move.
  lemma MissKeepsConverging(s: System, k: nat)
    requires Converging(s, false) && Orderly(s.server) && k < |s.server.outbox|
    requires s.server.outbox[k].Reordered? ==> NoDeletedPresent(s.gtk.view.order, s.server.outbox[k + 1..])
    ensures var e := s.server.outbox[k];
            Converging(Step(s, Miss(k)), false) <==>
            if e.Deleted? then e.id !in s.gtk.view.order else !InBounds(|s.server.view.order|, (e.fromIdx, e.toIdx))
  {
    if s.server.outbox[k].Deleted? {
      MissedDeletion(s, k);
    } else {
      MissedReorder(s, k);
    }
  }

  // Two neighbours are exchanged, the exchange is lost, and one of the two is
  // deleted: the lists agree all the same.
  lemma DeletionUndoesLostMove()
    ensures var v := View([7, 8, 9], 0);
            var s := Step(Step(System(Gtk(v, []), Server(v, [])), OtherMove(0, 1)), OtherDelete(1));
            && s == System(Gtk(v, []), Server(View([8, 9], 1), [Reordered(0, 1), Deleted(1, 7)]))
            && Converging(s, false) && Converging(Step(s, Miss(0)), false)
  {
    var v := View([7, 8, 9], 0);
    var s := Step(System(Gtk(v, []), Server(v, [])), OtherMove(0, 1));
    assert s.server == Server(View([8, 7, 9], 1), [Reordered(0, 1)]);
    assert Step(s, OtherDelete(1)).server.view == View([8, 9], 1);
    ReadEither(Step(s, OtherDelete(1)));
  }

  lemma ReadEither(s: System)
    requires s == System(Gtk(View([7, 8, 9], 0), []), Server(View([8, 9], 1), [Reordered(0, 1), Deleted(1, 7)]))
    ensures Converging(s, false) && Converging(Step(s, Miss(0)), false)
  {
    var g := Handle(s.gtk, Reordered(0, 1));
    assert g == Gtk(View([8, 7, 9], 1), []);
    assert IndexOf(g.view.order, 7) == Some(1) by {
      assert g.view.order[1..] == [7, 9];
    }
    assert Handle(g, Deleted(1, 7)).view.order == [8, 9];
    assert Handle(s.gtk, Deleted(1, 7)).view.order == [8, 9];
    ReadTwo(s.gtk, Reordered(0, 1), Deleted(1, 7));
    assert RemoveAt(s.server.outbox, 0) == [Deleted(1, 7)];
    ReadOne(s.gtk, Deleted(1, 7));
  }

  lemma ReadOne(g: Gtk, e: Event)
    ensures DrainAll(g, [e]) == Handle(g, e)
  {
    assert [e][1..] == [];
  }

  lemma ReadTwo(g: Gtk, d: Event, e: Event)
    ensures DrainAll(g, [d, e]) == Handle(Handle(g, d), e)
  {
    assert [d, e][1..] == [e];
    ReadOne(Handle(g, d), e);
  }

  // ---------------------------------------------------------------------
  // Lost echoes
  // ---------------------------------------------------------------------

  lemma {:induction false} MovesWithout(evs: seq<Event>, k: nat)
    requires k < |evs|
    ensures |Moves(RemoveAt(evs, k))| == |Moves(evs)| - if evs[k].Reordered? then 1 else 0
    decreases |evs|
  {
    if k == 0 {
      assert RemoveAt(evs, 0) == evs[1..];
    } else {
      assert RemoveAt(evs, k)[1..] == RemoveAt(evs[1..], k - 1);
      MovesWithout(evs[1..], k - 1);
    }
  }

  lemma {:induction false} MovesSnoc(evs: seq<Event>, e: Event)
    ensures |Moves(evs + [e])| == |Moves(evs)| + if e.Reordered? then 1 else 0
    decreases |evs|
  {
    if evs == [] {
      assert [e][1..] == [];
    } else {
      assert (evs + [e])[1..] == evs[1..] + [e];
      MovesSnoc(evs[1..], e);
    }
  }

  // Each reorder event pops one entry at most.
  lemma {:induction false} DrainPops(g: Gtk, evs: seq<Event>)
    ensures |DrainAll(g, evs).pending| + |Moves(evs)| >= |g.pending|
    decreases |evs|
  {
    if evs != [] {
      DrainPops(Handle(g, evs[0]), evs[1..]);
    }
  }

  // Among echoes of GTK's own actions, the stream can only afford to lose those
  // of deletions: after the loss of any other the queue does not drain.
  lemma MissedEcho(s: System, k: nat)
    requires Converging(s, false) && Quiet(s.gtk, s.server.outbox) && k < |s.server.outbox|
    ensures Converging(Step(s, Miss(k)), false) <==> s.server.outbox[k].Deleted?
  {
    QuietMeansMirrored(s.gtk, s.server.outbox);
    if s.server.outbox[k].Deleted? {
      MissConverges(s, k, false);
    } else {
      MovesWithout(s.server.outbox, k);
      DrainPops(s.gtk, RemoveAt(s.server.outbox, k));
    }
  }

  // Whichever echo is lost, GTK ends with the daemon's list and the moves left
  // unmatched made on top of it, so the lists agree if and only if those cancel
  // out.
  lemma MissedEchoLists(s: System, k: nat)
    requires Converging(s, false) && Quiet(s.gtk, s.server.outbox) && k < |s.server.outbox|
    ensures var s' := Step(s, Miss(k));
            var extra := Unmatched(s.gtk.pending, Moves(s'.server.outbox), |s.server.view.order|);
            DrainAll(s'.gtk, s'.server.outbox).view.order == SwapAll(s'.server.view.order, extra)
  {
    var g, evs := s.gtk, s.server.outbox;
    assert g.view.order == s.server.view.order by {
      DrainQuiet(g, evs);
    }
    assert NoDeletedPresent(g.view.order, RemoveAt(evs, k)) by {
      QuietMeansMirrored(g, evs);
    }
    DrainExactly(g, RemoveAt(evs, k));
  }

  predicate OwnOnly(a: Action) {
    && !a.OtherMove? && !a.OtherDelete?
    && (a.MoveUp? || a.MoveDown? ==> a.net != ReplyLost)
  }

  // More pending moves than reorder events to come.
  predicate Behind(s: System) {
    |s.gtk.pending| > |Moves(s.server.outbox)|
  }

  lemma BehindStep(s: System, a: Action)
    requires Behind(s) && OwnOnly(a)
    ensures Behind(Step(s, a))
  {
    match a
    case MoveUp(i, net) => if i > 0 { MovesSnoc(s.server.outbox, Reordered(i, i - 1)); }
    case MoveDown(i, net) => MovesSnoc(s.server.outbox, Reordered(i, i + 1));
    case Delete(i, net) => if i < |s.server.view.order| { MovesSnoc(s.server.outbox, Deleted(i, s.server.view.order[i])); }
    case Miss(k) => if k < |s.server.outbox| { MovesWithout(s.server.outbox, k); }
    case _ =>
  }

  // From then on, as long as GTK is alone with its daemon, the queue is never
  // empty again, whatever GTK does and whatever it reads.
  lemma {:induction false} BehindForEver(s: System, actions: seq<Action>)
    requires Behind(s) && forall k :: 0 <= k < |actions| ==> OwnOnly(actions[k])
    ensures Behind(Run(s, actions)) && Run(s, actions).gtk.pending != []
    decreases |actions|
  {
    if actions != [] {
      BehindStep(s, actions[0]);
      BehindForEver(Step(s, actions[0]), actions[1..]);
    }
  }

  lemma {:induction false} QuietLastMove(g: Gtk, evs: seq<Event>, p: (nat, nat))
    requires Quiet(g, evs + [Reordered(p.0, p.1)])
    ensures g.pending != []
    ensures var n := |g.pending| - 1;
            && SamePair(g.pending[n], p) && InBounds(|g.view.order|, p)
            && Quiet(g.(pending := g.pending[..n]), evs)
    decreases |evs|
  {
    var all := evs + [Reordered(p.0, p.1)];
    if evs == [] {
      assert all[1..] == [];
    } else {
      assert all[1..] == evs[1..] + [Reordered(p.0, p.1)];
      match evs[0]
      case Reordered(f, t) =>
        QuietLastMove(g.(pending := g.pending[1..]), evs[1..], p);
        assert g.pending[..|g.pending| - 1][1..] == g.pending[1..][..|g.pending| - 2];
      case Deleted(_, id) => QuietLastMove(g, evs[1..], p);
    }
  }

  // The echo of GTK's last move p is lost, and GTK makes the move m. Once all is
  // read the lists agree if and only if m is the same exchange as p; otherwise
  // m's echo meets p at the head of the queue and m is applied twice.
  lemma MoveAfterMissedEcho(s: System, evs: seq<Event>, p: (nat, nat), m: (nat, nat))
    requires Converging(s, false) && Quiet(s.gtk, s.server.outbox)
    requires s.server.outbox == evs + [Reordered(p.0, p.1)]
    requires InBounds(|s.gtk.view.order|, m) && m.0 != m.1
    ensures var s2 := LocalMove(Step(s, Miss(|evs|)), m.0, m.1, Delivered);
            DrainAll(s2.gtk, s2.server.outbox).view.order == s2.server.view.order <==> SamePair(p, m)
  {
    var s1 := Step(s, Miss(|evs|));
    assert s1.server.outbox == evs;
    var s2 := LocalMove(s1, m.0, m.1, Delivered);
    DrainQuiet(s.gtk, s.server.outbox);
    QuietLastMove(s.gtk, evs, p);
    var n := |s.gtk.pending| - 1;
    var g := s.gtk.(pending := s.gtk.pending[..n]);
    QuietSwapped(g, evs, m.0, m.1);
    var h := g.(view := SwapView(g.view, m.0, m.1));
    var last := s.gtk.pending[n];
    DrainQuietPrefix(h, evs, [last, m]);
    assert s2.gtk == h.(pending := h.pending + [last, m]);
    DrainSnoc(s2.gtk, evs, Reordered(m.0, m.1));
    SwapTwice(s.gtk.view.order, m, m);
    assert SamePair(last, m) <==> SamePair(p, m);
  }

  // ---------------------------------------------------------------------
  // Lost deletions by another client
  // ---------------------------------------------------------------------

  // The workspace z is GTK's alone, and nothing to be read will tell.
  ghost predicate Stale(s: System, z: WorkspaceId) {
    && z in s.gtk.view.order && z !in s.server.view.order
    && NoDeletedPresent([z], s.server.outbox)
  }

  // GTK deletes the row where it shows z, and the daemon obeys.
  predicate RemovesRow(s: System, a: Action, z: WorkspaceId) {
    && a.Delete? && a.net == Delivered
    && a.idx < |s.gtk.view.order| && |s.gtk.view.order| > 1 && s.gtk.view.order[a.idx] == z
    && a.idx < |s.server.view.order| && |s.server.view.order| > 1
  }

  lemma ServerForgets(s: System, a: Action, z: WorkspaceId)
    requires ValidView(s.server.view) && NewId(s, a) && Stale(s, z)
    ensures z !in Step(s, a).server.view.order && NoDeletedPresent([z], Step(s, a).server.outbox)
  {
    match a
    case MoveUp(i, _) => if i > 0 { ServerMoveForgets(s.server, i, i - 1, z); }
    case MoveDown(i, _) => ServerMoveForgets(s.server, i, i + 1, z);
    case OtherMove(f, t) => ServerMoveForgets(s.server, f, t, z);
    case Delete(i, _) => ServerDeleteForgets(s.server, i, z);
    case OtherDelete(i) => ServerDeleteForgets(s.server, i, z);
    case Duplicate(i, id, _) => if i < |s.server.view.order| { InsertKeepsOthers(s.server.view, i + 1, id); }
    case _ =>
  }

  lemma ServerMoveForgets(d: Server, i: nat, j: nat, z: WorkspaceId)
    requires ValidView(d.view) && z !in d.view.order && NoDeletedPresent([z], d.outbox)
    ensures z !in ServerMove(d, i, j).0.view.order && NoDeletedPresent([z], ServerMove(d, i, j).0.outbox)
  {
    if InBounds(|d.view.order|, (i, j)) {
      SwapFollowsActive(d.view, i, j);
    }
  }

  lemma ServerDeleteForgets(d: Server, i: nat, z: WorkspaceId)
    requires ValidView(d.view) && z !in d.view.order && NoDeletedPresent([z], d.outbox)
    ensures z !in ServerDelete(d, i).0.view.order && NoDeletedPresent([z], ServerDelete(d, i).0.outbox)
  {
    if i < |d.view.order| {
      RemoveFollowsActive(d.view, i);
    }
  }

  lemma GtkKeepsRow(s: System, a: Action, z: WorkspaceId)
    requires Good(s) && NewId(s, a) && Stale(s, z)
    ensures z in Step(s, a).gtk.view.order <==> !RemovesRow(s, a, z)
  {
    var v := s.gtk.view;
    match a
    case MoveUp(i, _) => if i > 0 && i < |v.order| { SwapFollowsActive(v, i, i - 1); }
    case MoveDown(i, _) => if i + 1 < |v.order| { SwapFollowsActive(v, i, i + 1); }
    case Delete(i, _) => if i < |v.order| { RemoveFollowsActive(v, i); }
    case Duplicate(i, id, _) => if i < |v.order| { InsertKeepsOthers(v, i + 1, id); }
    case Drain => if s.server.outbox != [] { HandleKeeps(s.gtk, s.server.outbox[0], z); }
    case _ =>
  }

  predicate NeverRemoved(s: System, actions: seq<Action>, z: WorkspaceId)
    decreases |actions|
  {
    actions == [] || (!RemovesRow(s, actions[0], z) && NeverRemoved(Step(s, actions[0]), actions[1..], z))
  }

  // Over every run, whatever is lost and whoever acts, GTK keeps that workspace
  // until it deletes that very row itself; until then the lists differ, also when
  // all is read.
  lemma {:induction false} StaleStays(s: System, z: WorkspaceId, actions: seq<Action>)
    requires Good(s) && Stale(s, z) && AnyRun(s, actions) && NeverRemoved(s, actions, z)
    ensures var r := Run(s, actions);
            z in r.gtk.view.order && DrainAll(r.gtk, r.server.outbox).view.order != r.server.view.order
    decreases |actions|
  {
    if actions == [] {
      DrainTakesOut(s.gtk, s.server.outbox, z);
    } else {
      StepStaysGood(s, actions[0]);
      ServerForgets(s, actions[0], z);
      GtkKeepsRow(s, actions[0], z);
      StaleStays(Step(s, actions[0]), z, actions[1..]);
    }
  }

  // The event of another client's deletion of row j is lost.
  function AfterLostDeletion(s: System, j: nat): System {
    Step(Step(s, OtherDelete(j)), Miss(|s.server.outbox|))
  }

  lemma LostDeletionIsStale(s: System, j: nat)
    requires Converging(s, false) && Quiet(s.gtk, s.server.outbox)
    requires j < |s.gtk.view.order| && |s.gtk.view.order| > 1
    ensures var s1 := AfterLostDeletion(s, j);
            && s.gtk.view.order == s.server.view.order
            && s1 == System(s.gtk, Server(RemoveView(s.server.view, j), s.server.outbox))
            && Stale(s1, s.gtk.view.order[j])
  {
    DrainQuiet(s.gtk, s.server.outbox);
    QuietMeansMirrored(s.gtk, s.server.outbox);
    RemoveFollowsActive(s.server.view, j);
    var more := s.server.outbox + [Deleted(j, s.server.view.order[j])];
    assert RemoveAt(more, |s.server.outbox|) == s.server.outbox;
  }

  // GTK then deletes its row m. Once all is read the lists agree if and only if m
  // is the stale row and not the last one, in a list of more than two: the row
  // behind it is deleted as well.
  lemma DeletionAfterLostDeletion(s: System, j: nat, m: nat)
    requires Converging(s, false) && Quiet(s.gtk, s.server.outbox)
    requires j < |s.gtk.view.order| && m < |s.gtk.view.order| && |s.gtk.view.order| > 1
    requires PendingInBounds(s.gtk, |s.gtk.view.order| - 1)
    ensures var s2 := LocalDelete(AfterLostDeletion(s, j), m, Delivered);
            DrainAll(s2.gtk, s2.server.outbox).view.order == s2.server.view.order <==>
            m == j && m < |s.gtk.view.order| - 1 && |s.gtk.view.order| > 2
  {
    var n := |s.gtk.view.order|;
    LostDeletionIsStale(s, j);
    DrainQuiet(s.gtk, s.server.outbox);
    RemoveFollowsActive(s.server.view, j);
    if m < n - 1 && n > 2 {
      ReadBothDeletions(s, j, m);
      TwoDeletions(s.gtk.view.order, j, m);
    }
  }

  // What GTK has left of `order`, the daemon having lost row j before: its own row
  // m, and the row that the daemon takes for it.
  function LeftAfter(order: seq<WorkspaceId>, j: nat, m: nat): seq<WorkspaceId>
    requires j < |order| && m < |order| - 1
  {
    var left := RemoveAt(order, m);
    var i := IndexOf(left, RemoveAt(order, j)[m]);
    if i.Some? then RemoveAt(left, i.value) else left
  }

  lemma ReadBothDeletions(s: System, j: nat, m: nat)
    requires Converging(s, false) && Quiet(s.gtk, s.server.outbox) && s.gtk.view.order == s.server.view.order
    requires j < |s.gtk.view.order| && m < |s.gtk.view.order| - 1 && |s.gtk.view.order| > 2
    requires AfterLostDeletion(s, j) == System(s.gtk, Server(RemoveView(s.server.view, j), s.server.outbox))
    requires PendingInBounds(s.gtk, |s.gtk.view.order| - 1)
    ensures var s2 := LocalDelete(AfterLostDeletion(s, j), m, Delivered);
            && DrainAll(s2.gtk, s2.server.outbox).view.order == LeftAfter(s.gtk.view.order, j, m)
            && s2.server.view.order == RemoveAt(RemoveAt(s.gtk.view.order, j), m)
  {
    var evs := s.server.outbox;
    var id := RemoveAt(s.gtk.view.order, j)[m];
    var h := s.gtk.(view := RemoveView(s.gtk.view, m));
    RemoveFollowsActive(s.gtk.view, m);
    QuietMeansMirrored(s.gtk, evs);
    QuietTransfer(s.gtk, h, evs);
    DrainQuiet(h, evs);
    DrainSnoc(h, evs, Deleted(m, id));
  }

  lemma TwoDeletions(order: seq<WorkspaceId>, j: nat, m: nat)
    requires Distinct(order) && j < |order| && m < |order| - 1
    ensures LeftAfter(order, j, m) == RemoveAt(RemoveAt(order, j), m) <==> m == j
  {
    var left, short := RemoveAt(order, m), RemoveAt(order, j);
    RemoveMembers(order, m);
    RemoveMembers(order, j);
    RemoveMembers(short, m);
    if m == j {
      assert IndexOf(left, left[m]) == Some(m);
    } else if m < j {
      assert short[m] == order[m] && IndexOf(left, order[m]).None?;
    } else {
      assert short[m] == order[m + 1];
      var i := IndexOf(left, order[m + 1]);
      assert left[m] == order[m + 1];
      RemoveMembers(left, i.value);
      assert order[j] in LeftAfter(order, j, m) && order[j] !in RemoveAt(short, m);
    }
  }

  lemma LostDeletionDiverges()
    ensures var v := View([7, 8, 9], 0);
            var s := AfterLostDeletion(System(Gtk(v, []), Server(v, [])), 1);
            s == System(Gtk(v, []), Server(View([7, 9], 0), []))
  {
    var v := View([7, 8, 9], 0);
    LostDeletionIsStale(System(Gtk(v, []), Server(v, [])), 1);
    assert RemoveAt([7, 8, 9], 1) == [7, 9];
  }

  // ---------------------------------------------------------------------
  // Lost moves by another client
  // ---------------------------------------------------------------------

  ghost predicate SameMembers(a: seq<WorkspaceId>, b: seq<WorkspaceId>) {
    |a| == |b| && forall id :: id in a <==> id in b
  }

  // The lists hold the same workspaces in different orders, and GTK has nothing
  // to learn.
  ghost predicate Parted(s: System) {
    var differ := SameMembers(s.gtk.view.order, s.server.view.order) && s.gtk.view.order != s.server.view.order;
    var settled := Quiet(s.gtk, s.server.outbox) && ValidView(s.gtk.view) && ValidView(s.server.view) && differ;
    settled
  }

  // The daemon has a workspace that GTK has not; and all that GTK has, the daemon
  // has as well or will tell GTK to remove.
  ghost predicate Short(s: System) {
    var valid := Good(s);
    var known := forall id :: id in s.gtk.view.order ==> id in s.server.view.order || !NoDeletedPresent([id], s.server.outbox);
    var missing := exists z :: z in s.server.view.order && z !in s.gtk.view.order;
    valid && known && missing
  }

  // GTK alone with its daemon, every reply and every event arriving. It deletes
  // while the pending indices survive the shorter list, and no row whose deletion
  // is on its way.
  ghost predicate PlainRun(s: System, actions: seq<Action>)
    decreases |actions|
  {
    actions == [] ||
    (var a := actions[0];
     && !a.OtherMove? && !a.OtherDelete? && !a.Miss?
     && (a.MoveUp? || a.MoveDown? || a.Delete? || a.Create? || a.Duplicate? ==> a.net != ReplyLost)
     && (a.Delete? && a.net == Delivered ==> MayDelete(s, a.idx))
     && (a.Create? || a.Duplicate? ==> Fresh(s, a.id))
     && PlainRun(Step(s, a), actions[1..]))
  }

  ghost predicate MayDelete(s: System, i: nat) {
    && PendingInBounds(s.gtk, |s.gtk.view.order| - 1)
    && (i < |s.gtk.view.order| ==> NoDeletedPresent([s.gtk.view.order[i]], s.server.outbox))
  }

  // The same exchange, or the same insertion, keeps two lists apart.
  lemma SameChangeKeepsApart(a: seq<WorkspaceId>, b: seq<WorkspaceId>, i: nat, j: nat, id: WorkspaceId)
    requires |a| == |b| && a != b
    ensures InBounds(|a|, (i, j)) ==> Swap(a, i, j) != Swap(b, i, j)
    ensures i <= |a| ==> InsertAt(a, i, id) != InsertAt(b, i, id)
  {
    var k :| 0 <= k < |a| && a[k] != b[k];
    if InBounds(|a|, (i, j)) {
      assert Swap(a, i, j)[Follow(k, i, j)] == a[k] && Swap(b, i, j)[Follow(k, i, j)] == b[k];
    }
    if i <= |a| {
      var at := if k >= i then k + 1 else k;
      assert InsertAt(a, i, id)[at] == a[k] && InsertAt(b, i, id)[at] == b[k];
    }
  }

  lemma PartedMove(s: System, i: nat, j: nat, net: Net)
    requires Parted(s) && net != ReplyLost && i != j
    ensures Parted(LocalMove(s, i, j, net))
  {
    if InBounds(|s.gtk.view.order|, (i, j)) && net == Delivered {
      SwapFollowsActive(s.gtk.view, i, j);
      SwapFollowsActive(s.server.view, i, j);
      QuietSwapped(s.gtk, s.server.outbox, i, j);
      QuietSnocMove(s.gtk.(view := SwapView(s.gtk.view, i, j)), s.server.outbox, i, j);
      SameChangeKeepsApart(s.gtk.view.order, s.server.view.order, i, j, 0);
    }
  }

  lemma PartedInsert(s: System, s': System, at: nat, id: WorkspaceId)
    requires Parted(s) && Fresh(s, id) && at <= |s.gtk.view.order|
    requires s'.gtk.pending == s.gtk.pending && s'.server.outbox == s.server.outbox
    requires s'.gtk.view.order == InsertAt(s.gtk.view.order, at, id)
    requires s'.server.view.order == InsertAt(s.server.view.order, at, id)
    requires s'.gtk.view.active < |s'.gtk.view.order| && s'.server.view.active < |s'.server.view.order|
    ensures Parted(s')
  {
    InsertKeepsOthers(s.gtk.view, at, id);
    InsertKeepsOthers(s.server.view, at, id);
    QuietMeansMirrored(s.gtk, s.server.outbox);
    QuietTransfer(s.gtk, s'.gtk, s.server.outbox);
    SameChangeKeepsApart(s.gtk.view.order, s.server.view.order, at, at, id);
  }

  lemma PartedCreate(s: System, a: Action)
    requires Parted(s) && (a.Create? || a.Duplicate?) && a.net != ReplyLost && Fresh(s, a.id)
    ensures Parted(Step(s, a))
  {
    var g, d := s.gtk.view.order, s.server.view.order;
    if a.net == Delivered {
      if a.Create? {
        assert InsertAt(g, |g|, a.id) == g + [a.id] && InsertAt(d, |d|, a.id) == d + [a.id];
        PartedInsert(s, Step(s, a), |g|, a.id);
      } else if a.idx < |g| {
        PartedInsert(s, Step(s, a), a.idx + 1, a.id);
      }
    }
  }

  lemma PartedSwitch(s: System, i: nat)
    requires Parted(s)
    ensures Parted(LocalSwitch(s, i))
  {
    QuietMeansMirrored(s.gtk, s.server.outbox);
    QuietTransfer(s.gtk, LocalSwitch(s, i).gtk, s.server.outbox);
  }

  lemma PartedDrain(s: System)
    requires Parted(s)
    ensures Parted(Step(s, Drain))
  {
    if s.server.outbox != [] && s.server.outbox[0].Deleted? {
      assert IndexOf(s.gtk.view.order, s.server.outbox[0].id).None?;
    }
  }

  // The same row deleted on both sides: if it shows the same workspace the rest
  // still differs.
  lemma SameRowRemoved(a: seq<WorkspaceId>, b: seq<WorkspaceId>, i: nat)
    requires Distinct(a) && Distinct(b) && SameMembers(a, b) && a != b && i < |a| && a[i] == b[i]
    ensures SameMembers(RemoveAt(a, i), RemoveAt(b, i)) && RemoveAt(a, i) != RemoveAt(b, i)
  {
    RemoveMembers(a, i);
    RemoveMembers(b, i);
    var k :| 0 <= k < |a| && a[k] != b[k];
    var at := if k < i then k else k - 1;
    assert RemoveAt(a, i)[at] == a[k] && RemoveAt(b, i)[at] == b[k];
  }

  lemma PartedDelete(s: System, i: nat)
    requires Parted(s) && MayDelete(s, i)
    ensures var s' := LocalDelete(s, i, Delivered);
            Parted(s') || Short(s')
  {
    var g, d := s.gtk.view.order, s.server.view.order;
    if i < |g| && |g| > 1 {
      RemoveFollowsActive(s.gtk.view, i);
      RemoveFollowsActive(s.server.view, i);
      if g[i] == d[i] {
        SameRowRemoved(g, d, i);
        QuietDeleted(s.gtk, s.gtk.(view := RemoveView(s.gtk.view, i)), s.server.outbox, i, d[i]);
      } else {
        PartedDeleteShort(s, i);
      }
    }
  }

  lemma PartedDeleteShort(s: System, i: nat)
    requires Parted(s) && i < |s.gtk.view.order| && |s.gtk.view.order| > 1
    requires s.gtk.view.order[i] != s.server.view.order[i]
    ensures Short(LocalDelete(s, i, Delivered))
  {
    var s' := LocalDelete(s, i, Delivered);
    RemoveFollowsActive(s.gtk.view, i);
    RemoveFollowsActive(s.server.view, i);
    var told := s'.server.outbox[|s.server.outbox|];
    assert told == Deleted(i, s.server.view.order[i]);
    assert s.gtk.view.order[i] in s'.server.view.order && s.gtk.view.order[i] !in s'.gtk.view.order;
  }

  lemma PartedStep(s: System, a: Action)
    requires Parted(s) && PlainRun(s, [a])
    ensures Parted(Step(s, a)) || Short(Step(s, a))
  {
    match a
    case MoveUp(i, net) => if i > 0 { PartedMove(s, i, i - 1, net); }
    case MoveDown(i, net) => PartedMove(s, i, i + 1, net);
    case Delete(i, net) => if net == Delivered { PartedDelete(s, i); }
    case Create(_, _) => PartedCreate(s, a);
    case Duplicate(_, _, _) => PartedCreate(s, a);
    case Switch(i) => PartedSwitch(s, i);
    case Drain => PartedDrain(s);
    case _ =>
  }

  lemma SwappedMembers(v: View, i: nat, j: nat)
    requires InBounds(|v.order|, (i, j)) && (ValidView(v) || v == View([], 0))
    ensures forall id :: id in SwapView(v, i, j).order <==> id in v.order
  {
    SwapFollowsActive(v, i, j);
  }

  lemma ShortMove(s: System, i: nat, j: nat, net: Net)
    requires Short(s) && net != ReplyLost && i != j && Good(LocalMove(s, i, j, net))
    ensures Short(LocalMove(s, i, j, net))
  {
    var s' := LocalMove(s, i, j, net);
    if InBounds(|s.gtk.view.order|, (i, j)) && net == Delivered && InBounds(|s.server.view.order|, (i, j)) {
      SwappedMembers(s.gtk.view, i, j);
      SwappedMembers(s.server.view, i, j);
      MoreIsTold(s.server.outbox, Reordered(i, j));
    }
  }

  // What has been told stays told.
  lemma MoreIsTold(evs: seq<Event>, e: Event)
    ensures forall id :: !NoDeletedPresent([id], evs) ==> !NoDeletedPresent([id], evs + [e])
    ensures e.Deleted? ==> !NoDeletedPresent([e.id], evs + [e])
  {
    forall id | !NoDeletedPresent([id], evs)
      ensures !NoDeletedPresent([id], evs + [e])
    {
      var k :| 0 <= k < |evs| && evs[k].Deleted? && evs[k].id in [id];
      assert (evs + [e])[k] == evs[k];
    }
    assert (evs + [e])[|evs|] == e;
  }

  lemma ShortDelete(s: System, i: nat)
    requires Short(s) && MayDelete(s, i) && Good(LocalDelete(s, i, Delivered))
    ensures Short(LocalDelete(s, i, Delivered))
  {
    var g, d := s.gtk.view.order, s.server.view.order;
    if i < |g| && |g| > 1 && i < |d| && |d| > 1 {
      RemoveFollowsActive(s.gtk.view, i);
      RemoveFollowsActive(s.server.view, i);
      MoreIsTold(s.server.outbox, Deleted(i, d[i]));
      var z :| z in d && z !in g;
      assert g[i] in d;
      var witness' := if z == d[i] then g[i] else z;
      assert witness' in RemoveAt(d, i) && witness' !in RemoveAt(g, i);
    }
  }

  lemma ShortAdds(s: System, s': System, id: WorkspaceId)
    requires Short(s) && Good(s') && s'.server.outbox == s.server.outbox && Fresh(s, id)
    requires forall x :: x in s'.gtk.view.order <==> x in s.gtk.view.order || x == id
    requires forall x :: x in s'.server.view.order <==> x in s.server.view.order || x == id
    ensures Short(s')
  {
    var z :| z in s.server.view.order && z !in s.gtk.view.order;
    assert z in s'.server.view.order && z !in s'.gtk.view.order;
  }

  lemma ShortCreate(s: System, id: WorkspaceId, net: Net)
    requires Short(s) && net != ReplyLost && Fresh(s, id) && Good(LocalCreate(s, id, net))
    ensures Short(LocalCreate(s, id, net))
  {
    if net == Delivered {
      ShortAdds(s, LocalCreate(s, id, net), id);
    }
  }

  lemma ShortDuplicate(s: System, i: nat, id: WorkspaceId, net: Net)
    requires Short(s) && net != ReplyLost && Fresh(s, id) && Good(LocalDuplicate(s, i, id, net))
    ensures Short(LocalDuplicate(s, i, id, net))
  {
    var s' := LocalDuplicate(s, i, id, net);
    if net == Delivered && i < |s.gtk.view.order| && i < |s.server.view.order| {
      assert s'.gtk.view.order == InsertAt(s.gtk.view.order, i + 1, id);
      assert s'.server.view.order == InsertAt(s.server.view.order, i + 1, id);
      InsertKeepsOthers(s.gtk.view, i + 1, id);
      InsertKeepsOthers(s.server.view, i + 1, id);
      ShortAdds(s, s', id);
    }
  }

  lemma ShortDrain(s: System)
    requires Short(s) && Good(Step(s, Drain))
    ensures Short(Step(s, Drain))
  {
    var s' := Step(s, Drain);
    if s.server.outbox != [] {
      var e, rest := s.server.outbox[0], s.server.outbox[1..];
      assert s.server.outbox == [e] + rest;
      forall id | id in s'.gtk.view.order
        ensures id in s.server.view.order || !NoDeletedPresent([id], rest)
      {
        if id !in s.gtk.view.order {
          HandleAddsNothing(s.gtk, e, id);
        }
        HandleKeeps(s.gtk, e, id);
      }
      var z :| z in s.server.view.order && z !in s.gtk.view.order;
      HandleAddsNothing(s.gtk, e, z);
    }
  }

  lemma ShortStep(s: System, a: Action)
    requires Short(s) && PlainRun(s, [a])
    ensures Short(Step(s, a))
  {
    StepStaysGood(s, a);
    match a
    case MoveUp(i, net) => if i > 0 { ShortMove(s, i, i - 1, net); }
    case MoveDown(i, net) => ShortMove(s, i, i + 1, net);
    case Delete(i, net) => if net == Delivered { ShortDelete(s, i); }
    case Create(id, net) => ShortCreate(s, id, net);
    case Duplicate(i, id, net) => ShortDuplicate(s, i, id, net);
    case Drain => ShortDrain(s);
    case _ =>
  }

  lemma {:induction false} StaysApart(s: System, actions: seq<Action>)
    requires (Parted(s) || Short(s)) && PlainRun(s, actions)
    ensures Parted(Run(s, actions)) || Short(Run(s, actions))
    decreases |actions|
  {
    if actions != [] {
      assert PlainRun(Step(s, actions[0]), []);
      if Parted(s) {
        PartedStep(s, actions[0]);
      } else {
        ShortStep(s, actions[0]);
      }
      StaysApart(Step(s, actions[0]), actions[1..]);
    }
  }

  lemma {:induction false} FewerMembers(a: seq<WorkspaceId>, b: seq<WorkspaceId>, z: WorkspaceId)
    requires Distinct(a) && Distinct(b) && (forall id :: id in a ==> id in b) && z in b && z !in a
    ensures |a| < |b|
  {
    if a != [] {
      assert a[0] in b;
      var i :| 0 <= i < |b| && b[i] == a[0];
      RemoveMembers(b, i);
      assert forall k :: 0 < k < |a| ==> a[k] != a[0];
      FewerMembers(a[1..], RemoveAt(b, i), z);
    }
  }

  // GTK has fewer workspaces than the daemon, or as many in another order.
  predicate Wrong(order: seq<WorkspaceId>, daemon: seq<WorkspaceId>) {
    |order| < |daemon| || (|order| == |daemon| && order != daemon)
  }

  lemma ApartWhenRead(s: System)
    requires Parted(s) || Short(s)
    ensures Wrong(DrainAll(s.gtk, s.server.outbox).view.order, s.server.view.order)
  {
    if Parted(s) {
      DrainQuiet(s.gtk, s.server.outbox);
    } else {
      var read := DrainAll(s.gtk, s.server.outbox).view.order;
      forall id
        ensures id in read <==> id in s.gtk.view.order && NoDeletedPresent([id], s.server.outbox)
      {
        DrainTakesOut(s.gtk, s.server.outbox, id);
      }
      DrainTakesOut(s.gtk, s.server.outbox, 0);
      var z :| z in s.server.view.order && z !in s.gtk.view.order;
      FewerMembers(read, s.server.view.order, z);
    }
  }

  // The event of another client's move is lost. However GTK then acts, its own
  // deletions included, the lists never agree again when all is read: they are in
  // different orders, or GTK has lost a workspace more.
  lemma MissedOtherMove(s: System, x: (nat, nat), actions: seq<Action>)
    requires Converging(s, false) && Quiet(s.gtk, s.server.outbox)
    requires InBounds(|s.gtk.view.order|, x) && x.0 != x.1
    requires PlainRun(Step(Step(s, OtherMove(x.0, x.1)), Miss(|s.server.outbox|)), actions)
    ensures var r := Run(Step(Step(s, OtherMove(x.0, x.1)), Miss(|s.server.outbox|)), actions);
            Wrong(DrainAll(r.gtk, r.server.outbox).view.order, r.server.view.order)
  {
    var s1 := Step(Step(s, OtherMove(x.0, x.1)), Miss(|s.server.outbox|));
    DrainQuiet(s.gtk, s.server.outbox);
    assert RemoveAt(s.server.outbox + [Reordered(x.0, x.1)], |s.server.outbox|) == s.server.outbox;
    SwapTwice(s.gtk.view.order, x, x);
    SwapFollowsActive(s.server.view, x.0, x.1);
    StaysApart(s1, actions);
    ApartWhenRead(Run(s1, actions));
  }

  // The guard on rows whose deletion is on its way is needed: two deletions, the
  // second of the row that the first will tell GTK to remove, take out the two
  // rows that were exchanged, and the lists agree.
  lemma TwoDeletionsAgree()
    ensures var v := View([7, 8, 9], 0);
            var s := Step(Step(System(Gtk(v, []), Server(v, [])), OtherMove(0, 2)), Miss(0));
            var s1 := Step(s, Delete(2, Delivered));
            var r := Step(s1, Delete(0, Delivered));
            && MayDelete(s, 2) && !MayDelete(s1, 0)
            && r.gtk.view.order == r.server.view.order == [8]
            && DrainAll(r.gtk, r.server.outbox).view.order == [8]
  {
    var v := View([7, 8, 9], 0);
    var s := Step(System(Gtk(v, []), Server(v, [])), OtherMove(0, 2));
    assert s.server == Server(View([9, 8, 7], 2), [Reordered(0, 2)]);
    assert RemoveAt([Reordered(0, 2)], 0) == [];
    DeleteBoth(Step(s, Miss(0)));
  }

  lemma DeleteBoth(s: System)
    requires s == System(Gtk(View([7, 8, 9], 0), []), Server(View([9, 8, 7], 2), []))
    ensures var s1 := Step(s, Delete(2, Delivered));
            var r := Step(s1, Delete(0, Delivered));
            && MayDelete(s, 2) && !MayDelete(s1, 0)
            && r.gtk.view.order == r.server.view.order == [8]
            && DrainAll(r.gtk, r.server.outbox).view.order == [8]
  {
    var s1 := Step(s, Delete(2, Delivered));
    assert s1.gtk.view.order == [7, 8] && s1.server.view.order == [9, 8] && s1.server.outbox == [Deleted(2, 7)];
    assert s1.server.outbox[0].id in [s1.gtk.view.order[0]];
    var r := Step(s1, Delete(0, Delivered));
    assert r.gtk.view.order == [8] && r.server.view.order == [8] && r.server.outbox == [Deleted(2, 7), Deleted(0, 9)];
    ReadTwo(r.gtk, Deleted(2, 7), Deleted(0, 9));
    assert IndexOf([8], 7).None? && IndexOf([8], 9).None?;
  }

  // ---------------------------------------------------------------------
  // Creations whose reply is lost
  // ---------------------------------------------------------------------

  // Where the daemon puts the workspace that an action creates.
  function CreatedAt(a: Action, d: View): nat
    requires a.Create? || a.Duplicate?
  {
    if a.Create? then |d.order| else a.idx + 1
  }

  // Nothing tells GTK of a creation. When all is read its list is the daemon's
  // of before, and the daemon's is that with the new workspace.
  lemma LostCreation(s: System, a: Action)
    requires Converging(s, false) && (a.Create? || a.Duplicate?) && a.net == ReplyLost
    requires a.Duplicate? ==> a.idx < |s.gtk.view.order| && a.idx < |s.server.view.order|
    ensures var s' := Step(s, a);
            var d := s.server.view;
            && DrainAll(s'.gtk, s'.server.outbox).view.order == d.order
            && s'.server.view.order == InsertAt(d.order, CreatedAt(a, d), a.id)
            && s'.server.view.order != d.order
  {
    var d := s.server.view.order;
    assert a.Create? ==> InsertAt(d, |d|, a.id) == d + [a.id];
    assert |InsertAt(d, CreatedAt(a, s.server.view), a.id)| == |d| + 1;
  }

  lemma StepShowsNothing(s: System, a: Action, id: WorkspaceId)
    requires id !in s.gtk.view.order && (a.Create? || a.Duplicate? ==> a.id != id)
    ensures id !in Step(s, a).gtk.view.order
  {
    if a.Drain? && s.server.outbox != [] {
      HandleAddsNothing(s.gtk, s.server.outbox[0], id);
    }
  }

  // And no later action does: GTK's list never holds that workspace, so the
  // lists can only agree after the daemon has lost it.
  lemma {:induction false} LostCreationStaysUnseen(s: System, id: WorkspaceId, actions: seq<Action>)
    requires id !in s.gtk.view.order
    requires forall k :: 0 <= k < |actions| && (actions[k].Create? || actions[k].Duplicate?) ==> actions[k].id != id
    ensures var r := Run(s, actions);
            id !in r.gtk.view.order && (r.gtk.view.order == r.server.view.order ==> id !in r.server.view.order)
    decreases |actions|
  {
    if actions != [] {
      StepShowsNothing(s, actions[0], id);
      LostCreationStaysUnseen(Step(s, actions[0]), id, actions[1..]);
    }
  }
}
