/**
 A local move made while any number of moves by others are still unread: once
 all is read the lists agree if and only if those moves, as far as the first
 that makes the same exchange, leave the two rows of the local move to each
 other.
 */
module UnreadMoves {

  import opened LostEvents
  import opened Sequences
  import opened WorkspaceConvergence
  import opened WorkspaceReplica

  function Reorders(moves: seq<(nat, nat)>): seq<Event> {
    if moves == [] then [] else [Reordered(moves[0].0, moves[0].1)] + Reorders(moves[1..])
  }

  // The daemon makes these moves, for other clients or with the reply lost.
  function ServerMoves(d: Server, moves: seq<(nat, nat)>): Server
    decreases |moves|
  {
    if moves == [] then d else ServerMoves(ServerMove(d, moves[0].0, moves[0].1).0, moves[1..])
  }

  predicate Exchanges(moves: seq<(nat, nat)>, n: nat) {
    forall k :: 0 <= k < |moves| ==> InBounds(n, moves[k]) && moves[k].0 != moves[k].1
  }

  lemma {:induction false} ServerMovesAre(d: Server, moves: seq<(nat, nat)>)
    requires Exchanges(moves, |d.view.order|)
    ensures ServerMoves(d, moves).view.order == SwapAll(d.view.order, moves)
    ensures ServerMoves(d, moves).outbox == d.outbox + Reorders(moves)
    decreases |moves|
  {
    if moves == [] {
      assert d.outbox + [] == d.outbox;
    } else {
      var m := moves[0];
      var next := ServerMove(d, m.0, m.1).0;
      assert InBounds(|d.view.order|, m) && next.outbox == d.outbox + [Reordered(m.0, m.1)];
      ServerMovesAre(next, moves[1..]);
      Associate(d.outbox, [Reordered(m.0, m.1)], Reorders(moves[1..]));
    }
  }

  // ---------------------------------------------------------------------
  // Where the moves take a row
  // ---------------------------------------------------------------------

  function Track(row: nat, moves: seq<(nat, nat)>): nat
    decreases |moves|
  {
    if moves == [] then row else Track(Follow(row, moves[0].0, moves[0].1), moves[1..])
  }

  // What stands in the two rows of m stays in them.
  predicate LeavesPair(moves: seq<(nat, nat)>, m: (nat, nat)) {
    SamePair((Track(m.0, moves), Track(m.1, moves)), m)
  }

  lemma {:induction false} TrackStays(row: nat, other: nat, moves: seq<(nat, nat)>, n: nat)
    requires Exchanges(moves, n) && row < n && other < n && row != other
    ensures Track(row, moves) < n && Track(row, moves) != Track(other, moves)
    decreases |moves|
  {
    if moves != [] {
      assert InBounds(n, moves[0]);
      TrackStays(Follow(row, moves[0].0, moves[0].1), Follow(other, moves[0].0, moves[0].1), moves[1..], n);
    }
  }

  lemma SwapPastSwap<T>(s: seq<T>, m: (nat, nat), x: (nat, nat))
    requires InBounds(|s|, m) && InBounds(|s|, x)
    ensures InBounds(|s|, (Follow(m.0, x.0, x.1), Follow(m.1, x.0, x.1)))
    ensures Swap(Swap(s, m.0, m.1), x.0, x.1)
         == Swap(Swap(s, x.0, x.1), Follow(m.0, x.0, x.1), Follow(m.1, x.0, x.1))
  {
  }

  // An exchange made first is the exchange of where the moves take its rows.
  lemma {:induction false} SwapPastAll(order: seq<WorkspaceId>, m: (nat, nat), moves: seq<(nat, nat)>)
    requires InBounds(|order|, m) && m.0 != m.1 && Exchanges(moves, |order|)
    ensures InBounds(|order|, (Track(m.0, moves), Track(m.1, moves)))
    ensures SwapAll(Swap(order, m.0, m.1), moves) == Swap(SwapAll(order, moves), Track(m.0, moves), Track(m.1, moves))
    decreases |moves|
  {
    TrackStays(m.0, m.1, moves, |order|);
    TrackStays(m.1, m.0, moves, |order|);
    if moves != [] {
      var x := moves[0];
      assert InBounds(|order|, x);
      SwapPastSwap(order, m, x);
      SwapPastAll(Swap(order, x.0, x.1), (Follow(m.0, x.0, x.1), Follow(m.1, x.0, x.1)), moves[1..]);
    }
  }

  lemma SwapsAgreeIff(order: seq<WorkspaceId>, p: (nat, nat), q: (nat, nat))
    requires Distinct(order) && InBounds(|order|, p) && InBounds(|order|, q) && p.0 != p.1 && q.0 != q.1
    ensures Swap(order, p.0, p.1) == Swap(order, q.0, q.1) <==> SamePair(p, q)
  {
    if !SamePair(p, q) {
      var row := if p.0 != q.0 && p.0 != q.1 then p.0 else p.1;
      assert Swap(order, p.0, p.1)[row] != Swap(order, q.0, q.1)[row];
    }
  }

  lemma {:induction false} SwapAllDistinct(order: seq<WorkspaceId>, moves: seq<(nat, nat)>)
    requires Distinct(order) && Exchanges(moves, |order|)
    ensures Distinct(SwapAll(order, moves))
    decreases |moves|
  {
    if moves != [] {
      assert InBounds(|order|, moves[0]);
      SwapAllDistinct(Swap(order, moves[0].0, moves[0].1), moves[1..]);
    }
  }

  lemma {:induction false} SwapAllInjective(a: seq<WorkspaceId>, b: seq<WorkspaceId>, moves: seq<(nat, nat)>)
    requires |a| == |b| && Exchanges(moves, |a|)
    ensures SwapAll(a, moves) == SwapAll(b, moves) <==> a == b
    decreases |moves|
  {
    if moves != [] && a != b {
      var m := moves[0];
      assert InBounds(|a|, m);
      SameChangeKeepsApart(a, b, m.0, m.1, 0);
      SwapAllInjective(Swap(a, m.0, m.1), Swap(b, m.0, m.1), moves[1..]);
    }
  }

  // ---------------------------------------------------------------------
  // Reading
  // ---------------------------------------------------------------------

  // The moves read before the first that makes the same exchange as m.
  function Unmet(moves: seq<(nat, nat)>, m: (nat, nat)): (r: seq<(nat, nat)>)
    ensures |r| <= |moves| && forall k :: 0 <= k < |r| ==> r[k] == moves[k]
  {
    if moves == [] || SamePair(m, moves[0]) then [] else [moves[0]] + Unmet(moves[1..], m)
  }

  lemma {:induction false} ReadAll(g: Gtk, moves: seq<(nat, nat)>)
    requires g.pending == [] && Exchanges(moves, |g.view.order|)
    ensures DrainAll(g, Reorders(moves)).pending == []
    ensures DrainAll(g, Reorders(moves)).view.order == SwapAll(g.view.order, moves)
    decreases |moves|
  {
    if moves != [] {
      assert InBounds(|g.view.order|, moves[0]);
      assert Reorders(moves)[1..] == Reorders(moves[1..]);
      ReadAll(Handle(g, Reorders(moves)[0]), moves[1..]);
    }
  }

  // GTK's list is g's and m is pending, the daemon's list is `order`: when the moves
  // and m have been made there and read here.
  lemma {:induction false} AgreeIffUnmet(g: Gtk, order: seq<WorkspaceId>, moves: seq<(nat, nat)>, m: (nat, nat))
    requires g.pending == [m] && |g.view.order| == |order| && InBounds(|order|, m) && m.0 != m.1
    requires Exchanges(moves, |order|)
    ensures var r := DrainAll(g, Reorders(moves) + [Reordered(m.0, m.1)]);
            var seen := Unmet(moves, m);
            && Exchanges(seen, |order|)
            && (r.view.order == Swap(SwapAll(order, moves), m.0, m.1) <==>
                SwapAll(g.view.order, seen) == Swap(SwapAll(order, seen), m.0, m.1))
    decreases |moves|
  {
    var own := Reordered(m.0, m.1);
    DrainSnoc(g, Reorders(moves), own);
    if moves != [] {
      var x, rest := moves[0], moves[1..];
      assert InBounds(|order|, x);
      assert Reorders(moves)[1..] == Reorders(rest);
      if SamePair(m, x) {
        ReadAll(g.(pending := []), rest);
        SameAfterMeeting(g.view.order, order, rest, m, x);
      } else {
        var h := Handle(g, Reordered(x.0, x.1));
        DrainSnoc(h, Reorders(rest), own);
        AgreeIffUnmet(h, Swap(order, x.0, x.1), rest, m);
        SeenAfterFirst(moves, m, g.view.order);
        SeenAfterFirst(moves, m, order);
      }
    }
  }

  lemma SeenAfterFirst(moves: seq<(nat, nat)>, m: (nat, nat), order: seq<WorkspaceId>)
    requires moves != [] && !SamePair(m, moves[0]) && Exchanges(moves, |order|)
    ensures Exchanges(Unmet(moves, m), |order|) && Exchanges(Unmet(moves[1..], m), |order|)
    ensures InBounds(|order|, moves[0])
    ensures SwapAll(order, Unmet(moves, m)) == SwapAll(Swap(order, moves[0].0, moves[0].1), Unmet(moves[1..], m))
  {
    assert InBounds(|order|, moves[0]);
    SwapAllCons(order, moves[0], Unmet(moves[1..], m));
  }

  lemma SameAfterMeeting(list: seq<WorkspaceId>, order: seq<WorkspaceId>, rest: seq<(nat, nat)>, m: (nat, nat), x: (nat, nat))
    requires |list| == |order| && InBounds(|order|, m) && InBounds(|order|, x) && SamePair(m, x)
    requires Exchanges(rest, |order|)
    ensures Swap(SwapAll(list, rest), m.0, m.1) == Swap(SwapAll(Swap(order, x.0, x.1), rest), m.0, m.1) <==>
            list == Swap(order, m.0, m.1)
  {
    var other := Swap(order, m.0, m.1);
    assert Swap(order, x.0, x.1) == other;
    SwapAllInjective(list, other, rest);
    if list != other {
      SameChangeKeepsApart(SwapAll(list, rest), SwapAll(other, rest), m.0, m.1, 0);
    }
  }

  // GTK settled but for echoes of its own, the daemon makes the moves xs, and GTK,
  // before it reads of them, makes the move m.
  lemma MoveOverUnreadMoves(s: System, xs: seq<(nat, nat)>, m: (nat, nat))
    requires Converging(s, false) && Quiet(s.gtk, s.server.outbox)
    requires Exchanges(xs, |s.gtk.view.order|) && InBounds(|s.gtk.view.order|, m) && m.0 != m.1
    ensures var s2 := LocalMove(s.(server := ServerMoves(s.server, xs)), m.0, m.1, Delivered);
            DrainAll(s2.gtk, s2.server.outbox).view.order == s2.server.view.order <==>
            LeavesPair(Unmet(xs, m), m)
  {
    var order, evs := s.gtk.view.order, s.server.outbox;
    var h := s.gtk.(view := SwapView(s.gtk.view, m.0, m.1));
    DrainQuiet(s.gtk, evs);
    ServerMovesAre(s.server, xs);
    QuietSwapped(s.gtk, evs, m.0, m.1);
    DrainQuietPrefix(h, evs, [m]);
    var s2 := LocalMove(s.(server := ServerMoves(s.server, xs)), m.0, m.1, Delivered);
    assert s2.server.outbox == evs + (Reorders(xs) + [Reordered(m.0, m.1)]);
    DrainJoin(s2.gtk, evs, Reorders(xs) + [Reordered(m.0, m.1)]);
    AgreeIffUnmet(h.(pending := [m]), order, xs, m);
    CommuteIff(order, Unmet(xs, m), m);
  }

  lemma CommuteIff(order: seq<WorkspaceId>, seen: seq<(nat, nat)>, m: (nat, nat))
    requires Distinct(order) && InBounds(|order|, m) && m.0 != m.1 && Exchanges(seen, |order|)
    ensures SwapAll(Swap(order, m.0, m.1), seen) == Swap(SwapAll(order, seen), m.0, m.1) <==> LeavesPair(seen, m)
  {
    SwapPastAll(order, m, seen);
    TrackStays(m.0, m.1, seen, |order|);
    SwapAllDistinct(order, seen);
    SwapsAgreeIff(SwapAll(order, seen), (Track(m.0, seen), Track(m.1, seen)), m);
  }
}
