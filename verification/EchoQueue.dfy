/**
 The queue of pending entries by which GTK recognises the daemon's echo of its
 own actions: entries are pushed when GTK acts, and an arriving event that
 matches the head pops it and is ignored. There are two such queues, for
 workspace moves and for focused panes, so entries, events and the match are
 parameters here.
 */
module EchoQueue {

  import opened Wrappers

  datatype Item<T, E> = Push(entry: T) | Arrive(event: E)

  // What a queue has done so far: entries still waiting, entries popped with
  // the event that popped each, and events passed on to be applied.
  datatype Ledger<T, E> = Ledger(pending: seq<T>, popped: seq<(T, E)>, applied: seq<E>)

  function Empty<T, E>(): Ledger<T, E> {
    Ledger([], [], [])
  }

  function Take<T, E>(l: Ledger<T, E>, item: Item<T, E>, same: (T, E) -> bool): Ledger<T, E> {
    match item
    case Push(entry) => l.(pending := l.pending + [entry])
    case Arrive(e) =>
      if l.pending != [] && same(l.pending[0], e)
      then l.(pending := l.pending[1..], popped := l.popped + [(l.pending[0], e)])
      else l.(applied := l.applied + [e])
  }

  // The ledger after a whole interleaving, latest item last.
  function Play<T, E>(items: seq<Item<T, E>>, same: (T, E) -> bool): Ledger<T, E>
    decreases |items|
  {
    if items == [] then Empty()
    else Take(Play(items[..|items| - 1], same), items[|items| - 1], same)
  }

  function Pushes<T, E>(items: seq<Item<T, E>>): seq<T>
    decreases |items|
  {
    if items == [] then []
    else
      var last := items[|items| - 1];
      Pushes(items[..|items| - 1]) + if last.Push? then [last.entry] else []
  }

  function Arrivals<T, E>(items: seq<Item<T, E>>): seq<E>
    decreases |items|
  {
    if items == [] then []
    else
      var last := items[|items| - 1];
      Arrivals(items[..|items| - 1]) + if last.Arrive? then [last.event] else []
  }

  function Entries<T, E>(popped: seq<(T, E)>): (r: seq<T>)
    ensures |r| == |popped| && forall k :: 0 <= k < |popped| ==> r[k] == popped[k].0
  {
    seq(|popped|, k requires 0 <= k < |popped| => popped[k].0)
  }

  // For every interleaving of pushes and events, the popped entries followed by
  // the waiting ones are the pushed entries in order; each was popped by one
  // event that matches it; and every event either popped one entry or was
  // passed on.
  lemma {:induction false} FifoAcknowledgement<T, E>(items: seq<Item<T, E>>, same: (T, E) -> bool)
    ensures var l := Play(items, same);
            && Entries(l.popped) + l.pending == Pushes(items)
            && (forall k :: 0 <= k < |l.popped| ==> same(l.popped[k].0, l.popped[k].1))
            && |l.popped| + |l.applied| == |Arrivals(items)|
    decreases |items|
  {
    if items != [] {
      var before := items[..|items| - 1];
      FifoAcknowledgement(before, same);
      var l := Play(before, same);
      var m := Play(items, same);
      var last := items[|items| - 1];
      if last.Arrive? && l.pending != [] && same(l.pending[0], last.event) {
        assert Entries(m.popped) == Entries(l.popped) + [l.pending[0]];
        assert l.pending == [l.pending[0]] + m.pending;
      }
    }
  }

  // At every point the k-th event to arrive matches the k-th entry pushed.
  ghost predicate Mirroring<T, E>(items: seq<Item<T, E>>, same: (T, E) -> bool)
    decreases |items|
  {
    items == [] ||
    (&& Mirroring(items[..|items| - 1], same)
     && |Arrivals(items)| <= |Pushes(items)|
     && forall k :: 0 <= k < |Arrivals(items)| ==> same(Pushes(items)[k], Arrivals(items)[k]))
  }

  // When events mirror the pushes one for one, nothing is applied a second
  // time, and what waits is exactly the pushes whose event has not arrived.
  lemma {:induction false} MirroringDrains<T, E>(items: seq<Item<T, E>>, same: (T, E) -> bool)
    requires Mirroring(items, same)
    ensures var l := Play(items, same);
            && l.applied == []
            && |l.popped| == |Arrivals(items)|
            && l.pending == Pushes(items)[|Arrivals(items)|..]
    decreases |items|
  {
    if items != [] {
      var before := items[..|items| - 1];
      MirroringDrains(before, same);
      var n := |Arrivals(before)|;
      var last := items[|items| - 1];
      if last.Arrive? {
        assert Pushes(items) == Pushes(before);
        assert Arrivals(items)[n] == last.event;
        assert same(Pushes(items)[n], Arrivals(items)[n]);
        assert Play(before, same).pending[0] == Pushes(items)[n];
      } else {
        assert Pushes(items)[n..] == Pushes(before)[n..] + [last.entry];
      }
    }
  }

  // ---------------------------------------------------------------------
  // Focused panes
  // ---------------------------------------------------------------------

  datatype Focus = Focus(workspace: nat, tab: nat, pane: nat)

  // A cleared focus carries no pane; it is never GTK's own.
  datatype FocusEvent = ActivePaneChanged(workspace: nat, tab: nat, pane: Option<nat>)

  predicate OwnFocus(p: Focus, e: FocusEvent) {
    e.pane.Some? && p.workspace == e.workspace && p.tab == e.tab && p.pane == e.pane.value
  }

  function EchoOf(p: Focus): FocusEvent {
    ActivePaneChanged(p.workspace, p.tab, Some(p.pane))
  }

  class FocusQueue {
    var pendingActivePane: seq<Focus>

    constructor ()
      ensures pendingActivePane == []
    {
      pendingActivePane := [];
    }

    method Push(p: Focus)
      modifies this
      ensures pendingActivePane == old(pendingActivePane) + [p]
    {
      pendingActivePane := pendingActivePane + [p];
    }

    method ConsumeActivePaneSelfEcho(e: FocusEvent) returns (own: bool)
      modifies this
      ensures var l := Take(Ledger(old(pendingActivePane), [], []), Arrive(e), OwnFocus);
              pendingActivePane == l.pending && own == (l.applied == [])
      ensures own == (old(pendingActivePane) != [] &&
                      var head := old(pendingActivePane)[0];
                      e == ActivePaneChanged(head.workspace, head.tab, Some(head.pane)))
      ensures pendingActivePane == if own then old(pendingActivePane)[1..] else old(pendingActivePane)
    {
      own := false;
      if e.pane.Some? && pendingActivePane != [] {
        var head := pendingActivePane[0];
        if head.workspace == e.workspace && head.tab == e.tab && head.pane == e.pane.value {
          pendingActivePane := pendingActivePane[1..];
          own := true;
        }
      }
    }
  }

  // The daemon emits an event only when a tab's focused pane really changes.
  // `panes` is what it has recorded for each tab, and `found` says of each request
  // whether its layout has that tab with that pane; if not, it is refused.
  function Emitted(panes: map<nat, nat>, pushes: seq<Focus>, found: seq<bool>): (r: seq<FocusEvent>)
    requires |found| == |pushes|
    ensures |r| <= |pushes|
    decreases |pushes|
  {
    if pushes == [] then []
    else
      var p := pushes[0];
      if !found[0] || (p.tab in panes && panes[p.tab] == p.pane) then Emitted(panes, pushes[1..], found[1..])
      else [EchoOf(p)] + Emitted(panes[p.tab := p.pane], pushes[1..], found[1..])
  }

  // One request is echoed if it is found and changes the pane recorded for its tab,
  // and a later one is judged by what the earlier has recorded.
  lemma OneRequest(panes: map<nat, nat>, p: Focus, found: bool)
    ensures Emitted(panes, [p], [found]) ==
            if found && !(p.tab in panes && panes[p.tab] == p.pane)
            then [ActivePaneChanged(p.workspace, p.tab, Some(p.pane))] else []
  {
    assert [p][1..] == [] && [found][1..] == [];
  }

  lemma TwoRequests(panes: map<nat, nat>, p: Focus, q: Focus)
    ensures p.tab == q.tab ==>
              Emitted(panes, [p, q], [true, true]) ==
              Emitted(panes, [p], [true])
              + if p.pane == q.pane then [] else [ActivePaneChanged(q.workspace, q.tab, Some(q.pane))]
    ensures p.tab != q.tab ==>
              Emitted(panes, [p, q], [true, true]) == Emitted(panes, [p], [true]) + Emitted(panes, [q], [true])
    ensures Emitted(panes, [p, q], [false, true]) == Emitted(panes, [q], [true])
  {
    assert [p, q][1..] == [q] && [true, true][1..] == [true] && [false, true][1..] == [true];
    OneRequest(panes, p, true);
    OneRequest(panes, q, true);
    OneRequest(panes[p.tab := p.pane], q, true);
  }

  predicate EachChanges(panes: map<nat, nat>, pushes: seq<Focus>, found: seq<bool>)
    requires |found| == |pushes|
    decreases |pushes|
  {
    pushes == [] ||
    (var p := pushes[0];
     && found[0] && (p.tab !in panes || panes[p.tab] != p.pane)
     && EachChanges(panes[p.tab := p.pane], pushes[1..], found[1..]))
  }

  lemma {:induction false} EmittedAll(panes: map<nat, nat>, pushes: seq<Focus>, found: seq<bool>)
    requires |found| == |pushes|
    ensures EachChanges(panes, pushes, found) <==> |Emitted(panes, pushes, found)| == |pushes|
    ensures EachChanges(panes, pushes, found) ==>
              forall k :: 0 <= k < |pushes| ==> Emitted(panes, pushes, found)[k] == EchoOf(pushes[k])
    decreases |pushes|
  {
    if pushes != [] {
      EmittedAll(panes[pushes[0].tab := pushes[0].pane], pushes[1..], found[1..]);
    }
  }

  // GTK pushes before every request, changed or not. Once every event the
  // daemon emitted has arrived, in order and never before its push, the queue
  // is empty if and only if no request was refused and each changed its tab's
  // recorded pane.
  lemma {:induction false} FocusQueueDrains(panes: map<nat, nat>, items: seq<Item<Focus, FocusEvent>>, found: seq<bool>)
    requires |found| == |Pushes(items)| && Arrivals(items) == Emitted(panes, Pushes(items), found)
    requires forall n :: 0 <= n <= |items| ==> |Arrivals(items[..n])| <= |Pushes(items[..n])|
    ensures Play(items, OwnFocus).pending == [] <==> EachChanges(panes, Pushes(items), found)
  {
    EmittedAll(panes, Pushes(items), found);
    FifoAcknowledgement(items, OwnFocus);
    if EachChanges(panes, Pushes(items), found) {
      assert items[..|items|] == items;
      EchoesMirror(items, |items|);
      MirroringDrains(items, OwnFocus);
    }
  }

  lemma {:induction false} PrefixOfHistory(items: seq<Item<Focus, FocusEvent>>, n: nat)
    requires n <= |items|
    ensures Pushes(items[..n]) <= Pushes(items) && Arrivals(items[..n]) <= Arrivals(items)
    decreases |items|
  {
    if n < |items| {
      PrefixOfHistory(items[..|items| - 1], n);
      assert items[..|items| - 1][..n] == items[..n];
    } else {
      assert items[..n] == items;
    }
  }

  lemma {:induction false} EchoesMirror(items: seq<Item<Focus, FocusEvent>>, n: nat)
    requires n <= |items|
    requires |Arrivals(items)| == |Pushes(items)|
    requires forall k :: 0 <= k < |Pushes(items)| ==> Arrivals(items)[k] == EchoOf(Pushes(items)[k])
    requires forall m :: 0 <= m <= |items| ==> |Arrivals(items[..m])| <= |Pushes(items[..m])|
    ensures Mirroring(items[..n], OwnFocus)
  {
    if n > 0 {
      EchoesMirror(items, n - 1);
      assert items[..n][..n - 1] == items[..n - 1];
      PrefixOfHistory(items, n);
    }
  }
}
