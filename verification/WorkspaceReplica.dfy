/**
 The workspace list is owned by the daemon and mirrored by the GTK client.
 GTK sends an RPC, changes its own copy, and later drops the daemon's echo of
 that change by matching it with the head of a queue of pending moves.

 First comes the meaning of each operation on plain values, then the two
 objects that carry it out in place. What holds of every run of the pair is in
 WorkspaceConvergence.
 */
module WorkspaceReplica {

  import opened Wrappers

  type WorkspaceId = nat

  // A list of workspaces with the index of the active one; both sides have one.
  datatype View = View(order: seq<WorkspaceId>, active: nat)

  // The layout events that change the list; creation has no consumer in GTK.
  datatype Event = Reordered(fromIdx: nat, toIdx: nat) | Deleted(idx: nat, id: WorkspaceId)

  datatype Gtk = Gtk(view: View, pending: seq<(nat, nat)>)

  datatype Server = Server(view: View, outbox: seq<Event>)

  datatype System = System(gtk: Gtk, server: Server)

  // What becomes of one RPC: the reply arrives; the daemon obeys but the reply
  // misses the client's read timeout (or, for a creation, GTK gives up after it,
  // for it cannot subscribe to the new pane's output); or the request never
  // gets there.
  datatype Net = Delivered | ReplyLost | Refused

  // ---------------------------------------------------------------------
  // List operations
  // ---------------------------------------------------------------------

  ghost predicate Distinct<T>(s: seq<T>) {
    forall i, j :: 0 <= i < j < |s| ==> s[i] != s[j]
  }

  predicate InBounds(n: int, p: (nat, nat)) {
    p.0 < n && p.1 < n
  }

  // The two ways round that the echo guard accepts.
  predicate SamePair(p: (nat, nat), q: (nat, nat)) {
    p == q || (p.0 == q.1 && p.1 == q.0)
  }

  function Swap<T>(s: seq<T>, i: nat, j: nat): (r: seq<T>)
    requires i < |s| && j < |s|
  {
    s[i := s[j]][j := s[i]]
  }

  function RemoveAt<T>(s: seq<T>, i: nat): (r: seq<T>)
    requires i < |s|
  {
    s[..i] + s[i + 1..]
  }

  function InsertAt<T>(s: seq<T>, i: nat, x: T): (r: seq<T>)
    requires i <= |s|
  {
    s[..i] + [x] + s[i..]
  }

  function IndexOf(s: seq<WorkspaceId>, id: WorkspaceId): (r: Option<nat>)
    ensures r.Some? ==> r.value < |s| && s[r.value] == id && id !in s[..r.value]
    ensures r.None? ==> id !in s
  {
    if s == [] then None
    else if s[0] == id then Some(0)
    else
      match IndexOf(s[1..], id)
      case None => None
      case Some(i) => Some(i + 1)
  }

  // ---------------------------------------------------------------------
  // What each operation does to one side
  // ---------------------------------------------------------------------

  function Follow(active: nat, i: nat, j: nat): nat {
    if active == i then j else if active == j then i else active
  }

  function SwapView(v: View, i: nat, j: nat): View
    requires InBounds(|v.order|, (i, j))
  {
    View(Swap(v.order, i, j), Follow(v.active, i, j))
  }

  // The daemon's own removal, and GTK's removal in the event handler.
  function RemoveView(v: View, i: nat): View
    requires i < |v.order|
  {
    var order := RemoveAt(v.order, i);
    View(order,
         if v.active > i then v.active - 1
         else if v.active >= |order| && |order| > 0 then |order| - 1
         else v.active)
  }

  // GTK's removal on its own delete path, which is written differently.
  function RemoveViewLocally(v: View, i: nat): View
    requires i < |v.order| && |v.order| > 1
  {
    var order := RemoveAt(v.order, i);
    View(order,
         if v.active > i then v.active - 1
         else if v.active == i then (if i < |order| - 1 then i else |order| - 1)
         else v.active)
  }

  function ServerMove(d: Server, i: nat, j: nat): (r: (Server, bool)) {
    if !InBounds(|d.view.order|, (i, j)) then (d, false)
    else if i == j then (d, true)
    else (Server(SwapView(d.view, i, j), d.outbox + [Reordered(i, j)]), true)
  }

  function ServerDelete(d: Server, i: nat): (r: (Server, bool)) {
    if i >= |d.view.order| || |d.view.order| <= 1 then (d, false)
    else (Server(RemoveView(d.view, i), d.outbox + [Deleted(i, d.view.order[i])]), true)
  }

  function ServerCreate(d: Server, id: WorkspaceId): Server {
    d.(view := View(d.view.order + [id], d.view.active))
  }

  // The copy goes right after its source; the result is the copy's index.
  function ServerDuplicate(d: Server, i: nat, id: WorkspaceId): (r: (Server, Option<nat>)) {
    if i >= |d.view.order| then (d, None)
    else
      var at := i + 1;
      var active := if d.view.active >= at then d.view.active + 1 else d.view.active;
      (d.(view := View(InsertAt(d.view.order, at, id), active)), Some(at))
  }

  function ServerSetActive(d: Server, i: nat): Server {
    if i >= |d.view.order| then d else d.(view := d.view.(active := i))
  }

  // GTK consuming one event.
  function Handle(g: Gtk, e: Event): Gtk {
    match e
    case Reordered(f, t) =>
      if !InBounds(|g.view.order|, (f, t)) then g
      else if g.pending != [] && SamePair(g.pending[0], (f, t)) then g.(pending := g.pending[1..])
      else g.(view := SwapView(g.view, f, t))
    case Deleted(_, id) =>
      match IndexOf(g.view.order, id)
      case None => g
      case Some(i) => g.(view := RemoveView(g.view, i))
  }

  // ---------------------------------------------------------------------
  // The system, one action at a time
  // ---------------------------------------------------------------------

  datatype Action =
    | MoveUp(idx: nat, net: Net)
    | MoveDown(idx: nat, net: Net)
    | Delete(idx: nat, net: Net)
    | Create(id: WorkspaceId, net: Net)
    | Duplicate(idx: nat, id: WorkspaceId, net: Net)
    | Switch(idx: nat)
    | OtherMove(fromIdx: nat, toIdx: nat)  // another client moves on the daemon
    | OtherDelete(idx: nat)                // another client deletes on the daemon
    | Drain                                // GTK takes the oldest event
    | Miss(index: nat)                     // the layout stream lags and loses an event

  function LocalMove(s: System, i: nat, j: nat, net: Net): System {
    if !InBounds(|s.gtk.view.order|, (i, j)) || net == Refused then s
    else
      var (d, ok) := ServerMove(s.server, i, j);
      if !ok || net == ReplyLost then s.(server := d)
      else System(Gtk(SwapView(s.gtk.view, i, j), s.gtk.pending + [(i, j)]), d)
  }

  function LocalDelete(s: System, i: nat, net: Net): System {
    if i >= |s.gtk.view.order| || |s.gtk.view.order| <= 1 || net == Refused then s
    else
      var (d, ok) := ServerDelete(s.server, i);
      if !ok || net == ReplyLost then s.(server := d)
      else System(s.gtk.(view := RemoveViewLocally(s.gtk.view, i)), d)
  }

  function LocalCreate(s: System, id: WorkspaceId, net: Net): System {
    if net == Refused then s
    else
      var d := ServerCreate(s.server, id);
      if net == ReplyLost then s.(server := d)
      else
        var order := s.gtk.view.order + [id];
        System(s.gtk.(view := View(order, |order| - 1)), d)
  }

  function LocalDuplicate(s: System, i: nat, id: WorkspaceId, net: Net): System {
    if i >= |s.gtk.view.order| || net == Refused then s
    else
      var (d, at) := ServerDuplicate(s.server, i, id);
      if at.None? || net == ReplyLost then s.(server := d)
      else
        var clamped := if at.value < |s.gtk.view.order| then at.value else |s.gtk.view.order|;
        System(s.gtk.(view := View(InsertAt(s.gtk.view.order, clamped, id), clamped)),
               ServerSetActive(d, clamped))
  }

  function LocalSwitch(s: System, i: nat): System {
    if i >= |s.gtk.view.order| || i == s.gtk.view.active then s
    else System(s.gtk.(view := s.gtk.view.(active := i)), ServerSetActive(s.server, i))
  }

  function Step(s: System, a: Action): System {
    match a
    case MoveUp(i, net) => if i == 0 then s else LocalMove(s, i, i - 1, net)
    case MoveDown(i, net) => LocalMove(s, i, i + 1, net)
    case Delete(i, net) => LocalDelete(s, i, net)
    case Create(id, net) => LocalCreate(s, id, net)
    case Duplicate(i, id, net) => LocalDuplicate(s, i, id, net)
    case Switch(i) => LocalSwitch(s, i)
    case OtherMove(f, t) => s.(server := ServerMove(s.server, f, t).0)
    case OtherDelete(i) => s.(server := ServerDelete(s.server, i).0)
    case Drain =>
      if s.server.outbox == [] then s
      else System(Handle(s.gtk, s.server.outbox[0]), s.server.(outbox := s.server.outbox[1..]))
    case Miss(k) =>
      if k >= |s.server.outbox| then s else s.(server := s.server.(outbox := RemoveAt(s.server.outbox, k)))
  }

  function Run(s: System, actions: seq<Action>): System
    decreases |actions|
  {
    if actions == [] then s else Run(Step(s, actions[0]), actions[1..])
  }

  // ---------------------------------------------------------------------
  // The same, row by row
  // ---------------------------------------------------------------------

  /** A delivered move up exchanges the row with the one above it, on both sides. */
  lemma MoveUpRows(s: System, i: nat, t: System)
    requires 0 < i < |s.gtk.view.order| && i < |s.server.view.order|
    requires t == Step(s, MoveUp(i, Delivered))
    ensures var rows, rows' := s.gtk.view.order, t.gtk.view.order;
            && |rows'| == |rows| && rows'[i - 1] == rows[i] && rows'[i] == rows[i - 1]
            && forall k :: 0 <= k < |rows| && k != i && k != i - 1 ==> rows'[k] == rows[k]
    ensures var rows, rows' := s.server.view.order, t.server.view.order;
            && |rows'| == |rows| && rows'[i - 1] == rows[i] && rows'[i] == rows[i - 1]
            && forall k :: 0 <= k < |rows| && k != i && k != i - 1 ==> rows'[k] == rows[k]
    ensures t.gtk.pending == s.gtk.pending + [(i, i - 1)]
    ensures t.server.outbox == s.server.outbox + [Reordered(i, i - 1)]
  {
  }

  /** A delivered move down exchanges the row with the one below it, on both sides. */
  lemma MoveDownRows(s: System, i: nat, t: System)
    requires i + 1 < |s.gtk.view.order| && i + 1 < |s.server.view.order|
    requires t == Step(s, MoveDown(i, Delivered))
    ensures var rows, rows' := s.gtk.view.order, t.gtk.view.order;
            && |rows'| == |rows| && rows'[i + 1] == rows[i] && rows'[i] == rows[i + 1]
            && forall k :: 0 <= k < |rows| && k != i && k != i + 1 ==> rows'[k] == rows[k]
    ensures var rows, rows' := s.server.view.order, t.server.view.order;
            && |rows'| == |rows| && rows'[i + 1] == rows[i] && rows'[i] == rows[i + 1]
            && forall k :: 0 <= k < |rows| && k != i && k != i + 1 ==> rows'[k] == rows[k]
    ensures t.gtk.pending == s.gtk.pending + [(i, i + 1)]
    ensures t.server.outbox == s.server.outbox + [Reordered(i, i + 1)]
  {
  }

  /** What another client does reaches GTK only as an event. */
  lemma OtherClientRows(s: System, f: nat, t: nat, m: System, d: System)
    requires f < |s.server.view.order| && t < |s.server.view.order| && f != t
    requires m == Step(s, OtherMove(f, t)) && d == Step(s, OtherDelete(f))
    ensures m.gtk == s.gtk && d.gtk == s.gtk
    ensures m.server.view.order[f] == s.server.view.order[t] && m.server.view.order[t] == s.server.view.order[f]
    ensures m.server.outbox == s.server.outbox + [Reordered(f, t)]
    ensures d.server.view.order == s.server.view.order[..f] + s.server.view.order[f + 1..]
    ensures d.server.outbox == s.server.outbox + [Deleted(f, s.server.view.order[f])]
  {
  }

  /** GTK reads the oldest event first; a lagging stream leaves the others in order. */
  lemma OutboxRows(s: System, before: seq<Event>, e: Event, after: seq<Event>)
    requires s.server.outbox == before + [e] + after
    ensures Step(s, Miss(|before|)) == s.(server := s.server.(outbox := before + after))
    ensures before == [] ==> Step(s, Drain) == System(Handle(s.gtk, e), s.server.(outbox := after))
  {
    assert (before + [e] + after)[..|before|] == before;
    assert (before + [e] + after)[|before| + 1..] == after;
  }

  // ---------------------------------------------------------------------
  // The objects
  // ---------------------------------------------------------------------

  class Daemon {
    var order: seq<WorkspaceId>
    var active: nat
    var outbox: seq<Event>  // emitted, not yet read by GTK

    constructor (order: seq<WorkspaceId>, active: nat)
      ensures State() == Server(View(order, active), [])
    {
      this.order, this.active, this.outbox := order, active, [];
    }

    ghost function State(): Server
      reads this
    {
      Server(View(order, active), outbox)
    }

    method MoveWorkspace(fromIdx: nat, toIdx: nat) returns (ok: bool)
      modifies this
      ensures (State(), ok) == ServerMove(old(State()), fromIdx, toIdx)
      ensures ok == (fromIdx < |old(order)| && toIdx < |old(order)|)
      ensures (!ok || fromIdx == toIdx) ==> unchanged(this)
      ensures (ok && fromIdx != toIdx) ==>
                && |order| == |old(order)|
                && order[fromIdx] == old(order)[toIdx] && order[toIdx] == old(order)[fromIdx]
                && (forall k :: 0 <= k < |order| && k != fromIdx && k != toIdx ==> order[k] == old(order)[k])
                && outbox == old(outbox) + [Reordered(fromIdx, toIdx)]
      ensures (ok && fromIdx != toIdx) ==>
                active == if old(active) == fromIdx then toIdx else if old(active) == toIdx then fromIdx else old(active)
    {
      if fromIdx >= |order| || toIdx >= |order| {
        return false;
      }
      if fromIdx == toIdx {
        return true;
      }
      order := order[fromIdx := order[toIdx]][toIdx := order[fromIdx]];
      if active == fromIdx {
        active := toIdx;
      } else if active == toIdx {
        active := fromIdx;
      }
      outbox := outbox + [Reordered(fromIdx, toIdx)];
      ok := true;
    }

    method DeleteWorkspace(idx: nat) returns (ok: bool)
      modifies this
      ensures (State(), ok) == ServerDelete(old(State()), idx)
      ensures ok == (idx < |old(order)| && |old(order)| > 1)
      ensures !ok ==> unchanged(this)
      ensures ok ==>
                && order == old(order[..idx] + order[idx + 1..])
                && outbox == old(outbox + [Deleted(idx, order[idx])])
                && active == if old(active) > idx then old(active) - 1
                             else if old(active) >= |order| then |order| - 1
                             else old(active)
    {
      if idx >= |order| || |order| <= 1 {
        return false;
      }
      var id := order[idx];
      order := order[..idx] + order[idx + 1..];
      if active > idx {
        active := active - 1;
      } else if active >= |order| && |order| > 0 {
        active := |order| - 1;
      }
      outbox := outbox + [Deleted(idx, id)];
      ok := true;
    }

    method CreateWorkspace(id: WorkspaceId)
      modifies this
      ensures State() == ServerCreate(old(State()), id)
      ensures order == old(order) + [id] && active == old(active) && outbox == old(outbox)
    {
      order := order + [id];
    }

    method DuplicateWorkspace(idx: nat, id: WorkspaceId) returns (at: Option<nat>)
      modifies this
      ensures (State(), at) == ServerDuplicate(old(State()), idx, id)
      ensures outbox == old(outbox)
      ensures idx >= |old(order)| ==> at == None && unchanged(this)
      ensures idx < |old(order)| ==>
                && at == Some(idx + 1)
                && order == old(order[..idx + 1] + [id] + order[idx + 1..])
                && active == if old(active) <= idx then old(active) else old(active) + 1
    {
      if idx >= |order| {
        return None;
      }
      order := order[..idx + 1] + [id] + order[idx + 1..];
      if active >= idx + 1 {
        active := active + 1;
      }
      at := Some(idx + 1);
    }

    method SetActiveWorkspace(idx: nat)
      modifies this
      ensures State() == ServerSetActive(old(State()), idx)
      ensures order == old(order) && outbox == old(outbox)
      ensures active == if idx < |order| then idx else old(active)
    {
      if idx < |order| {
        active := idx;
      }
    }
  }

  class WorkspaceManager {
    var workspaces: seq<WorkspaceId>
    var activeIndex: nat
    var pendingReorders: seq<(nat, nat)>
    const dc: Daemon

    constructor (dc: Daemon, workspaces: seq<WorkspaceId>, activeIndex: nat)
      ensures this.dc == dc
      ensures Mirror() == Gtk(View(workspaces, activeIndex), [])
    {
      this.dc, this.workspaces, this.activeIndex := dc, workspaces, activeIndex;
      pendingReorders := [];
    }

    ghost function Mirror(): Gtk
      reads this
    {
      Gtk(View(workspaces, activeIndex), pendingReorders)
    }

    ghost function State(): System
      reads this, dc
    {
      System(Mirror(), dc.State())
    }

    method SwapRows(i: nat, j: nat)
      requires i < |workspaces| && j < |workspaces|
      modifies this
      ensures Mirror() == old(Mirror()).(view := SwapView(old(Mirror()).view, i, j))
      ensures |workspaces| == |old(workspaces)| && pendingReorders == old(pendingReorders)
      ensures workspaces[i] == old(workspaces)[j] && workspaces[j] == old(workspaces)[i]
      ensures forall k :: 0 <= k < |workspaces| && k != i && k != j ==> workspaces[k] == old(workspaces)[k]
      ensures activeIndex == if old(activeIndex) == i then j else if old(activeIndex) == j then i else old(activeIndex)
    {
      workspaces := workspaces[i := workspaces[j]][j := workspaces[i]];
      if activeIndex == i {
        activeIndex := j;
      } else if activeIndex == j {
        activeIndex := i;
      }
    }

    method MoveWorkspaceUp(idx: nat, net: Net)
      modifies this, dc
      ensures State() == Step(old(State()), MoveUp(idx, net))
      ensures (idx == 0 || idx >= |old(workspaces)| || net == Refused) ==> unchanged(this) && unchanged(dc)
      ensures (!(idx == 0 || idx >= |old(workspaces)|) && idx < |old(dc.order)| && net != Refused) ==>
                && dc.order == old(dc.order[..idx - 1] + [dc.order[idx], dc.order[idx - 1]] + dc.order[idx + 1..])
                && dc.outbox == old(dc.outbox) + [Reordered(idx, idx - 1)]
      ensures (!(idx == 0 || idx >= |old(workspaces)|) && idx < |old(dc.order)| && net == Delivered) ==>
                && workspaces == old(workspaces[..idx - 1] + [workspaces[idx], workspaces[idx - 1]] + workspaces[idx + 1..])
                && pendingReorders == old(pendingReorders) + [(idx, idx - 1)]
                && activeIndex == if old(activeIndex) == idx then idx - 1
                                  else if old(activeIndex) == idx - 1 then idx
                                  else old(activeIndex)
      ensures (idx >= |old(dc.order)| || net != Delivered) ==> unchanged(this)
    {
      if idx == 0 || idx >= |workspaces| {
        return;
      }
      if net == Refused {
        return;
      }
      var ok := dc.MoveWorkspace(idx, idx - 1);
      if !ok || net == ReplyLost {
        return;
      }
      SwapRows(idx, idx - 1);
      pendingReorders := pendingReorders + [(idx, idx - 1)];
    }

    method MoveWorkspaceDown(idx: nat, net: Net)
      modifies this, dc
      ensures State() == Step(old(State()), MoveDown(idx, net))
      ensures (idx + 1 >= |old(workspaces)| || net == Refused) ==> unchanged(this) && unchanged(dc)
      ensures (!(idx + 1 >= |old(workspaces)|) && idx + 1 < |old(dc.order)| && net != Refused) ==>
                && dc.order == old(dc.order[..idx] + [dc.order[idx + 1], dc.order[idx]] + dc.order[idx + 2..])
                && dc.outbox == old(dc.outbox) + [Reordered(idx, idx + 1)]
      ensures (!(idx + 1 >= |old(workspaces)|) && idx + 1 < |old(dc.order)| && net == Delivered) ==>
                && workspaces == old(workspaces[..idx] + [workspaces[idx + 1], workspaces[idx]] + workspaces[idx + 2..])
                && pendingReorders == old(pendingReorders) + [(idx, idx + 1)]
                && activeIndex == if old(activeIndex) == idx then idx + 1
                                  else if old(activeIndex) == idx + 1 then idx
                                  else old(activeIndex)
      ensures (idx + 1 >= |old(dc.order)| || net != Delivered) ==> unchanged(this)
    {
      if idx + 1 >= |workspaces| {
        return;
      }
      if net == Refused {
        return;
      }
      var ok := dc.MoveWorkspace(idx, idx + 1);
      if !ok || net == ReplyLost {
        return;
      }
      SwapRows(idx, idx + 1);
      pendingReorders := pendingReorders + [(idx, idx + 1)];
    }

    method DeleteWorkspaceAtIndex(idx: nat, net: Net)
      modifies this, dc
      ensures State() == Step(old(State()), Delete(idx, net))
      ensures (idx >= |old(workspaces)| || |old(workspaces)| <= 1 || net == Refused) ==> unchanged(this) && unchanged(dc)
      ensures (idx < |old(workspaces)| && |old(workspaces)| > 1 && net != Refused
               && idx < |old(dc.order)| && |old(dc.order)| > 1) ==>
                && dc.order == old(dc.order[..idx] + dc.order[idx + 1..])
                && dc.outbox == old(dc.outbox + [Deleted(idx, dc.order[idx])])
      ensures (idx < |old(workspaces)| && |old(workspaces)| > 1 && net == Delivered
               && idx < |old(dc.order)| && |old(dc.order)| > 1) ==>
                && workspaces == old(workspaces[..idx] + workspaces[idx + 1..])
                && pendingReorders == old(pendingReorders)
                && activeIndex == if old(activeIndex) > idx then old(activeIndex) - 1
                                  else if old(activeIndex) == idx == |workspaces| then idx - 1
                                  else old(activeIndex)
      ensures (idx >= |old(dc.order)| || |old(dc.order)| <= 1 || net != Delivered) ==> unchanged(this)
    {
      if idx >= |workspaces| || |workspaces| <= 1 {
        return;
      }
      if net == Refused {
        return;
      }
      var ok := dc.DeleteWorkspace(idx);
      if !ok || net == ReplyLost {
        return;
      }
      workspaces := workspaces[..idx] + workspaces[idx + 1..];
      if activeIndex > idx {
        activeIndex := activeIndex - 1;
      } else if activeIndex == idx {
        activeIndex := if idx < |workspaces| - 1 then idx else |workspaces| - 1;
      }
    }

    method CreateAndSwitchToNewWorkspace(id: WorkspaceId, net: Net)
      modifies this, dc
      ensures State() == Step(old(State()), Create(id, net))
      ensures net == Refused ==> unchanged(this) && unchanged(dc)
      ensures net != Refused ==>
                dc.order == old(dc.order) + [id] && dc.active == old(dc.active) && dc.outbox == old(dc.outbox)
      ensures net == Delivered ==>
                && workspaces == old(workspaces) + [id]
                && activeIndex == |old(workspaces)|
                && pendingReorders == old(pendingReorders)
      ensures net == ReplyLost ==> unchanged(this)
    {
      if net == Refused {
        return;
      }
      dc.CreateWorkspace(id);
      if net == ReplyLost {
        return;
      }
      workspaces := workspaces + [id];
      activeIndex := |workspaces| - 1;
    }

    method DuplicateWorkspace(idx: nat, id: WorkspaceId, net: Net)
      modifies this, dc
      ensures State() == Step(old(State()), Duplicate(idx, id, net))
      ensures (idx >= |old(workspaces)| || net == Refused) ==> unchanged(this) && unchanged(dc)
      ensures dc.outbox == old(dc.outbox) && pendingReorders == old(pendingReorders)
      ensures (idx < |old(workspaces)| && idx < |old(dc.order)| && net != Refused) ==>
                dc.order == old(dc.order[..idx + 1] + [id] + dc.order[idx + 1..])
      ensures (idx < |old(workspaces)| && idx < |old(dc.order)| && net == Delivered) ==>
                && workspaces == old(workspaces[..idx + 1] + [id] + workspaces[idx + 1..])
                && activeIndex == idx + 1 && dc.active == idx + 1
      ensures (idx >= |old(dc.order)| || net != Delivered) ==> unchanged(this)
    {
      if idx >= |workspaces| {
        return;
      }
      if net == Refused {
        return;
      }
      var at := dc.DuplicateWorkspace(idx, id);
      if at.None? || net == ReplyLost {
        return;
      }
      var clamped := if at.value < |workspaces| then at.value else |workspaces|;
      workspaces := workspaces[..clamped] + [id] + workspaces[clamped..];
      activeIndex := clamped;
      dc.SetActiveWorkspace(clamped);
    }

    method SwitchWorkspace(idx: nat)
      modifies this, dc
      ensures State() == Step(old(State()), Switch(idx))
      ensures (idx >= |old(workspaces)| || idx == old(activeIndex)) ==> unchanged(this) && unchanged(dc)
      ensures (idx < |old(workspaces)| && idx != old(activeIndex)) ==>
                && activeIndex == idx
                && dc.active == if idx < |dc.order| then idx else old(dc.active)
      ensures workspaces == old(workspaces) && pendingReorders == old(pendingReorders)
      ensures dc.order == old(dc.order) && dc.outbox == old(dc.outbox)
    {
      if idx >= |workspaces| || idx == activeIndex {
        return;
      }
      activeIndex := idx;
      dc.SetActiveWorkspace(idx);
    }

    method ConsumeReorderSelfEcho(fromIdx: nat, toIdx: nat) returns (own: bool)
      modifies this`pendingReorders
      ensures own == (old(pendingReorders) != [] && SamePair(old(pendingReorders)[0], (fromIdx, toIdx)))
      ensures own == (old(pendingReorders) != []
                      && old(pendingReorders)[0] in {(fromIdx, toIdx), (toIdx, fromIdx)})
      ensures pendingReorders == if own then old(pendingReorders)[1..] else old(pendingReorders)
    {
      if pendingReorders != [] {
        var (f, t) := pendingReorders[0];
        if (f == fromIdx && t == toIdx) || (f == toIdx && t == fromIdx) {
          pendingReorders := pendingReorders[1..];
          return true;
        }
      }
      own := false;
    }

    method HandleLayoutEvent(e: Event)
      modifies this
      ensures Mirror() == Handle(old(Mirror()), e)
      ensures (e.Reordered? && (e.fromIdx >= |old(workspaces)| || e.toIdx >= |old(workspaces)|)) ==> unchanged(this)
      ensures (e.Reordered? && e.fromIdx < |old(workspaces)| && e.toIdx < |old(workspaces)|) ==>
                if old(pendingReorders) != []
                   && old(pendingReorders)[0] in {(e.fromIdx, e.toIdx), (e.toIdx, e.fromIdx)}
                then
                  && old(pendingReorders) == [old(pendingReorders)[0]] + pendingReorders
                  && workspaces == old(workspaces) && activeIndex == old(activeIndex)
                else
                  && pendingReorders == old(pendingReorders) && |workspaces| == |old(workspaces)|
                  && workspaces[e.fromIdx] == old(workspaces)[e.toIdx]
                  && workspaces[e.toIdx] == old(workspaces)[e.fromIdx]
                  && (forall k :: 0 <= k < |workspaces| && k != e.fromIdx && k != e.toIdx
                                  ==> workspaces[k] == old(workspaces)[k])
                  && activeIndex == if old(activeIndex) == e.fromIdx then e.toIdx
                                    else if old(activeIndex) == e.toIdx then e.fromIdx
                                    else old(activeIndex)
      ensures (e.Deleted? && e.id !in old(workspaces)) ==> unchanged(this)
      ensures (e.Deleted? && e.id in old(workspaces)) ==>
                && pendingReorders == old(pendingReorders)
                && exists i :: 0 <= i < |old(workspaces)| && old(workspaces)[i] == e.id
                               && e.id !in old(workspaces)[..i]
                               && workspaces == old(workspaces)[..i] + old(workspaces)[i + 1..]
                               && activeIndex == if old(activeIndex) > i then old(activeIndex) - 1
                                                 else if old(activeIndex) >= |workspaces| > 0 then |workspaces| - 1
                                                 else old(activeIndex)
    {
      match e
      case Reordered(f, t) =>
        if f >= |workspaces| || t >= |workspaces| {
          return;
        }
        var own := ConsumeReorderSelfEcho(f, t);
        if !own {
          SwapRows(f, t);
        }
      case Deleted(_, id) =>
        var found := IndexOf(workspaces, id);
        if found.None? {
          return;
        }
        var i := found.value;
        workspaces := workspaces[..i] + workspaces[i + 1..];
        if activeIndex > i {
          activeIndex := activeIndex - 1;
        } else if activeIndex >= |workspaces| && |workspaces| > 0 {
          activeIndex := |workspaces| - 1;
        }
    }
  }
}
