/**
 One client streaming one pane's output. The daemon broadcasts every event to
 a bounded channel and keeps the last bytes of the pane in a ring; a client
 that subscribes is sent a reset sentinel and the ring, then every output
 event; a client that falls behind gets another sentinel and the ring, and
 goes on from the oldest event still held.
 */
module OutputStream {

  import opened Bytes
  import opened Sequences

  type PaneId = nat

  datatype Event = PtyOutput(pane: PaneId, data: seq<byte>) | PaneClosed(pane: PaneId) | Other

  datatype Msg = Sentinel | PtyBytes(data: seq<byte>) | ScrollbackPage | PaneGone

  datatype ClientMsg = Unsubscribe | RequestScrollback | SendInput | Subscribe | ListPanes | StreamEnd

  // ---------------------------------------------------------------------
  // The daemon's side, as a value
  // ---------------------------------------------------------------------

  // `preload` is what the log file held when the pane was created, `events`
  // everything broadcast since, `isOpen` whether the pane still has its log.
  datatype Feed = Feed(pane: PaneId, ring: nat, window: nat, preload: seq<byte>, events: seq<Event>, isOpen: bool)

  function DataOf(pane: PaneId, e: Event): seq<byte> {
    if e.PtyOutput? && e.pane == pane then e.data else []
  }

  // What the events say the pane put out.
  function PaneBytes(pane: PaneId, events: seq<Event>): seq<byte> {
    if events == [] then [] else DataOf(pane, events[0]) + PaneBytes(pane, events[1..])
  }

  lemma {:induction false} PaneBytesJoin(pane: PaneId, xs: seq<Event>, ys: seq<Event>)
    ensures PaneBytes(pane, xs + ys) == PaneBytes(pane, xs) + PaneBytes(pane, ys)
  {
    if xs == [] {
      assert xs + ys == ys;
      assert PaneBytes(pane, xs) + PaneBytes(pane, ys) == PaneBytes(pane, ys);
    } else {
      PaneBytesJoin(pane, xs[1..], ys);
      HeadAndTail(xs, ys);
      Associate(DataOf(pane, xs[0]), PaneBytes(pane, xs[1..]), PaneBytes(pane, ys));
    }
  }

  // Every byte the pane has put out.
  function History(f: Feed): seq<byte> {
    f.preload + PaneBytes(f.pane, f.events)
  }

  function Replay(f: Feed): seq<byte> {
    if f.isOpen then LastN(History(f), f.ring) else []
  }

  // The oldest event the channel still holds.
  function Oldest(f: Feed): nat {
    if |f.events| <= f.window then 0 else |f.events| - f.window
  }

  function Broadcast(f: Feed, e: Event): Feed {
    match e
    case PtyOutput(p, _) => if p == f.pane && !f.isOpen then f else f.(events := f.events + [e])
    case PaneClosed(p) =>
      if p == f.pane && !f.isOpen then f
      else f.(events := f.events + [e], isOpen := f.isOpen && p != f.pane)
    case Other => f.(events := f.events + [e])
  }

  predicate Concerns(f: Feed, e: Event) {
    e == PaneClosed(f.pane) || (e.PtyOutput? && e.pane == f.pane)
  }

  // The pane was closed by event k, and nothing after it is about the pane.
  predicate ClosedAt(f: Feed, k: nat) {
    && k < |f.events| && f.events[k] == PaneClosed(f.pane) && !f.isOpen
    && forall j :: k < j < |f.events| ==> !Concerns(f, f.events[j])
  }

  // A pane is open until its closing event, the only one there is.
  ghost predicate Proper(f: Feed) {
    if f.isOpen then forall j :: 0 <= j < |f.events| ==> f.events[j] != PaneClosed(f.pane)
    else exists k: nat :: FirstClosedAt(f, k)
  }

  ghost predicate FirstClosedAt(f: Feed, k: nat) {
    ClosedAt(f, k) && forall j :: 0 <= j < k ==> f.events[j] != PaneClosed(f.pane)
  }

  lemma BroadcastStaysProper(f: Feed, e: Event)
    requires Proper(f)
    ensures Proper(Broadcast(f, e))
    ensures !f.isOpen ==> !Broadcast(f, e).isOpen && History(Broadcast(f, e)) == History(f)
    ensures forall k: nat :: FirstClosedAt(f, k) ==> FirstClosedAt(Broadcast(f, e), k)
  {
    var g := Broadcast(f, e);
    if !f.isOpen {
      HistorySnoc(f, e);
      var k: nat :| FirstClosedAt(f, k);
      assert FirstClosedAt(g, k);
    } else if e == PaneClosed(f.pane) {
      assert FirstClosedAt(g, |f.events|);
    }
  }

  lemma PaneBytesSnoc(pane: PaneId, events: seq<Event>, e: Event)
    ensures PaneBytes(pane, events + [e]) == PaneBytes(pane, events) + DataOf(pane, e)
  {
    PaneBytesJoin(pane, events, [e]);
    assert [e][1..] == [];
    assert PaneBytes(pane, [e]) == DataOf(pane, e);
  }

  lemma HistorySnoc(f: Feed, e: Event)
    ensures History(f.(events := f.events + [e])) == History(f) + DataOf(f.pane, e)
  {
    PaneBytesSnoc(f.pane, f.events, e);
  }

  // ---------------------------------------------------------------------
  // The client's stream, as a value
  // ---------------------------------------------------------------------

  // What has been written, and how many more messages the connection takes.
  datatype Pipe = Pipe(sent: seq<Msg>, room: nat)

  datatype Client = Client(cursor: nat, pipe: Pipe, live: bool)

  // Writes in order until the connection fails.
  function WriteAll(p: Pipe, msgs: seq<Msg>): (r: (Pipe, bool)) {
    if |msgs| <= p.room then (Pipe(p.sent + msgs, p.room - |msgs|), true)
    else (Pipe(p.sent + msgs[..p.room], 0), false)
  }

  // Writing message k after those before it; if that fails, writing all of
  // them fails in the same way.
  lemma WriteOneMore(p: Pipe, msgs: seq<Msg>, k: nat)
    requires k < |msgs| && WriteAll(p, msgs[..k]).1
    ensures WriteAll(WriteAll(p, msgs[..k]).0, [msgs[k]]) == WriteAll(p, msgs[..k + 1])
    ensures !WriteAll(p, msgs[..k + 1]).1 ==> WriteAll(p, msgs[..k + 1]) == WriteAll(p, msgs)
  {
    assert msgs[..k + 1] == msgs[..k] + [msgs[k]];
    if p.room == k {
      assert p.sent + msgs[..k] + [msgs[k]][..0] == p.sent + msgs[..k];
      assert msgs[..k + 1][..k] == msgs[..k];
    } else {
      assert p.sent + msgs[..k] + [msgs[k]] == p.sent + msgs[..k + 1];
    }
  }

  function ByteMsgs(chunks: seq<seq<byte>>): (r: seq<Msg>)
    ensures |r| == |chunks| && forall i :: 0 <= i < |chunks| ==> r[i] == PtyBytes(chunks[i])
  {
    if chunks == [] then [] else [PtyBytes(chunks[0])] + ByteMsgs(chunks[1..])
  }

  function SentinelAndReplay(replay: seq<byte>): seq<Msg> {
    [Sentinel] + ByteMsgs(Chunks(replay, REPLAY_CHUNK_SIZE))
  }

  function Write(c: Client, msgs: seq<Msg>): Client {
    var (pipe, ok) := WriteAll(c.pipe, msgs);
    Client(c.cursor, pipe, ok)
  }

  function Start(f: Feed, room: nat): Client {
    Write(Client(|f.events|, Pipe([], room), true), SentinelAndReplay(Replay(f)))
  }

  // The streaming loop taking one event from its receiver.
  function Receive(f: Feed, c: Client): Client {
    if !c.live || c.cursor >= |f.events| then c
    else if c.cursor < Oldest(f) then Write(c.(cursor := Oldest(f)), SentinelAndReplay(Replay(f)))
    else
      var next := c.(cursor := c.cursor + 1);
      match f.events[c.cursor]
      case PtyOutput(p, data) => if p == f.pane then Write(next, [PtyBytes(data)]) else next
      case PaneClosed(p) => if p == f.pane then Write(next, [PaneGone]).(live := false) else next
      case Other => next
  }

  // The streaming loop taking one message from the client.
  function Hear(c: Client, m: ClientMsg): Client {
    if !c.live then c
    else
      match m
      case StreamEnd => c.(live := false)
      case Unsubscribe => c.(live := false)
      case RequestScrollback => Write(c, [ScrollbackPage])
      case _ => c
  }

  // ---------------------------------------------------------------------
  // The objects
  // ---------------------------------------------------------------------

  class ByteLog {
    var ring: seq<byte>
    var totalBytesWritten: nat
    const ringCapacity: nat
    ghost var history: seq<byte>

    ghost predicate Valid()
      reads this
    {
      ring == LastN(history, ringCapacity) && totalBytesWritten == Saturated(|history|)
    }

    // Starts from the tail of an existing log file.
    constructor (file: seq<byte>, ringCapacity: nat)
      ensures Valid() && history == file && this.ringCapacity == ringCapacity
    {
      this.ringCapacity := ringCapacity;
      ring := if |file| <= ringCapacity then file else file[|file| - ringCapacity..];
      totalBytesWritten := Saturated(|file|);
      history := file;
    }

    method Append(data: seq<byte>)
      requires Valid()
      modifies this
      ensures Valid() && history == old(history) + data
    {
      ghost var after := history + data;
      if data == [] {
        assert history == after;
        return;
      }
      ring := ring + data;
      if ringCapacity == 0 {
        ring := [];
      } else {
        while |ring| > ringCapacity
          invariant |ring| <= |after| && ring == after[|after| - |ring|..]
          invariant |ring| < ringCapacity ==> ring == after
          invariant history == old(history) && totalBytesWritten == old(totalBytesWritten)
        {
          ring := ring[1..];
        }
      }
      totalBytesWritten := Saturated(totalBytesWritten + |data|);
      history := after;
    }

    method RingSnapshot() returns (bytes: seq<byte>, total: nat)
      requires Valid()
      ensures bytes == LastN(history, ringCapacity) && total == Saturated(|history|)
      ensures bytes == if |history| <= ringCapacity then history else history[|history| - ringCapacity..]
      ensures total == if |history| < 0x1_0000_0000_0000_0000 then |history| else 0xFFFF_FFFF_FFFF_FFFF
    {
      bytes, total := ring, totalBytesWritten;
    }
  }

  const U64_MAX: nat := 0xFFFF_FFFF_FFFF_FFFF

  function Saturated(n: nat): nat {
    if n <= U64_MAX then n else U64_MAX
  }

  // The part of the session manager that has to do with one pane's output.
  class OutputManager {
    const pane: PaneId
    const window: nat
    const ring: nat
    const log: ByteLog
    var isOpen: bool
    var events: seq<Event>
    ghost const preload: seq<byte>

    ghost predicate Valid()
      reads this, log
    {
      log.Valid() && log.ringCapacity == ring && log.history == History(State())
    }

    ghost function State(): Feed
      reads this
    {
      Feed(pane, ring, window, preload, events, isOpen)
    }

    constructor (pane: PaneId, ring: nat, window: nat, file: seq<byte>)
      ensures Valid() && fresh(log) && State() == Feed(pane, ring, window, file, [], true)
    {
      this.pane, this.ring, this.window, this.preload := pane, ring, window, file;
      log := new ByteLog(file, ring);
      isOpen, events := true, [];
    }

    // Ring first, then broadcast, under one lock. Other panes have rings of
    // their own, not kept here.
    method ProcessPaneBytes(id: PaneId, bytes: seq<byte>)
      requires Valid()
      modifies this`events, log
      ensures Valid() && State() == Broadcast(old(State()), PtyOutput(id, bytes))
      ensures events == old(events) + if id == pane && !isOpen then [] else [PtyOutput(id, bytes)]
      ensures log.history == old(log.history) + if id == pane && isOpen then bytes else []
    {
      if id == pane && !isOpen {
        return;
      }
      if id == pane {
        log.Append(bytes);
      }
      HistorySnoc(State(), PtyOutput(id, bytes));
      events := events + [PtyOutput(id, bytes)];
    }

    method ClosePane(id: PaneId)
      requires Valid()
      modifies this`events, this`isOpen
      ensures Valid() && State() == Broadcast(old(State()), PaneClosed(id))
      ensures events == old(events) + if id == pane && !old(isOpen) then [] else [PaneClosed(id)]
      ensures isOpen == (old(isOpen) && id != pane)
    {
      if id == pane && !isOpen {
        return;
      }
      HistorySnoc(State(), PaneClosed(id));
      if id == pane {
        isOpen := false;
      }
      events := events + [PaneClosed(id)];
    }

    // Subscription and snapshot under one lock.
    method SubscribeWithSnapshot() returns (cursor: nat, replay: seq<byte>, hwm: nat)
      requires Valid()
      ensures cursor == |events| && replay == Replay(State())
      ensures replay == if !isOpen then []
                        else if |log.history| <= ring then log.history
                        else log.history[|log.history| - ring..]
      ensures hwm == if isOpen then Saturated(|History(State())|) else 0
    {
      cursor := |events|;
      if isOpen {
        replay, hwm := log.RingSnapshot();
      } else {
        replay, hwm := [], 0;
      }
    }
  }

  class Subscription {
    const sm: OutputManager
    var cursor: nat
    var sent: seq<Msg>
    var room: nat
    var live: bool

    ghost function State(): Client
      reads this
    {
      Client(cursor, Pipe(sent, room), live)
    }

    constructor (sm: OutputManager, room: nat)
      requires sm.Valid()
      ensures this.sm == sm && State() == Start(sm.State(), room)
    {
      this.sm, this.room, sent := sm, room, [];
      live := true;
      cursor := 0;
      new;
      var at, replay, _ := sm.SubscribeWithSnapshot();
      cursor := at;
      live := SendSentinelAndReplay(replay);
    }

    method WriteMsg(m: Msg) returns (ok: bool)
      modifies this`sent, this`room
      ensures (Pipe(sent, room), ok) == WriteAll(old(Pipe(sent, room)), [m])
    {
      if room == 0 {
        assert sent + [m][..0] == sent;
        return false;
      }
      sent, room := sent + [m], room - 1;
      ok := true;
    }

    method SendSentinelAndReplay(replay: seq<byte>) returns (ok: bool)
      modifies this`sent, this`room
      ensures (Pipe(sent, room), ok) == WriteAll(old(Pipe(sent, room)), SentinelAndReplay(replay))
    {
      ghost var all, p0 := SentinelAndReplay(replay), Pipe(sent, room);
      WriteOneMore(p0, all, 0);
      ok := WriteMsg(Sentinel);
      if !ok {
        return;
      }
      var chunks := Chunks(replay, REPLAY_CHUNK_SIZE);
      for i := 0 to |chunks|
        invariant (Pipe(sent, room), true) == WriteAll(p0, all[..i + 1])
      {
        WriteOneMore(p0, all, i + 1);
        ok := WriteMsg(PtyBytes(chunks[i]));
        if !ok {
          return;
        }
      }
      assert all[..|chunks| + 1] == all;
      ok := true;
    }

    // The branch of the loop that takes an event. It is not taken while there
    // is none.
    method OnEvent()
      requires sm.Valid()
      modifies this
      ensures State() == Receive(sm.State(), old(State()))
      ensures (!old(live) || old(cursor) >= |sm.events|) ==> unchanged(this)
      ensures (old(live) && old(cursor) < |sm.events|) ==>
                if old(cursor) + sm.window < |sm.events| then
                  var msgs := SentinelAndReplay(Replay(sm.State()));
                  && cursor == |sm.events| - sm.window && live == (|msgs| <= old(room))
                  && sent == old(sent) + (if live then msgs else msgs[..old(room)])
                else
                  var e := sm.events[old(cursor)];
                  && cursor == old(cursor) + 1
                  && (if e.PtyOutput? && e.pane == sm.pane then
                        live == (old(room) > 0) && sent == old(sent) + if old(room) > 0 then [PtyBytes(e.data)] else []
                      else if e == PaneClosed(sm.pane) then
                        !live && sent == old(sent) + if old(room) > 0 then [PaneGone] else []
                      else live && sent == old(sent))
    {
      if !live || cursor >= |sm.events| {
        return;
      }
      var oldest := if |sm.events| <= sm.window then 0 else |sm.events| - sm.window;
      if cursor < oldest {
        cursor := oldest;
        var _, replay, _ := sm.SubscribeWithSnapshot();
        live := SendSentinelAndReplay(replay);
        return;
      }
      var e := sm.events[cursor];
      cursor := cursor + 1;
      match e
      case PtyOutput(p, data) =>
        if p == sm.pane {
          live := WriteMsg(PtyBytes(data));
        }
      case PaneClosed(p) =>
        if p == sm.pane {
          var _ := WriteMsg(PaneGone);
          live := false;
        }
      case Other =>
    }

    method OnClientMsg(m: ClientMsg)
      modifies this
      ensures State() == Hear(old(State()), m)
      ensures (!old(live) || m == SendInput || m == Subscribe || m == ListPanes) ==> unchanged(this)
      ensures (old(live) && (m == Unsubscribe || m == StreamEnd)) ==>
                !live && sent == old(sent) && room == old(room) && cursor == old(cursor)
      ensures (old(live) && m == RequestScrollback) ==>
                && live == (old(room) > 0) && cursor == old(cursor)
                && sent == old(sent) + (if live then [ScrollbackPage] else [])
                && room == if live then old(room) - 1 else 0
    {
      if !live {
        return;
      }
      match m
      case StreamEnd => live := false;
      case Unsubscribe => live := false;
      case RequestScrollback =>
        live := WriteMsg(ScrollbackPage);
        assert [ScrollbackPage][..0] == [];
      case _ =>
    }
  }
}
