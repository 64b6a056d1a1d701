/**
 What the client of an output stream has received, over every interleaving of
 output, other events, closing, delivery, client requests and write failures.
 */
module StreamDelivery {

  import opened Bytes
  import opened Sequences
  import opened OutputStream

  // Where the last sentinel left the client: it was followed by the bytes of
  // the history from `a` up to `b`, and the events resumed at byte `p`. The
  // pane was open then, or it had been closed and there was nothing to replay.
  datatype Marks = Marks(a: nat, b: nat, p: nat, open: bool)

  datatype Action = Emit(event: Event) | Deliver | Request(msg: ClientMsg)

  datatype Run = Run(feed: Feed, client: Client, marks: Marks, lagged: bool)

  // What a message makes of the bytes received so far.
  function Take(received: seq<byte>, m: Msg): seq<byte> {
    match m
    case Sentinel => []
    case PtyBytes(data) => received + data
    case _ => received
  }

  function TakeAll(received: seq<byte>, msgs: seq<Msg>): seq<byte>
    decreases |msgs|
  {
    if msgs == [] then received else TakeAll(Take(received, msgs[0]), msgs[1..])
  }

  // The bytes received after the last sentinel.
  function Since(sent: seq<Msg>): seq<byte> {
    TakeAll([], sent)
  }

  // How many bytes of the history the events before index i account for.
  function Position(f: Feed, i: nat): nat
    requires i <= |f.events|
  {
    |f.preload| + |PaneBytes(f.pane, f.events[..i])|
  }

  function MarksOf(f: Feed, cursor: nat): Marks
    requires cursor <= |f.events|
  {
    Marks(|History(f)| - |Replay(f)|, |History(f)|, Position(f, cursor), f.isOpen)
  }

  function Begin(f: Feed, room: nat): Run {
    Run(f, Start(f, room), MarksOf(f, |f.events|), false)
  }

  predicate Lags(f: Feed, c: Client) {
    c.live && c.cursor < |f.events| && c.cursor < Oldest(f)
  }

  function Step(r: Run, a: Action): Run {
    match a
    case Emit(e) => r.(feed := Broadcast(r.feed, e))
    case Request(m) => r.(client := Hear(r.client, m))
    case Deliver =>
      var lags := Lags(r.feed, r.client);
      Run(r.feed, Receive(r.feed, r.client),
          if lags then MarksOf(r.feed, Oldest(r.feed)) else r.marks,
          r.lagged || lags)
  }

  function Steps(r: Run, actions: seq<Action>): Run
    decreases |actions|
  {
    if actions == [] then r else Steps(Step(r, actions[0]), actions[1..])
  }

  // ---------------------------------------------------------------------
  // Facts about histories and messages
  // ---------------------------------------------------------------------

  // A stretch of the history is what the events in between put out.
  lemma Stretch(f: Feed, i: nat, j: nat)
    requires i <= j <= |f.events|
    ensures Position(f, i) <= Position(f, j) <= |History(f)|
    ensures History(f)[..Position(f, i)] == f.preload + PaneBytes(f.pane, f.events[..i])
    ensures History(f)[Position(f, i)..Position(f, j)] == PaneBytes(f.pane, f.events[i..j])
    ensures |History(f)| - Position(f, j) == |PaneBytes(f.pane, f.events[j..])|
  {
    var x, y, z := f.preload + PaneBytes(f.pane, f.events[..i]), PaneBytes(f.pane, f.events[i..j]), PaneBytes(f.pane, f.events[j..]);
    HistoryInThree(f, i, j);
    MiddleOfThree(x, y, z);
    PaneBytesJoin(f.pane, f.events[..i], f.events[i..j]);
    TakeThenDrop(f.events, i, j);
  }

  lemma HistoryInThree(f: Feed, i: nat, j: nat)
    requires i <= j <= |f.events|
    ensures History(f) == (f.preload + PaneBytes(f.pane, f.events[..i]))
                          + (PaneBytes(f.pane, f.events[i..j]) + PaneBytes(f.pane, f.events[j..]))
  {
    var xs, ys, zs := f.events[..i], f.events[i..j], f.events[j..];
    TakeThenDrop(f.events, i, j);
    PaneBytesJoin(f.pane, xs, ys + zs);
    PaneBytesJoin(f.pane, ys, zs);
    Associate(f.preload, PaneBytes(f.pane, xs), PaneBytes(f.pane, ys) + PaneBytes(f.pane, zs));
  }

  // The history up to an event is the first part of the whole history.
  lemma PositionInHistory(f: Feed, i: nat)
    requires i <= |f.events|
    ensures Position(f, i) <= |History(f)|
    ensures History(f)[..Position(f, i)] == f.preload + PaneBytes(f.pane, f.events[..i])
    ensures |History(f)| - Position(f, i) == |PaneBytes(f.pane, f.events[i..])|
  {
    Stretch(f, i, i);
  }

  lemma NextPosition(f: Feed, i: nat)
    requires i < |f.events|
    ensures var data := DataOf(f.pane, f.events[i]);
            && Position(f, i) <= Position(f, i + 1) <= |History(f)|
            && History(f)[Position(f, i)..Position(f, i + 1)] == data
  {
    Stretch(f, i, i + 1);
    assert f.events[i..i + 1] == [] + [f.events[i]];
    PaneBytesSnoc(f.pane, [], f.events[i]);
  }

  lemma PositionKept(f: Feed, e: Event, i: nat)
    requires i <= |f.events|
    ensures var g := f.(events := f.events + [e]);
            && Position(g, i) == Position(f, i)
            && History(f) <= History(g)
  {
    assert (f.events + [e])[..i] == f.events[..i];
    HistorySnoc(f, e);
  }

  lemma {:induction false} TakeAllJoin(received: seq<byte>, xs: seq<Msg>, ys: seq<Msg>)
    ensures TakeAll(received, xs + ys) == TakeAll(TakeAll(received, xs), ys)
    decreases |xs|
  {
    if xs == [] {
      assert xs + ys == ys;
    } else {
      TakeAllJoin(Take(received, xs[0]), xs[1..], ys);
      assert (xs + ys)[1..] == xs[1..] + ys;
    }
  }

  lemma SinceSnoc(sent: seq<Msg>, m: Msg)
    ensures Since(sent + [m]) == Take(Since(sent), m)
  {
    TakeAllJoin([], sent, [m]);
    assert [m][1..] == [];
  }

  lemma {:induction false} TakeByteMsgs(received: seq<byte>, chunks: seq<seq<byte>>)
    ensures TakeAll(received, ByteMsgs(chunks)) == received + Concat(chunks)
    decreases |chunks|
  {
    if chunks == [] {
      assert received + Concat(chunks) == received;
    } else {
      TakeByteMsgs(received + chunks[0], chunks[1..]);
      assert ByteMsgs(chunks)[1..] == ByteMsgs(chunks[1..]);
      assert (received + chunks[0]) + Concat(chunks[1..]) == received + (chunks[0] + Concat(chunks[1..]));
    }
  }

  // A sentinel with a replay leaves exactly the replayed bytes.
  lemma SinceReplay(sent: seq<Msg>, replay: seq<byte>)
    ensures Since(sent + SentinelAndReplay(replay)) == replay
  {
    var chunks := Chunks(replay, REPLAY_CHUNK_SIZE);
    TakeAllJoin([], sent, SentinelAndReplay(replay));
    assert SentinelAndReplay(replay)[1..] == ByteMsgs(chunks);
    TakeByteMsgs([], chunks);
    ChunksJoin(replay, REPLAY_CHUNK_SIZE);
  }

  // ---------------------------------------------------------------------
  // Every run
  // ---------------------------------------------------------------------

  // No message says the pane is gone, except perhaps the last one.
  predicate GoneOnlyLast(sent: seq<Msg>) {
    forall i :: 0 <= i < |sent| - 1 ==> sent[i] != PaneGone
  }

  predicate NoGone(sent: seq<Msg>) {
    forall i :: 0 <= i < |sent| ==> sent[i] != PaneGone
  }

  // Whether the client has been told that the pane is gone.
  ghost predicate Told(r: Run) {
    !NoGone(r.client.pipe.sent)
  }

  // Where the last `ring` bytes of n begin.
  function RingStart(n: nat, ring: nat): nat {
    if n <= ring then 0 else n - ring
  }

  // What the client has been sent, with the receiver at byte q of history h.
  ghost predicate Delivery(m: Marks, h: seq<byte>, q: nat, sent: seq<Msg>, live: bool) {
    && m.a <= m.b <= |h| && m.p <= m.b && m.p <= q <= |h|
    && (live || !NoGone(sent) ==> Since(sent) == h[m.a..m.b] + h[m.p..q])
    && (live ==> NoGone(sent))
    && GoneOnlyLast(sent)
  }

  ghost predicate Invariant(r: Run) {
    var f, c, m := r.feed, r.client, r.marks;
    var asMarked :=
      && c.cursor <= |f.events|
      && (if m.open then m.a == RingStart(m.b, f.ring) else m.a == m.b == |History(f)| && !f.isOpen)
      && (!r.lagged ==> m.p == m.b)
      && Delivery(m, History(f), Position(f, c.cursor), c.pipe.sent, c.live);
    asMarked
  }

  lemma ReplayIsSuffix(f: Feed)
    ensures Replay(f) == History(f)[|History(f)| - |Replay(f)|..]
    ensures |History(f)| - |Replay(f)| == if f.isOpen then RingStart(|History(f)|, f.ring) else |History(f)|
  {
  }

  lemma ResentIsFresh(f: Feed, c: Client, cursor: nat)
    requires cursor <= |f.events| && NoGone(c.pipe.sent)
    ensures var m := MarksOf(f, cursor);
            var d := Write(c.(cursor := cursor), SentinelAndReplay(Replay(f)));
            && NoGone(d.pipe.sent)
            && m.a <= m.b && m.p <= m.b
            && (d.live ==>
                  Since(d.pipe.sent) == History(f)[m.a..m.b] + History(f)[m.p..Position(f, cursor)])
  {
    PositionInHistory(f, cursor);
    SinceReplay(c.pipe.sent, Replay(f));
    ReplayIsSuffix(f);
    var m := MarksOf(f, cursor);
    assert History(f)[m.p..m.p] == [];
    assert History(f)[m.a..m.b] == Replay(f);
  }

  lemma BeginKeeps(f: Feed, room: nat)
    ensures Invariant(Begin(f, room))
  {
    assert f.events[..|f.events|] == f.events;
    ResentIsFresh(f, Client(|f.events|, Pipe([], room), true), |f.events|);
    PositionInHistory(f, |f.events|);
    ReplayIsSuffix(f);
  }

  // An event that a closed pane's feed accepts adds nothing to its history.
  lemma ClosedHistory(f: Feed, e: Event)
    requires !f.isOpen
    ensures !Broadcast(f, e).isOpen && History(Broadcast(f, e)) == History(f)
  {
    HistorySnoc(f, e);
  }

  lemma EmitKeeps(r: Run, e: Event)
    requires Invariant(r)
    ensures Invariant(Step(r, Emit(e)))
  {
    var g := Broadcast(r.feed, e);
    if g != r.feed {
      PositionKept(r.feed, e, r.client.cursor);
      assert g.events == r.feed.events + [e];
      if !r.feed.isOpen {
        ClosedHistory(r.feed, e);
      }
      HistorySnoc(r.feed, e);
      var h, more := History(r.feed), DataOf(r.feed.pane, e);
      assert History(g) == h + more;
      SliceBefore(h, more, r.marks.a, r.marks.b);
      SliceBefore(h, more, r.marks.p, Position(r.feed, r.client.cursor));
    }
  }

  lemma RequestKeeps(r: Run, m: ClientMsg)
    requires Invariant(r)
    ensures Invariant(Step(r, Request(m)))
  {
    var c := r.client;
    if c.live && m == RequestScrollback {
      var h, q := History(r.feed), Position(r.feed, c.cursor);
      DeliverySays(r.marks, h, q, c.pipe.sent, ScrollbackPage);
      DeliveryEnds(r.marks, h, q, q, c.pipe.sent);
      assert c.pipe.sent + [ScrollbackPage][..0] == c.pipe.sent;
    }
  }

  // Output is passed on...
  lemma DeliveryGrows(m: Marks, h: seq<byte>, q: nat, q': nat, sent: seq<Msg>, data: seq<byte>)
    requires Delivery(m, h, q, sent, true) && q <= q' <= |h| && data == h[q..q']
    ensures Delivery(m, h, q', sent + [PtyBytes(data)], true) && NoGone(sent + [PtyBytes(data)])
  {
    SinceSnoc(sent, PtyBytes(data));
    assert h[m.p..q'] == h[m.p..q] + h[q..q'];
  }

  // ... or the connection fails.
  lemma DeliveryEnds(m: Marks, h: seq<byte>, q: nat, q': nat, sent: seq<Msg>)
    requires Delivery(m, h, q, sent, true) && q <= q' <= |h|
    ensures Delivery(m, h, q', sent, false) && NoGone(sent)
  {
  }

  // A message without output, the last one being that the pane is gone.
  lemma DeliverySays(m: Marks, h: seq<byte>, q: nat, sent: seq<Msg>, msg: Msg)
    requires Delivery(m, h, q, sent, true) && (msg == PaneGone || msg == ScrollbackPage)
    ensures Delivery(m, h, q, sent + [msg], msg != PaneGone)
  {
    SinceSnoc(sent, msg);
  }

  lemma LagKeeps(r: Run)
    requires Invariant(r) && Lags(r.feed, r.client)
    ensures Invariant(Step(r, Deliver)) && NoGone(Step(r, Deliver).client.pipe.sent)
  {
    ResentIsFresh(r.feed, r.client, Oldest(r.feed));
    PositionInHistory(r.feed, Oldest(r.feed));
    ReplayIsSuffix(r.feed);
  }

  predicate Takes(f: Feed, c: Client) {
    c.live && c.cursor < |f.events| && c.cursor >= Oldest(f)
  }

  // The next message is output of the pane.
  predicate NextIsOutput(r: Run) {
    && Takes(r.feed, r.client)
    && r.feed.events[r.client.cursor].PtyOutput? && r.feed.events[r.client.cursor].pane == r.feed.pane
  }

  lemma TakeOutput(r: Run)
    requires NextIsOutput(r)
    ensures var r', data := Step(r, Deliver), r.feed.events[r.client.cursor].data;
            && r'.feed == r.feed && r'.marks == r.marks && r'.lagged == r.lagged
            && r'.client.cursor == r.client.cursor + 1 && r'.client.live == (r.client.pipe.room > 0)
            && r'.client.pipe.sent == if r.client.pipe.room > 0 then r.client.pipe.sent + [PtyBytes(data)] else r.client.pipe.sent
  {
    var sent, data := r.client.pipe.sent, r.feed.events[r.client.cursor].data;
    assert sent + [PtyBytes(data)][..0] == sent;
  }

  lemma TakeOutputKeeps(r: Run)
    requires Invariant(r) && NextIsOutput(r)
    ensures Invariant(Step(r, Deliver)) && NoGone(Step(r, Deliver).client.pipe.sent)
  {
    var f, c := r.feed, r.client;
    TakeOutput(r);
    NextPosition(f, c.cursor);
    var h, q, q' := History(f), Position(f, c.cursor), Position(f, c.cursor + 1);
    if c.pipe.room > 0 {
      DeliveryGrows(r.marks, h, q, q', c.pipe.sent, f.events[c.cursor].data);
    } else {
      DeliveryEnds(r.marks, h, q, q', c.pipe.sent);
    }
  }

  lemma TakeOtherKeeps(r: Run)
    requires Invariant(r) && Takes(r.feed, r.client) && !NextIsOutput(r)
    ensures Invariant(Step(r, Deliver))
    ensures Position(r.feed, r.client.cursor + 1) == Position(r.feed, r.client.cursor)
  {
    var f, c := r.feed, r.client;
    NextPosition(f, c.cursor);
    var q := Position(f, c.cursor);
    DeliverySays(r.marks, History(f), q, c.pipe.sent, PaneGone);
    DeliveryEnds(r.marks, History(f), q, q, c.pipe.sent);
    assert c.pipe.sent + [PaneGone][..0] == c.pipe.sent;
  }

  lemma DeliverKeeps(r: Run)
    requires Invariant(r)
    ensures Invariant(Step(r, Deliver))
  {
    if Lags(r.feed, r.client) {
      LagKeeps(r);
    } else if Takes(r.feed, r.client) {
      var e := r.feed.events[r.client.cursor];
      if NextIsOutput(r) {
        TakeOutputKeeps(r);
      } else {
        TakeOtherKeeps(r);
      }
    }
  }

  lemma StepKeeps(r: Run, a: Action)
    requires Invariant(r)
    ensures Invariant(Step(r, a))
  {
    match a
    case Emit(e) => EmitKeeps(r, e);
    case Deliver => DeliverKeeps(r);
    case Request(m) => RequestKeeps(r, m);
  }

  lemma {:induction false} RunKeeps(r: Run, actions: seq<Action>)
    requires Invariant(r)
    ensures Invariant(Steps(r, actions))
    decreases |actions|
  {
    if actions != [] {
      StepKeeps(r, actions[0]);
      RunKeeps(Step(r, actions[0]), actions[1..]);
    }
  }

  // ---------------------------------------------------------------------
  // What that means for the client
  // ---------------------------------------------------------------------

  // A run that has not lagged is still where its subscription began.
  predicate SameStart(r: Run, f: Feed) {
    && r.feed.pane == f.pane && r.feed.preload == f.preload && f.events <= r.feed.events
    && (!r.lagged ==> r.marks == MarksOf(f, |f.events|) && |f.events| <= r.client.cursor)
  }

  lemma {:induction false} StartKept(r: Run, f: Feed, actions: seq<Action>)
    requires SameStart(r, f)
    ensures SameStart(Steps(r, actions), f)
    decreases |actions|
  {
    if actions != [] {
      StartKept(Step(r, actions[0]), f, actions[1..]);
    }
  }

  // The history at an earlier moment is the first part of the present one.
  lemma HistoryThen(f: Feed, g: Feed)
    requires g.pane == f.pane && g.preload == f.preload && f.events <= g.events
    ensures Position(g, |f.events|) == |History(f)| <= |History(g)|
    ensures History(g)[..|History(f)|] == History(f)
  {
    PositionInHistory(g, |f.events|);
    assert g.events[..|f.events|] == f.events;
  }

  // Before the first lag the client has received exactly the ring as it was at
  // subscription followed by every later byte of the pane up to its place in
  // the channel, once and in order.
  lemma ExactlyOnceBeforeLag(f: Feed, room: nat, actions: seq<Action>)
    ensures var r := Steps(Begin(f, room), actions);
            !r.lagged && r.client.live ==>
              && |f.events| <= r.client.cursor <= |r.feed.events|
              && Since(r.client.pipe.sent) == Replay(f) + PaneBytes(f.pane, r.feed.events[|f.events|..r.client.cursor])
  {
    var r := Steps(Begin(f, room), actions);
    BeginKeeps(f, room);
    RunKeeps(Begin(f, room), actions);
    StartKept(Begin(f, room), f, actions);
    if !r.lagged && r.client.live {
      var h, m := History(r.feed), r.marks;
      HistoryThen(f, r.feed);
      Stretch(r.feed, |f.events|, r.client.cursor);
      ReplayIsSuffix(f);
      assert h[m.a..m.b] == h[..m.b][m.a..] == Replay(f);
    }
  }

  // The byte of the history that the i-th byte after the sentinel is.
  function SourceOf(m: Marks, i: int): int {
    if i < m.b - m.a then m.a + i else m.p + (i - (m.b - m.a))
  }

  // Among n bytes received, one is byte x of the history, or two are.
  ghost predicate Covered(m: Marks, n: nat, x: int) {
    exists i :: 0 <= i < n && SourceOf(m, i) == x
  }

  ghost predicate Doubled(m: Marks, n: nat, x: int) {
    exists i, j :: 0 <= i < j < n && SourceOf(m, i) == x && SourceOf(m, j) == x
  }

  // Which bytes of the history are among those received, and which are there
  // twice.
  lemma CoveredOrDoubled(m: Marks, q: nat, x: int)
    requires m.a <= m.b && m.p <= q
    ensures var n := (m.b - m.a) + (q - m.p);
            && (Covered(m, n, x) <==> m.a <= x < m.b || m.p <= x < q)
            && (Doubled(m, n, x) <==> m.a <= x < m.b && m.p <= x < q)
  {
    var n := (m.b - m.a) + (q - m.p);
    var i, j := x - m.a, (m.b - m.a) + (x - m.p);
    if m.a <= x < m.b {
      assert SourceOf(m, i) == x;
    }
    if m.p <= x < q {
      assert SourceOf(m, j) == x;
    }
    if Covered(m, n, x) {
      var k :| 0 <= k < n && SourceOf(m, k) == x;
      assert k == i || k == j;
    }
    if Doubled(m, n, x) {
      var k, l :| 0 <= k < l < n && SourceOf(m, k) == x && SourceOf(m, l) == x;
      assert k == i && l == j;
    }
  }

  // What was received since the last sentinel is bytes of the history. If the
  // pane was open at that sentinel, it leaves no gap from the last `ring` bytes
  // of then to the receiver's place; if not, it is just the backlog.
  ghost predicate NoGap(r: Run)
    requires r.client.cursor <= |r.feed.events|
  {
    var m, got, h, q := r.marks, Since(r.client.pipe.sent), History(r.feed), Position(r.feed, r.client.cursor);
    var genuine := forall i :: 0 <= i < |got| ==> 0 <= SourceOf(m, i) < |h| && got[i] == h[SourceOf(m, i)];
    var complete :=
      if m.open then forall x :: RingStart(m.b, r.feed.ring) <= x < q ==> Covered(m, |got|, x)
      else m.b == |h| && forall x :: Covered(m, |got|, x) <==> m.p <= x < q;
    genuine && complete
  }

  lemma InvariantMeansNoGap(r: Run)
    requires Invariant(r) && (r.client.live || Told(r))
    ensures r.client.cursor <= |r.feed.events| && NoGap(r)
    ensures |Since(r.client.pipe.sent)| == (r.marks.b - r.marks.a) + (Position(r.feed, r.client.cursor) - r.marks.p)
  {
    var m, got, h, q := r.marks, Since(r.client.pipe.sent), History(r.feed), Position(r.feed, r.client.cursor);
    ReceivedBytes(h, m, q, got);
    forall x
      ensures Covered(m, |got|, x) <==> m.a <= x < m.b || m.p <= x < q
    {
      CoveredOrDoubled(m, q, x);
    }
  }

  lemma ReceivedBytes(h: seq<byte>, m: Marks, q: nat, got: seq<byte>)
    requires m.a <= m.b <= |h| && m.p <= q <= |h| && got == h[m.a..m.b] + h[m.p..q]
    ensures |got| == (m.b - m.a) + (q - m.p)
    ensures forall i :: 0 <= i < |got| ==> 0 <= SourceOf(m, i) < |h| && got[i] == h[SourceOf(m, i)]
  {
  }

  // In every reachable state, however often the client has lagged.
  lemma NoGapAfterLag(f: Feed, room: nat, actions: seq<Action>, r: Run)
    requires r == Steps(Begin(f, room), actions) && r.client.live
    ensures r.client.cursor <= |r.feed.events| && NoGap(r)
  {
    BeginKeeps(f, room);
    RunKeeps(Begin(f, room), actions);
    InvariantMeansNoGap(r);
  }

  // What is received twice is what both the replay and the events since the
  // receiver's old place account for.
  lemma TwiceIsOverlap(r: Run, x: int)
    requires Invariant(r) && (r.client.live || Told(r))
    ensures var q := Position(r.feed, r.client.cursor);
            Doubled(r.marks, |Since(r.client.pipe.sent)|, x) <==> r.marks.a <= x < r.marks.b && r.marks.p <= x < q
  {
    InvariantMeansNoGap(r);
    CoveredOrDoubled(r.marks, Position(r.feed, r.client.cursor), x);
  }

  // After a lag the replay ends where the history does, and the events resume
  // before it by what the pane put out in the backlog the channel still held.
  // So once the backlog is read, as many bytes have arrived twice as the shorter
  // of the two has: none if and only if the backlog holds no output of the pane
  // or there was nothing to replay, as after the close.
  lemma LagOverlap(r: Run)
    requires Invariant(r) && Lags(r.feed, r.client)
    ensures var m := Step(r, Deliver).marks;
            var replay, backlog := Replay(r.feed), PaneBytes(r.feed.pane, r.feed.events[Oldest(r.feed)..]);
            && m.b == |History(r.feed)|
            && Overlap(m) == (if |replay| < |backlog| then |replay| else |backlog|)
            && (Overlap(m) == 0 <==> replay == [] || backlog == [])
  {
    PositionInHistory(r.feed, Oldest(r.feed));
  }

  // The number of bytes in both parts of what the client is sent.
  function Overlap(m: Marks): int {
    m.b - if m.a < m.p then m.p else m.a
  }

  // A stream that has ended stays as it is; by the invariant it says at most
  // once, and last, that the pane is gone.
  lemma {:induction false} EndedStaysEnded(r: Run, actions: seq<Action>)
    requires !r.client.live
    ensures Steps(r, actions).client == r.client
    decreases |actions|
  {
    if actions != [] {
      EndedStaysEnded(Step(r, actions[0]), actions[1..]);
    }
  }

  // ---------------------------------------------------------------------
  // One action at a time
  // ---------------------------------------------------------------------

  lemma OneStep(r: Run, a: Action)
    ensures Steps(r, [a]) == Step(r, a)
  {
    assert [a][1..] == [];
  }

  // Once the client has unsubscribed, or closed its side, it is sent nothing more.
  lemma NothingAfterUnsubscribe(r: Run, m: ClientMsg, later: seq<Action>)
    requires m == Unsubscribe || m == StreamEnd
    ensures var c := Steps(r, [Request(m)] + later).client;
            !c.live && c.pipe == r.client.pipe && c.cursor == r.client.cursor
  {
    assert ([Request(m)] + later)[1..] == later;
    EndedStaysEnded(Step(r, Request(m)), later);
  }

  // A request for scrollback is answered by one page, unless the connection
  // fails; no other request is answered, and none stops the stream.
  lemma OnlyScrollbackIsAnswered(r: Run, m: ClientMsg)
    requires r.client.live && m != Unsubscribe && m != StreamEnd
    ensures var t := Steps(r, [Request(m)]);
            && t.feed == r.feed && t.client.cursor == r.client.cursor
            && t.client.live == (m != RequestScrollback || r.client.pipe.room > 0)
            && t.client.pipe.sent ==
               r.client.pipe.sent + (if m == RequestScrollback && r.client.pipe.room > 0 then [ScrollbackPage] else [])
            && t.client.pipe.room ==
               if m == RequestScrollback && r.client.pipe.room > 0 then r.client.pipe.room - 1 else r.client.pipe.room
  {
    OneStep(r, Request(m));
    assert r.client.pipe.sent + [ScrollbackPage][..0] == r.client.pipe.sent;
  }

  // What a pane puts out is broadcast until it is closed, what others put out
  // always; the client is sent nothing before it reads the event.
  lemma OnlyClosedPaneIsMute(r: Run, e: Event)
    ensures var t := Steps(r, [Emit(e)]);
            && t.client == r.client
            && (if !r.feed.isOpen && (e == PaneClosed(r.feed.pane) || (e.PtyOutput? && e.pane == r.feed.pane)) then t.feed == r.feed
                else t.feed == r.feed.(events := r.feed.events + [e], isOpen := r.feed.isOpen && e != PaneClosed(r.feed.pane)))
  {
    OneStep(r, Emit(e));
  }

  // Taking one event: a client that is not behind is sent the pane's output and
  // the news of its closing, and passes over anything else.
  lemma OneEventTaken(r: Run)
    requires r.client.live && r.client.cursor < |r.feed.events| <= r.client.cursor + r.feed.window
    ensures var t, e := Steps(r, [Deliver]), r.feed.events[r.client.cursor];
            && t.feed == r.feed && t.client.cursor == r.client.cursor + 1 && t.lagged == r.lagged
            && (if e.PtyOutput? && e.pane == r.feed.pane then
                  && t.client.live == (r.client.pipe.room > 0)
                  && t.client.pipe.sent == r.client.pipe.sent + (if r.client.pipe.room > 0 then [PtyBytes(e.data)] else [])
                else if e == PaneClosed(r.feed.pane) then
                  && !t.client.live
                  && t.client.pipe.sent == r.client.pipe.sent + (if r.client.pipe.room > 0 then [PaneGone] else [])
                else t.client.live && t.client.pipe == r.client.pipe)
  {
    OneStep(r, Deliver);
    assert forall m: Msg :: [m][..0] == [];
  }

  // The last bytes of the pane up to the ring's capacity, in frames of a mebibyte but
  // for the last one; nothing if the pane is closed.
  ghost predicate IsReplay(f: Feed, replay: seq<Msg>) {
    && (forall i :: 0 <= i < |replay| ==> replay[i].PtyBytes? && 0 < |replay[i].data| <= 1048576)
    && (forall i :: 0 <= i < |replay| - 1 ==> |replay[i].data| == 1048576)
    && TakeAll([], replay) ==
       if !f.isOpen then []
       else if |History(f)| <= f.ring then History(f)
       else History(f)[|History(f)| - f.ring..]
  }

  lemma ReplayOf(f: Feed) returns (replay: seq<Msg>)
    ensures SentinelAndReplay(Replay(f)) == [Sentinel] + replay && IsReplay(f, replay)
  {
    var chunks := Chunks(Replay(f), REPLAY_CHUNK_SIZE);
    replay := ByteMsgs(chunks);
    ChunksAreBounded(Replay(f), REPLAY_CHUNK_SIZE);
    ChunksJoin(Replay(f), REPLAY_CHUNK_SIZE);
    TakeByteMsgs([], chunks);
  }

  // A client that is behind skips to the oldest event held and is sent a
  // sentinel, which makes it forget, and a replay, as far as the connection goes.
  lemma LagStartsOver(r: Run) returns (replay: seq<Msg>)
    requires r.client.live && r.client.cursor + r.feed.window < |r.feed.events|
    ensures IsReplay(r.feed, replay)
    ensures var t, room := Steps(r, [Deliver]), r.client.pipe.room;
            && t.feed == r.feed && t.lagged && t.client.cursor == |r.feed.events| - r.feed.window
            && t.client.live == (|replay| < room)
            && t.client.pipe.sent == r.client.pipe.sent + (if |replay| < room then [Sentinel] + replay else ([Sentinel] + replay)[..room])
  {
    OneStep(r, Deliver);
    replay := ReplayOf(r.feed);
  }

  // So is one that subscribes, and it goes on with the next event.
  lemma SubscriptionStarts(f: Feed, room: nat) returns (replay: seq<Msg>)
    ensures IsReplay(f, replay)
    ensures var r := Steps(Begin(f, room), []);
            && r.feed == f && !r.lagged && r.client.cursor == |f.events|
            && r.client.live == (|replay| < room)
            && r.client.pipe.sent == if |replay| < room then [Sentinel] + replay else ([Sentinel] + replay)[..room]
  {
    replay := ReplayOf(f);
    assert [] + ([Sentinel] + replay) == [Sentinel] + replay;
    assert forall n: nat :: n <= |replay| ==> [] + ([Sentinel] + replay)[..n] == ([Sentinel] + replay)[..n];
  }

  // ---------------------------------------------------------------------
  // Having the whole ring
  // ---------------------------------------------------------------------

  // The client has received everything the pane has put out so far.
  predicate CaughtUp(r: Run) {
    r.client.cursor <= |r.feed.events| && Position(r.feed, r.client.cursor) == |History(r.feed)|
  }

  // The last `ring` bytes of the history are among those since the sentinel.
  ghost predicate HasRing(r: Run) {
    var n := |History(r.feed)|;
    forall x :: RingStart(n, r.feed.ring) <= x < n ==> Covered(r.marks, |Since(r.client.pipe.sent)|, x)
  }

  lemma HasRingIff(r: Run)
    requires Invariant(r) && (r.client.live || Told(r)) && CaughtUp(r)
    ensures HasRing(r) <==> r.marks.open || r.marks.p <= RingStart(|History(r.feed)|, r.feed.ring)
  {
    var m, n, ring := r.marks, |History(r.feed)|, r.feed.ring;
    InvariantMeansNoGap(r);
    var start := RingStart(n, ring);
    if m.open {
      assert RingStart(m.b, ring) <= start;
    } else if m.p > start {
      CoveredOrDoubled(m, n, start);
    }
  }

  // In every reachable state in which the client is caught up: it has the last
  // `ring` bytes if and only if the pane was open when it was last sent a
  // sentinel, or the backlog it has read since reaches back that far.
  lemma CaughtUpHasRingIff(f: Feed, room: nat, actions: seq<Action>, r: Run)
    requires r == Steps(Begin(f, room), actions) && r.client.live && CaughtUp(r)
    ensures HasRing(r) <==> r.marks.open || r.marks.p <= RingStart(|History(r.feed)|, r.feed.ring)
  {
    BeginKeeps(f, room);
    RunKeeps(Begin(f, room), actions);
    HasRingIff(r);
  }

  // ---------------------------------------------------------------------
  // Closing
  // ---------------------------------------------------------------------

  lemma {:induction false} NothingAfterClose(f: Feed, k: nat, i: nat)
    requires ClosedAt(f, k) && k <= i <= |f.events|
    ensures PaneBytes(f.pane, f.events[i..]) == []
    decreases |f.events| - i
  {
    if i < |f.events| {
      NothingAfterClose(f, k, i + 1);
      assert f.events[i..][1..] == f.events[i + 1..];
      assert DataOf(f.pane, f.events[i]) == [];
    }
  }

  // A client that has been told is caught up with a closed pane.
  ghost predicate Closing(r: Run) {
    var settled := Told(r) ==> !r.client.live && !r.feed.isOpen && CaughtUp(r);
    var closing := Proper(r.feed) && settled;
    closing
  }

  lemma ClosingEmit(r: Run, e: Event)
    requires Invariant(r) && Closing(r)
    ensures Closing(Step(r, Emit(e)))
  {
    BroadcastStaysProper(r.feed, e);
    PositionKept(r.feed, e, r.client.cursor);
  }

  lemma ClosingEventIsLast(f: Feed, i: nat)
    requires Proper(f) && i < |f.events| && f.events[i] == PaneClosed(f.pane)
    ensures !f.isOpen && Position(f, i + 1) == |History(f)|
  {
    var k: nat :| FirstClosedAt(f, k);
    NothingAfterClose(f, k, k + 1);
    PositionInHistory(f, k + 1);
  }

  lemma ClosingDeliver(r: Run)
    requires Invariant(r) && Closing(r)
    ensures Closing(Step(r, Deliver))
  {
    var f, c := r.feed, r.client;
    if Lags(f, c) {
      LagKeeps(r);
    } else if Takes(f, c) {
      var e := f.events[c.cursor];
      if NextIsOutput(r) {
        TakeOutputKeeps(r);
      } else if e == PaneClosed(f.pane) {
        ClosingEventIsLast(f, c.cursor);
      }
    }
  }

  lemma {:induction false} ClosingKept(r: Run, actions: seq<Action>)
    requires Invariant(r) && Closing(r)
    ensures Closing(Steps(r, actions))
    decreases |actions|
  {
    if actions != [] {
      StepKeeps(r, actions[0]);
      match actions[0] {
        case Emit(e) => ClosingEmit(r, e);
        case Deliver => ClosingDeliver(r);
        case Request(m) =>
      }
      ClosingKept(Step(r, actions[0]), actions[1..]);
    }
  }

  // The state r is reached from a subscription to a well-formed feed.
  ghost predicate Reached(f: Feed, room: nat, actions: seq<Action>, r: Run) {
    Proper(f) && r == Steps(Begin(f, room), actions)
  }

  lemma ReachableIsClosing(f: Feed, room: nat, actions: seq<Action>, r: Run)
    requires Reached(f, room, actions, r)
    ensures Invariant(r) && Closing(r)
  {
    BeginKeeps(f, room);
    RunKeeps(Begin(f, room), actions);
    ResentIsFresh(f, Client(|f.events|, Pipe([], room), true), |f.events|);
    ClosingKept(Begin(f, room), actions);
  }

  lemma GoneState(r: Run)
    requires Invariant(r) && Closing(r) && Told(r)
    ensures !r.client.live && !r.feed.isOpen
    ensures r.marks.a <= r.marks.b <= |History(r.feed)| && r.marks.p <= |History(r.feed)|
    ensures Since(r.client.pipe.sent) == History(r.feed)[r.marks.a..r.marks.b] + History(r.feed)[r.marks.p..]
    ensures HasRing(r) <==> r.marks.open || r.marks.p <= RingStart(|History(r.feed)|, r.feed.ring)
  {
    HasRingIff(r);
  }

  // A client told that the pane is gone has all the output since its receiver's
  // place at the last sentinel; it has the last `ring` bytes of the pane if and
  // only if the pane was open at that sentinel or that place is far enough back.
  lemma GoneHasRingIff(f: Feed, room: nat, actions: seq<Action>, r: Run)
    requires Reached(f, room, actions, r) && Told(r)
    ensures !r.client.live && !r.feed.isOpen
    ensures r.marks.a <= r.marks.b <= |History(r.feed)| && r.marks.p <= |History(r.feed)|
    ensures Since(r.client.pipe.sent) == History(r.feed)[r.marks.a..r.marks.b] + History(r.feed)[r.marks.p..]
    ensures HasRing(r) <==> r.marks.open || r.marks.p <= RingStart(|History(r.feed)|, r.feed.ring)
  {
    ReachableIsClosing(f, room, actions, r);
    GoneState(r);
  }

  // A lag handled after the close clears the screen and replays nothing.
  lemma LagAfterClose(r: Run)
    requires Invariant(r) && Lags(r.feed, r.client) && !r.feed.isOpen
    ensures var r' := Step(r, Deliver);
            !r'.marks.open && (r'.client.live ==> Since(r'.client.pipe.sent) == [])
  {
    LagKeeps(r);
    assert History(r.feed)[|History(r.feed)|..|History(r.feed)|] == [];
    SinceReplay(r.client.pipe.sent, []);
  }

  // So a client may be told that a pane is gone without a byte of it: the pane
  // writes one byte and closes before the client, whose channel holds a single
  // event, reads the first.
  lemma GoneWithNothing()
    ensures var r := Steps(Begin(Feed(0, 100, 1, [], [], true), 9),
                           [Emit(PtyOutput(0, [65])), Emit(PaneClosed(0)), Deliver, Deliver]);
            Told(r) && Since(r.client.pipe.sent) == [] && History(r.feed) == [65]
  {
    var f := Feed(0, 100, 1, [], [], true);
    var r0 := Begin(f, 9);
    var r1 := Step(r0, Emit(PtyOutput(0, [65])));
    var r2 := Step(r1, Emit(PaneClosed(0)));
    assert r2.feed.events == [PtyOutput(0, [65]), PaneClosed(0)];
    assert PaneBytes(0, [PaneClosed(0)]) == [];
    assert PaneBytes(0, r2.feed.events) == [65];
    var r3, r4 := Step(r2, Deliver), Step(Step(r2, Deliver), Deliver);
    assert r0.client.pipe.sent == [Sentinel] && r3.client.pipe.sent == [Sentinel, Sentinel];
    assert r4.client.pipe.sent == [Sentinel, Sentinel, PaneGone];
    assert r4.client.pipe.sent[2] == PaneGone;
    assert Since([Sentinel, Sentinel, PaneGone]) == [];
    FourSteps(r0, Emit(PtyOutput(0, [65])), Emit(PaneClosed(0)), Deliver, Deliver);
  }

  lemma FourSteps(r: Run, a: Action, b: Action, c: Action, d: Action)
    ensures Steps(r, [a, b, c, d]) == Step(Step(Step(Step(r, a), b), c), d)
  {
    var s1, s2 := Step(r, a), Step(Step(r, a), b);
    assert [a, b, c, d][1..] == [b, c, d] && [b, c, d][1..] == [c, d] && [c, d][1..] == [d] && [d][1..] == [];
    assert Steps(s1, [b, c, d]) == Steps(s2, [c, d]);
    assert Steps(s2, [c, d]) == Steps(Step(s2, c), [d]);
    assert Steps(Step(s2, c), [d]) == Step(Step(s2, c), d);
  }

  lemma SilentStep(r: Run, k: nat, a: Action)
    requires Invariant(r) && ClosedAt(r.feed, k) && k < r.client.cursor && !Told(r)
    ensures var r' := Step(r, a);
            ClosedAt(r'.feed, k) && k < r'.client.cursor && !Told(r')
  {
    if a.Deliver? {
      if Lags(r.feed, r.client) {
        LagKeeps(r);
      } else if Takes(r.feed, r.client) {
        assert !Concerns(r.feed, r.feed.events[r.client.cursor]);
      }
    }
  }

  // A client whose place is past the closing event is never told.
  lemma {:induction false} SkippedCloseIsSilent(r: Run, k: nat, actions: seq<Action>)
    requires Invariant(r) && ClosedAt(r.feed, k) && k < r.client.cursor && !Told(r)
    ensures !Told(Steps(r, actions))
    decreases |actions|
  {
    if actions != [] {
      StepKeeps(r, actions[0]);
      SilentStep(r, k, actions[0]);
      SkippedCloseIsSilent(Step(r, actions[0]), k, actions[1..]);
    }
  }

  function Deliveries(n: nat): seq<Action> {
    if n == 0 then [] else [Deliver] + Deliveries(n - 1)
  }

  lemma OneDelivery(r: Run, n: nat)
    requires n > 0
    ensures Steps(r, Deliveries(n)) == Steps(Step(r, Deliver), Deliveries(n - 1))
  {
    assert Deliveries(n)[1..] == Deliveries(n - 1);
  }

  lemma TakeOne(r: Run)
    requires Invariant(r) && Takes(r.feed, r.client) && r.client.pipe.room > 0
    ensures var r' := Step(r, Deliver);
            && Invariant(r') && r'.feed == r.feed && r'.client.cursor == r.client.cursor + 1
            && r'.client.pipe.room + 1 >= r.client.pipe.room
            && (r'.client.live <==> r.feed.events[r.client.cursor] != PaneClosed(r.feed.pane))
            && (Told(r') <==> r.feed.events[r.client.cursor] == PaneClosed(r.feed.pane))
  {
    DeliverKeeps(r);
    var r' := Step(r, Deliver);
    if r.feed.events[r.client.cursor] == PaneClosed(r.feed.pane) {
      assert r'.client.pipe.sent[|r.client.pipe.sent|] == PaneGone;
    }
  }

  lemma {:induction false} ToldFromHere(r: Run, k: nat, n: nat, end: Run)
    requires Invariant(r) && FirstClosedAt(r.feed, k) && r.client.live && Oldest(r.feed) <= r.client.cursor
    requires n == |r.feed.events| - r.client.cursor && n <= r.client.pipe.room && end == Steps(r, Deliveries(n))
    ensures Told(end) <==> r.client.cursor <= k
    decreases n
  {
    if n > 0 {
      var r' := Step(r, Deliver);
      OneDelivery(r, n);
      TakeOne(r);
      if r'.client.live {
        ToldFromHere(r', k, n - 1, end);
      } else {
        EndedStaysEnded(r', Deliveries(n - 1));
      }
    }
  }

  lemma ToldIffNotSkipped(r: Run, k: nat)
    requires Invariant(r) && FirstClosedAt(r.feed, k) && r.client.live && Oldest(r.feed) <= r.client.cursor
    requires |r.feed.events| - r.client.cursor <= r.client.pipe.room
    ensures Told(Steps(r, Deliveries(|r.feed.events| - r.client.cursor))) <==> r.client.cursor <= k
  {
    var n := |r.feed.events| - r.client.cursor;
    ToldFromHere(r, k, n, Steps(r, Deliveries(n)));
  }

  // In every reachable state r after the close: a client that is not behind and
  // whose connection lasts is told, once it has read all, if and only if its
  // place was not past the closing event k. If it was, it is never told.
  lemma ToldUnlessSkipped(f: Feed, room: nat, actions: seq<Action>, r: Run, later: seq<Action>) returns (k: nat)
    requires Reached(f, room, actions, r) && !r.feed.isOpen && r.client.live
    ensures ClosedAt(r.feed, k)
    ensures Oldest(r.feed) <= r.client.cursor && |r.feed.events| - r.client.cursor <= r.client.pipe.room ==>
              r.client.cursor <= |r.feed.events| &&
              (Told(Steps(r, Deliveries(|r.feed.events| - r.client.cursor))) <==> r.client.cursor <= k)
    ensures k < r.client.cursor ==> !Told(Steps(r, later))
  {
    ReachableIsClosing(f, room, actions, r);
    k :| FirstClosedAt(r.feed, k);
    if Oldest(r.feed) <= r.client.cursor && |r.feed.events| - r.client.cursor <= r.client.pipe.room {
      ToldIffNotSkipped(r, k);
    }
    if k < r.client.cursor {
      SkippedCloseIsSilent(r, k, later);
    }
  }
}
