/**
 Length-prefixed frames: a big-endian 32-bit length and that many bytes. The
 reader skips empty frames, stops at the end of the stream even inside a frame,
 and gives up on a frame longer than 4 MiB.
 */
module Framing {

  import opened Bytes
  import opened Sequences

  const MAX_FRAME_SIZE: nat := 4 * 1024 * 1024
  const U32: nat := 0x1_0000_0000

  function ToBeBytes(n: nat): (r: seq<byte>)
    requires n < U32
    ensures |r| == 4
  {
    [(n / 0x100_0000) as byte, (n / 0x1_0000 % 0x100) as byte, (n / 0x100 % 0x100) as byte, (n % 0x100) as byte]
  }

  function FromBeBytes(s: seq<byte>): (n: nat)
    requires |s| == 4
    ensures n < U32
  {
    s[0] as nat * 0x100_0000 + s[1] as nat * 0x1_0000 + s[2] as nat * 0x100 + s[3] as nat
  }

  lemma BeBytesRoundTrip(n: nat)
    requires n < U32
    ensures FromBeBytes(ToBeBytes(n)) == n
  {
    var hi, lo := n / 0x1_0000, n % 0x1_0000;
    assert n / 0x100 % 0x100 == lo / 0x100;
    assert n / 0x100_0000 == hi / 0x100;
    assert hi == hi / 0x100 * 0x100 + hi % 0x100;
    assert lo == lo / 0x100 * 0x100 + lo % 0x100;
    assert n % 0x100 == lo % 0x100;
  }

  // The writer casts the length to 32 bits and sends the payload whole.
  function Frame(payload: seq<byte>): seq<byte> {
    ToBeBytes(|payload| % U32) + payload
  }

  // The most significant byte comes first, and the length before the payload.
  lemma BytesInOrder(payload: seq<byte>)
    ensures ToBeBytes(0x01020304) == [1, 2, 3, 4] && FromBeBytes([1, 2, 3, 4]) == 0x01020304
    ensures |payload| < 256 ==> Frame(payload) == [0, 0, 0, |payload| as byte] + payload
  {
  }

  // Of a payload of 4 GiB or more only the rest of its length is announced.
  lemma LengthIsCast(payload: seq<byte>)
    ensures |Frame(payload)| == 4 + |payload| && Frame(payload)[4..] == payload
    ensures FromBeBytes(Frame(payload)[..4]) == |payload| % 4294967296
  {
    BeBytesRoundTrip(|payload| % U32);
    assert Frame(payload)[..4] == ToBeBytes(|payload| % U32);
  }

  function Stream(payloads: seq<seq<byte>>): seq<byte> {
    if payloads == [] then [] else Frame(payloads[0]) + Stream(payloads[1..])
  }

  // What a reader has passed on, and whether it stopped over a long frame.
  datatype Reading = Reading(frames: seq<seq<byte>>, tooLong: bool)

  function Prepend(frame: seq<byte>, r: Reading): Reading {
    if frame == [] then r else r.(frames := [frame] + r.frames)
  }

  // What the reader makes of a stream that ends after these bytes, from a place
  // in it.
  function ReadFrom(s: seq<byte>, at: nat): Reading
    requires at <= |s|
    decreases |s| - at
  {
    if |s| - at < 4 then Reading([], false)
    else
      var len := FromBeBytes(s[at..at + 4]);
      if len > MAX_FRAME_SIZE then Reading([], true)
      else if |s| - at - 4 < len then Reading([], false)
      else Prepend(s[at + 4..at + 4 + len], ReadFrom(s, at + 4 + len))
  }

  function Read(s: seq<byte>): Reading {
    ReadFrom(s, 0)
  }

  // Frames already passed on, followed by a further reading.
  function Join(sent: seq<seq<byte>>, r: Reading): Reading {
    Reading(sent + r.frames, r.tooLong)
  }

  lemma NothingSent(s: seq<byte>)
    ensures Join([], ReadFrom(s, 0)) == ReadFrom(s, 0)
  {
    assert [] + ReadFrom(s, 0).frames == ReadFrom(s, 0).frames;
  }

  // One turn of the reader: it stops, ...
  lemma TurnStops(s: seq<byte>, at: nat, sent: seq<seq<byte>>)
    requires at <= |s| && (|s| - at < 4 || FromBeBytes(s[at..at + 4]) > |s| - at - 4)
    ensures Join(sent, ReadFrom(s, at))
         == Reading(sent, |s| - at >= 4 && FromBeBytes(s[at..at + 4]) > MAX_FRAME_SIZE)
  {
    assert sent + [] == sent;
  }

  // ... refuses a frame that is there but too long, ...
  lemma TurnRefuses(s: seq<byte>, at: nat, sent: seq<seq<byte>>)
    requires at + 4 <= |s| && FromBeBytes(s[at..at + 4]) > MAX_FRAME_SIZE
    ensures Join(sent, ReadFrom(s, at)) == Reading(sent, true)
  {
    assert sent + [] == sent;
  }

  // ... or reads one frame, of which an empty one is not passed on.
  lemma TurnReads(s: seq<byte>, at: nat, len: nat, sent: seq<seq<byte>>)
    requires at + 4 + len <= |s| && len == FromBeBytes(s[at..at + 4]) <= MAX_FRAME_SIZE
    ensures var payload, rest := s[at + 4..at + 4 + len], ReadFrom(s, at + 4 + len);
            Join(sent, ReadFrom(s, at)) == Join(if len == 0 then sent else sent + [payload], rest)
  {
    var payload, rest := s[at + 4..at + 4 + len], ReadFrom(s, at + 4 + len);
    assert len == 0 <==> payload == [];
    assert sent + ([payload] + rest.frames) == (sent + [payload]) + rest.frames;
  }

  method SubscribeOutputInner(s: seq<byte>) returns (sent: seq<seq<byte>>, tooLong: bool)
    ensures Reading(sent, tooLong) == Read(s)
  {
    sent := [];
    NothingSent(s);
    var at: nat := 0;
    while true
      invariant at <= |s| && Join(sent, ReadFrom(s, at)) == Read(s)
      decreases |s| - at
    {
      if |s| - at < 4 {
        TurnStops(s, at, sent);
        return sent, false;
      }
      var len := FromBeBytes(s[at..at + 4]);
      if len > MAX_FRAME_SIZE {
        TurnRefuses(s, at, sent);
        return sent, true;
      }
      if len == 0 {
        TurnReads(s, at, len, sent);
        at := at + 4;
        continue;
      }
      if |s| - at - 4 < len {
        TurnStops(s, at, sent);
        return sent, false;
      }
      TurnReads(s, at, len, sent);
      sent := sent + [s[at + 4..at + 4 + len]];
      at := at + 4 + len;
    }
  }

  // ---------------------------------------------------------------------
  // Round trips
  // ---------------------------------------------------------------------

  // The non-empty payloads before the first that is too long.
  function Delivered(payloads: seq<seq<byte>>): Reading {
    if payloads == [] then Reading([], false)
    else if |payloads[0]| > MAX_FRAME_SIZE then Reading([], true)
    else Prepend(payloads[0], Delivered(payloads[1..]))
  }

  // What comes before the place does not matter.
  lemma {:induction false} ReadBehind(a: seq<byte>, b: seq<byte>, at: nat)
    requires at <= |b|
    ensures ReadFrom(a + b, |a| + at) == ReadFrom(b, at)
    decreases |b| - at
  {
    if |b| - at >= 4 {
      SliceBehind(a, b, at, at + 4);
      var len := FromBeBytes(b[at..at + 4]);
      if len <= MAX_FRAME_SIZE && |b| - at - 4 >= len {
        SliceBehind(a, b, at + 4, at + 4 + len);
        ReadBehind(a, b, at + 4 + len);
      }
    }
  }

  lemma ReadOneFrame(payload: seq<byte>, rest: seq<byte>)
    requires |payload| < U32
    ensures Read(Frame(payload) + rest) == if |payload| > MAX_FRAME_SIZE then Reading([], true) else Prepend(payload, Read(rest))
  {
    var s, len := Frame(payload) + rest, |payload|;
    assert s[0..4] == ToBeBytes(len) && s[4..4 + len] == payload;
    BeBytesRoundTrip(len);
    if len <= MAX_FRAME_SIZE {
      ReadBehind(Frame(payload), rest, 0);
    }
  }

  // Whatever is written, the reader passes on exactly the non-empty payloads
  // up to the first one over the limit, and stops over that one.
  lemma {:induction false} ReadBackStream(payloads: seq<seq<byte>>)
    requires forall i :: 0 <= i < |payloads| ==> |payloads[i]| < U32
    ensures Read(Stream(payloads)) == Delivered(payloads)
  {
    if payloads != [] {
      ReadBackStream(payloads[1..]);
      ReadOneFrame(payloads[0], Stream(payloads[1..]));
    }
  }

  function NonEmpty(payloads: seq<seq<byte>>): seq<seq<byte>> {
    if payloads == [] then []
    else (if payloads[0] == [] then [] else [payloads[0]]) + NonEmpty(payloads[1..])
  }

  // Nothing is lost or refused if and only if every payload keeps the limit.
  lemma {:induction false} AllDeliveredIffWithinLimit(payloads: seq<seq<byte>>)
    requires forall i :: 0 <= i < |payloads| ==> |payloads[i]| < U32
    ensures Read(Stream(payloads)) == Reading(NonEmpty(payloads), false) <==>
            forall i :: 0 <= i < |payloads| ==> |payloads[i]| <= 4194304
  {
    ReadBackStream(payloads);
    DeliveredWithinLimit(payloads);
  }

  lemma {:induction false} DeliveredWithinLimit(payloads: seq<seq<byte>>)
    ensures Delivered(payloads).tooLong <==> exists i :: 0 <= i < |payloads| && |payloads[i]| > MAX_FRAME_SIZE
    ensures !Delivered(payloads).tooLong ==> Delivered(payloads).frames == NonEmpty(payloads)
  {
    if payloads != [] {
      DeliveredWithinLimit(payloads[1..]);
      assert forall i :: 0 < i < |payloads| ==> payloads[i] == payloads[1..][i - 1];
    }
  }

  // Cutting any stream short, at any byte, only takes frames off the end.
  lemma TruncationReadsPrefix(s: seq<byte>, n: nat)
    requires n <= |s|
    ensures Read(s[..n]).frames <= Read(s).frames
    ensures Read(s[..n]).tooLong ==> Read(s).tooLong && Read(s[..n]) == Read(s)
  {
    TruncatedFrom(s[..n], s[n..], 0);
    assert s[..n] + s[n..] == s;
  }

  // The first reading is a beginning of the second, and the whole of it if it
  // stopped over a long frame.
  ghost predicate Begins(a: Reading, b: Reading) {
    a.frames <= b.frames && (a.tooLong ==> a == b)
  }

  lemma PrependBegins(frame: seq<byte>, a: Reading, b: Reading)
    requires Begins(a, b)
    ensures Begins(Prepend(frame, a), Prepend(frame, b))
  {
  }

  lemma {:induction false} TruncatedFrom(s: seq<byte>, cut: seq<byte>, at: nat)
    requires at <= |s|
    ensures Begins(ReadFrom(s, at), ReadFrom(s + cut, at))
    decreases |s| - at
  {
    if |s| - at >= 4 {
      SliceBefore(s, cut, at, at + 4);
      var len := FromBeBytes(s[at..at + 4]);
      if len <= MAX_FRAME_SIZE && |s| - at - 4 >= len {
        SliceBefore(s, cut, at + 4, at + 4 + len);
        TruncatedFrom(s, cut, at + 4 + len);
        PrependBegins(s[at + 4..at + 4 + len], ReadFrom(s, at + 4 + len), ReadFrom(s + cut, at + 4 + len));
      }
    }
  }

  // A replay, cut into chunks, framed, and read back, is the same bytes.
  lemma ReplayThroughCodec(replay: seq<byte>)
    ensures var r := Read(Stream(Chunks(replay, REPLAY_CHUNK_SIZE)));
            !r.tooLong && Concat(r.frames) == replay
    ensures forall i :: 0 <= i < |Chunks(replay, REPLAY_CHUNK_SIZE)| ==>
              |Frame(Chunks(replay, REPLAY_CHUNK_SIZE)[i])| <= 4 + REPLAY_CHUNK_SIZE
  {
    var chunks := Chunks(replay, REPLAY_CHUNK_SIZE);
    ChunksAreBounded(replay, REPLAY_CHUNK_SIZE);
    ChunksJoin(replay, REPLAY_CHUNK_SIZE);
    AllDeliveredIffWithinLimit(chunks);
    NoneEmpty(chunks);
  }

  lemma {:induction false} NoneEmpty(payloads: seq<seq<byte>>)
    requires forall i :: 0 <= i < |payloads| ==> payloads[i] != []
    ensures NonEmpty(payloads) == payloads
  {
    if payloads != [] {
      NoneEmpty(payloads[1..]);
    }
  }
}
