/**
 Finding desktop notifications in raw terminal output: operating system
 commands (ESC ] body terminator) of kinds 9, 99 and 777. Sections 8.3.89 (OSC)
 and 8.3.143 (ST) of ECMA-48 give the form; BEL is accepted as a terminator too.
 */
module OscScanner {

  import opened Bytes
  import opened Wrappers

  const BEL: byte := 0x07
  const ESC: byte := 0x1b
  const BRACKET: byte := 0x5d
  const BACKSLASH: byte := 0x5c
  const SEMI: byte := 0x3b

  const NOTIFY_777: seq<byte> := [0x37, 0x37, 0x37, SEMI, 0x6e, 0x6f, 0x74, 0x69, 0x66, 0x79, SEMI]
  const NOTIFY_99: seq<byte> := [0x39, 0x39, SEMI]
  const NOTIFY_9: seq<byte> := [0x39, SEMI]
  const PROGRESS: seq<byte> := [0x34, SEMI]
  const FORGETTY: seq<byte> := [0x46, 0x6f, 0x72, 0x67, 0x65, 0x74, 0x74, 0x79]

  datatype Source = Osc9 | Osc99 | Osc777

  datatype Payload = Payload(title: seq<byte>, body: seq<byte>, source: Source)

  // ---------------------------------------------------------------------
  // The grammar
  // ---------------------------------------------------------------------

  // The complete commands of some output: where each starts, where its
  // terminator is, and what lies between.
  datatype Commands = NoMore | Command(start: nat, end: nat, body: seq<byte>, later: Commands)

  predicate StartAt(data: seq<byte>, i: nat) {
    i + 1 < |data| && data[i] == ESC && data[i + 1] == BRACKET
  }

  predicate EndAt(data: seq<byte>, j: nat) {
    j < |data| && (data[j] == BEL || (j + 1 < |data| && data[j] == ESC && data[j + 1] == BACKSLASH))
  }

  // The first start at or after pos.
  ghost predicate StartsAt(data: seq<byte>, pos: nat, start: nat) {
    pos <= start && StartAt(data, start) && forall i: nat :: pos <= i < start ==> !StartAt(data, i)
  }

  // The first terminator at or after pos.
  ghost predicate EndsAt(data: seq<byte>, pos: nat, end: nat) {
    pos <= end && EndAt(data, end) && forall j: nat :: pos <= j < end ==> !EndAt(data, j)
  }

  function AfterEnd(data: seq<byte>, end: nat): nat
    requires EndAt(data, end)
  {
    if data[end] == BEL then end + 1 else end + 2
  }

  ghost predicate FirstCommand(data: seq<byte>, pos: nat, start: nat, end: nat) {
    StartsAt(data, pos, start) && EndsAt(data, start + 2, end)
  }

  // `cs` are the commands from pos on, read from left to right: each runs from
  // the first start to the first terminator after it, the next is looked for
  // after the terminator, and one that is never terminated hides all the rest.
  ghost predicate Reading(data: seq<byte>, pos: nat, cs: Commands)
    decreases cs
  {
    match cs
    case NoMore => forall start: nat, end: nat :: !FirstCommand(data, pos, start, end)
    case Command(start, end, body, later) =>
      && FirstCommand(data, pos, start, end)
      && body == data[start + 2..end]
      && Reading(data, AfterEnd(data, end), later)
  }

  // ---------------------------------------------------------------------
  // Reading the commands
  // ---------------------------------------------------------------------

  function FirstStart(data: seq<byte>, i: nat): (k: nat)
    requires i <= |data|
    ensures i <= k <= |data| && (k < |data| ==> StartAt(data, k))
    decreases |data| - i
  {
    if i == |data| || StartAt(data, i) then i else FirstStart(data, i + 1)
  }

  function FirstEnd(data: seq<byte>, j: nat): (k: nat)
    requires j <= |data|
    ensures j <= k <= |data| && (k < |data| ==> EndAt(data, k))
    decreases |data| - j
  {
    if j == |data| || EndAt(data, j) then j else FirstEnd(data, j + 1)
  }

  lemma {:induction false} FirstStartIsFirst(data: seq<byte>, i: nat, k: nat)
    requires i <= |data|
    ensures StartsAt(data, i, k) <==> k == FirstStart(data, i) < |data|
    decreases |data| - i
  {
    if i < |data| && !StartAt(data, i) {
      FirstStartIsFirst(data, i + 1, k);
    }
  }

  lemma {:induction false} FirstEndIsFirst(data: seq<byte>, j: nat, k: nat)
    requires j <= |data|
    ensures EndsAt(data, j, k) <==> k == FirstEnd(data, j) < |data|
    decreases |data| - j
  {
    if j < |data| && !EndAt(data, j) {
      FirstEndIsFirst(data, j + 1, k);
    }
  }

  function CommandsFrom(data: seq<byte>, pos: nat): Commands
    requires pos <= |data|
    decreases |data| - pos
  {
    var start := FirstStart(data, pos);
    if start == |data| then NoMore
    else
      var end := FirstEnd(data, start + 2);
      if end == |data| then NoMore
      else Command(start, end, data[start + 2..end], CommandsFrom(data, AfterEnd(data, end)))
  }

  lemma FirstCommandIsFirst(data: seq<byte>, pos: nat, start: nat, end: nat)
    requires pos <= |data|
    ensures FirstCommand(data, pos, start, end)
       <==> start == FirstStart(data, pos) < |data| && end == FirstEnd(data, start + 2) < |data|
  {
    FirstStartIsFirst(data, pos, start);
    if start == FirstStart(data, pos) < |data| {
      FirstEndIsFirst(data, start + 2, end);
    }
  }

  // All output has exactly one reading.
  lemma {:induction false} OneReading(data: seq<byte>, pos: nat, cs: Commands)
    requires pos <= |data|
    ensures Reading(data, pos, cs) <==> cs == CommandsFrom(data, pos)
    decreases |data| - pos
  {
    forall start: nat, end: nat
      ensures FirstCommand(data, pos, start, end)
         <==> start == FirstStart(data, pos) < |data| && end == FirstEnd(data, start + 2) < |data|
    {
      FirstCommandIsFirst(data, pos, start, end);
    }
    var start := FirstStart(data, pos);
    if start < |data| {
      var end := FirstEnd(data, start + 2);
      assert FirstCommand(data, pos, start, end) <==> end < |data|;
    }
    if cs.Command? && FirstCommand(data, pos, cs.start, cs.end) {
      OneReading(data, AfterEnd(data, cs.end), cs.later);
    }
  }

  // What the first command that `parse` accepts says.
  function First<T>(cs: Commands, parse: seq<byte> -> Option<T>): Option<T> {
    match cs
    case NoMore => None
    case Command(_, _, body, later) => if parse(body).Some? then parse(body) else First(later, parse)
  }

  method FindTerminator(data: seq<byte>, from: nat) returns (end: Option<nat>)
    requires from <= |data|
    ensures end == if FirstEnd(data, from) < |data| then Some(FirstEnd(data, from)) else None
  {
    var j: nat := from;
    while j < |data|
      invariant from <= j <= |data| && FirstEnd(data, from) == FirstEnd(data, j)
    {
      if data[j] == BEL {
        return Some(j);
      }
      if j + 1 < |data| && data[j] == ESC && data[j + 1] == BACKSLASH {
        return Some(j);
      }
      j := j + 1;
    }
    end := None;
  }

  method Scan<T>(data: seq<byte>, parse: seq<byte> -> Option<T>) returns (found: Option<T>)
    ensures found == First(CommandsFrom(data, 0), parse)
  {
    var i: nat := 0;
    ghost var pos: nat := 0;
    while i + 1 < |data|
      invariant pos <= |data| && i <= |data| && FirstStart(data, pos) == FirstStart(data, i)
      invariant First(CommandsFrom(data, pos), parse) == First(CommandsFrom(data, 0), parse)
      decreases |data| - i
    {
      if data[i] != ESC || data[i + 1] != BRACKET {
        i := i + 1;
        continue;
      }
      var end := FindTerminator(data, i + 2);
      if end.None? {
        return None;
      }
      found := parse(data[i + 2..end.value]);
      if found.Some? {
        return;
      }
      SkipTerminator(data, end.value);
      i, pos := end.value + 1, AfterEnd(data, end.value);
    }
    found := None;
  }

  // After ST the scan goes on at its second byte, which starts nothing.
  lemma SkipTerminator(data: seq<byte>, end: nat)
    requires EndAt(data, end)
    ensures FirstStart(data, end + 1) == FirstStart(data, AfterEnd(data, end))
  {
  }

  // A command after other output is read first, and the scan goes on behind it.
  lemma CommandComesFirst(lead: seq<byte>, body: seq<byte>, st: bool, more: seq<byte>)
    requires NoStart(lead) && NoEnd(body)
    ensures var data := WithCommand(lead, body, st, more);
            var end := |lead| + 2 + |body|;
            && EndAt(data, end)
            && CommandsFrom(data, 0) == Command(|lead|, end, body, CommandsFrom(data, AfterEnd(data, end)))
  {
    var data := WithCommand(lead, body, st, more);
    var start, end := |lead|, |lead| + 2 + |body|;
    CommandBounds(lead, body, st, more);
    FirstStartIsFirst(data, 0, start);
    FirstEndIsFirst(data, start + 2, end);
    assert data[start + 2..end] == body;
  }

  lemma SentIsFound<T>(lead: seq<byte>, body: seq<byte>, st: bool, more: seq<byte>, parse: seq<byte> -> Option<T>)
    requires NoStart(lead) && NoEnd(body) && parse(body).Some?
    ensures First(CommandsFrom(WithCommand(lead, body, st, more), 0), parse) == parse(body)
  {
    CommandComesFirst(lead, body, st, more);
  }

  lemma OthersAreSkipped<T>(lead: seq<byte>, body: seq<byte>, st: bool, more: seq<byte>, parse: seq<byte> -> Option<T>)
    requires NoStart(lead) && NoEnd(body) && parse(body).None?
    ensures First(CommandsFrom(WithCommand(lead, body, st, more), 0), parse) == First(CommandsFrom(more, 0), parse)
  {
    CommandComesFirst(lead, body, st, more);
    assert WithCommand(lead, body, st, more)[|lead| + 2 + |body|] == Terminator(st)[0];
    FirstBehind(lead + [ESC, BRACKET] + body + Terminator(st), more, 0, parse, WithCommand(lead, body, st, more));
  }

  // What the output says from some place on does not depend on what is before it.
  lemma {:induction false} FirstBehind<T>(before: seq<byte>, data: seq<byte>, pos: nat, parse: seq<byte> -> Option<T>, whole: seq<byte>)
    requires pos <= |data| && whole == before + data
    ensures First(CommandsFrom(whole, |before| + pos), parse) == First(CommandsFrom(data, pos), parse)
    decreases |data| - pos
  {
    var start, end := CommandBehind(before, data, pos, whole);
    if start < |data| && end < |data| {
      FirstBehind(before, data, AfterEnd(data, end), parse, whole);
    }
  }

  lemma CommandBehind(before: seq<byte>, data: seq<byte>, pos: nat, whole: seq<byte>) returns (start: nat, end: nat)
    requires pos <= |data| && whole == before + data
    ensures pos <= start == FirstStart(data, pos) && |before| + start == FirstStart(whole, |before| + pos)
    ensures start < |data| ==>
              && start + 2 <= end == FirstEnd(data, start + 2) && |before| + end == FirstEnd(whole, |before| + start + 2)
    ensures start < |data| && end < |data| ==>
              && whole[|before| + start + 2..|before| + end] == data[start + 2..end]
              && AfterEnd(whole, |before| + end) == |before| + AfterEnd(data, end) <= |before| + |data|
  {
    start, end := FirstStart(data, pos), |data|;
    StartBehind(before, data, pos);
    if start < |data| {
      end := FirstEnd(data, start + 2);
      EndBehind(before, data, start + 2);
    }
  }

  lemma {:induction false} StartBehind(before: seq<byte>, data: seq<byte>, i: nat)
    requires i <= |data|
    ensures FirstStart(before + data, |before| + i) == |before| + FirstStart(data, i)
    decreases |data| - i
  {
    if i < |data| && !StartAt(data, i) {
      StartBehind(before, data, i + 1);
    }
  }

  lemma {:induction false} EndBehind(before: seq<byte>, data: seq<byte>, j: nat)
    requires j <= |data|
    ensures FirstEnd(before + data, |before| + j) == |before| + FirstEnd(data, j)
    decreases |data| - j
  {
    if j < |data| && !EndAt(data, j) {
      EndBehind(before, data, j + 1);
    }
  }

  // `lead` ESC ] `body` terminator `more`, where `st` tells ST from BEL.
  function WithCommand(lead: seq<byte>, body: seq<byte>, st: bool, more: seq<byte>): seq<byte> {
    lead + [ESC, BRACKET] + body + Terminator(st) + more
  }

  function Terminator(st: bool): seq<byte> {
    if st then [ESC, BACKSLASH] else [BEL]
  }

  ghost predicate NoStart(s: seq<byte>) {
    forall i: nat :: i < |s| ==> !StartAt(s, i)
  }

  ghost predicate NoEnd(s: seq<byte>) {
    forall j: nat :: j < |s| ==> !EndAt(s, j)
  }

  lemma CommandBounds(lead: seq<byte>, body: seq<byte>, st: bool, more: seq<byte>)
    requires NoStart(lead) && NoEnd(body)
    ensures var data := WithCommand(lead, body, st, more);
            StartsAt(data, 0, |lead|) && EndsAt(data, |lead| + 2, |lead| + 2 + |body|)
  {
    var data := WithCommand(lead, body, st, more);
    var from := |lead| + 2;
    forall i: nat | i < |lead|
      ensures !StartAt(data, i)
    {
      assert !StartAt(lead, i);
    }
    forall j: nat | from <= j < from + |body|
      ensures !EndAt(data, j)
    {
      assert !EndAt(body, j - from);
      assert data[j] == body[j - from];
      assert data[from + |body|] == Terminator(st)[0];
    }
  }

  // ---------------------------------------------------------------------
  // Notifications
  // ---------------------------------------------------------------------

  // The first semicolon at or after i, or the end.
  function FirstSemi(s: seq<byte>, i: nat): (k: nat)
    requires i <= |s|
    ensures i <= k <= |s|
    decreases |s| - i
  {
    if i == |s| || s[i] == SEMI then i else FirstSemi(s, i + 1)
  }

  // Where the text after the last semicolon at or after `from` begins.
  function AfterLastSemi(s: seq<byte>, from: nat, k: nat): (r: nat)
    requires from <= k <= |s|
    ensures from <= r <= k
    decreases k
  {
    if k == from || s[k - 1] == SEMI then k else AfterLastSemi(s, from, k - 1)
  }

  predicate IsProgress(text: seq<byte>) {
    PROGRESS <= text || text == [0x34]
  }

  function ParseOscBody(body: seq<byte>): Option<Payload> {
    if NOTIFY_777 <= body then
      var sep := FirstSemi(body, |NOTIFY_777|);
      var title := body[|NOTIFY_777|..sep];
      Some(Payload(title, if sep < |body| then body[sep + 1..] else [], Osc777))
    else if NOTIFY_99 <= body then
      Some(Payload(FORGETTY, body[AfterLastSemi(body, |NOTIFY_99|, |body|)..], Osc99))
    else if NOTIFY_9 <= body then
      var text := body[|NOTIFY_9|..];
      if IsProgress(text) then None else Some(Payload(FORGETTY, text, Osc9))
    else None
  }

  // The scan finds the first notification of the output.
  method ScanOscNotification(data: seq<byte>) returns (found: Option<Payload>)
    ensures found == First(CommandsFrom(data, 0), ParseOscBody)
  {
    found := Scan(data, ParseOscBody);
  }

  // OSC 9: the text is shown as sent.
  lemma Osc9RoundTrip(lead: seq<byte>, text: seq<byte>, st: bool, more: seq<byte>)
    requires NoStart(lead) && NoEnd(text) && !IsProgress(text)
    ensures First(CommandsFrom(WithCommand(lead, NOTIFY_9 + text, st, more), 0), ParseOscBody)
         == Some(Payload(FORGETTY, text, Osc9))
  {
    NoEndAfter(NOTIFY_9, text);
    Osc9Body(text);
    SentIsFound(lead, NOTIFY_9 + text, st, more, ParseOscBody);
  }

  // A progress report is passed over.
  lemma ProgressIsSkipped(lead: seq<byte>, text: seq<byte>, st: bool, more: seq<byte>)
    requires NoStart(lead) && NoEnd(text) && IsProgress(text)
    ensures First(CommandsFrom(WithCommand(lead, NOTIFY_9 + text, st, more), 0), ParseOscBody)
         == First(CommandsFrom(more, 0), ParseOscBody)
  {
    ProgressBody(text);
    OthersAreSkipped(lead, NOTIFY_9 + text, st, more, ParseOscBody);
  }

  lemma ProgressBody(text: seq<byte>)
    requires NoEnd(text) && IsProgress(text)
    ensures NoEnd(NOTIFY_9 + text) && ParseOscBody(NOTIFY_9 + text).None?
  {
    NoEndAfter(NOTIFY_9, text);
    Osc9Body(text);
  }

  lemma Osc9Body(text: seq<byte>)
    ensures ParseOscBody(NOTIFY_9 + text) == if IsProgress(text) then None else Some(Payload(FORGETTY, text, Osc9))
  {
    var body := NOTIFY_9 + text;
    assert body[|NOTIFY_9|..] == text;
    assert body[1] == SEMI && NOTIFY_777[1] != SEMI && NOTIFY_99[1] != SEMI;
  }

  // OSC 777: the title may not hold a semicolon, the body may.
  lemma Osc777RoundTrip(lead: seq<byte>, title: seq<byte>, text: seq<byte>, st: bool, more: seq<byte>)
    requires NoStart(lead) && NoEnd(title) && NoEnd(text) && SEMI !in title
    ensures First(CommandsFrom(WithCommand(lead, NOTIFY_777 + Parted(title, text), st, more), 0), ParseOscBody)
         == Some(Payload(title, text, Osc777))
  {
    NoEndParted(title, text);
    NoEndAfter(NOTIFY_777, Parted(title, text));
    Osc777Body(title, text);
    SentIsFound(lead, NOTIFY_777 + Parted(title, text), st, more, ParseOscBody);
  }

  lemma Osc777Body(title: seq<byte>, text: seq<byte>)
    requires SEMI !in title
    ensures ParseOscBody(NOTIFY_777 + Parted(title, text)) == Some(Payload(title, text, Osc777))
  {
    var body := NOTIFY_777 + Parted(title, text);
    var n := |NOTIFY_777|;
    FirstSemiIs(body, n, n + |title|);
    assert body[n..n + |title|] == title && body[n + |title| + 1..] == text;
  }

  lemma {:induction false} FirstSemiIs(s: seq<byte>, i: nat, n: nat)
    requires i <= n < |s| && s[n] == SEMI && forall k :: i <= k < n ==> s[k] != SEMI
    ensures FirstSemi(s, i) == n
    decreases n - i
  {
    if i < n {
      FirstSemiIs(s, i + 1, n);
    }
  }

  // OSC 99: of the fields the last one is shown.
  lemma Osc99RoundTrip(lead: seq<byte>, params: seq<byte>, text: seq<byte>, st: bool, more: seq<byte>)
    requires NoStart(lead) && NoEnd(params) && NoEnd(text) && SEMI !in text
    ensures First(CommandsFrom(WithCommand(lead, NOTIFY_99 + Parted(params, text), st, more), 0), ParseOscBody)
         == Some(Payload(FORGETTY, text, Osc99))
  {
    NoEndParted(params, text);
    NoEndAfter(NOTIFY_99, Parted(params, text));
    Osc99Body(params, text);
    SentIsFound(lead, NOTIFY_99 + Parted(params, text), st, more, ParseOscBody);
  }

  lemma Osc99Body(params: seq<byte>, text: seq<byte>)
    requires SEMI !in text
    ensures ParseOscBody(NOTIFY_99 + Parted(params, text)) == Some(Payload(FORGETTY, text, Osc99))
  {
    var body := NOTIFY_99 + Parted(params, text);
    var n := |NOTIFY_99| + |params| + 1;
    assert body[0] == NOTIFY_99[0] && NOTIFY_777[0] != NOTIFY_99[0];
    assert body[n..] == text;
    assert forall k :: n <= k < |body| ==> body[k] == text[k - n];
    AfterLastSemiIs(body, |NOTIFY_99|, n, |body|);
  }

  lemma {:induction false} AfterLastSemiIs(s: seq<byte>, from: nat, n: nat, k: nat)
    requires from < n <= k <= |s| && s[n - 1] == SEMI && forall m :: n <= m < k ==> s[m] != SEMI
    ensures AfterLastSemi(s, from, k) == n
    decreases k
  {
    if n < k {
      AfterLastSemiIs(s, from, n, k - 1);
    }
  }

  // The bytes of a text in ASCII.
  function Ascii(text: string): seq<byte>
    requires forall i :: 0 <= i < |text| ==> text[i] < '\U{0080}'
  {
    seq(|text|, i requires 0 <= i < |text| => text[i] as int as byte)
  }

  lemma KindsInAscii()
    ensures NOTIFY_777 == Ascii("777;notify;")
    ensures NOTIFY_99 == Ascii("99;") && NOTIFY_9 == Ascii("9;") && [SEMI] == Ascii(";")
    ensures FORGETTY == Ascii("Forgetty")
    ensures [ESC, BRACKET] == Ascii("\U{001B}]") && Terminator(true) == Ascii("\U{001B}\\") && Terminator(false) == Ascii("\U{0007}")
  {
  }

  // A progress report is a 4, alone or before a semicolon.
  lemma ProgressTexts(text: seq<byte>)
    ensures IsProgress(text) <==> text == Ascii("4") || exists rest :: text == Ascii("4;") + rest
  {
    if PROGRESS <= text {
      assert text == Ascii("4;") + text[2..];
    }
  }

  // Nothing else is a notification.
  lemma NotificationKinds(body: seq<byte>)
    ensures ParseOscBody(body).Some? <==>
            || Ascii("777;notify;") <= body || Ascii("99;") <= body
            || (Ascii("9;") <= body && body != Ascii("9;4") && !(Ascii("9;4;") <= body))
  {
    KindsInAscii();
    if NOTIFY_9 <= body {
      var text := body[2..];
      assert body == Ascii("9;") + text;
      assert text == Ascii("4") <==> body == Ascii("9;4");
      assert PROGRESS <= text <==> Ascii("9;4;") <= body by {
        assert Ascii("9;4;") == NOTIFY_9 + PROGRESS;
        assert Ascii("9;4;") <= body ==> text == PROGRESS + body[4..];
        assert PROGRESS <= text ==> body == Ascii("9;4;") + text[2..];
      }
    }
  }

  // Without a further semicolon all of the rest is the title of the one kind...
  lemma TitleOnly(text: seq<byte>)
    requires SEMI !in text
    ensures ParseOscBody(NOTIFY_777 + text) == Some(Payload(text, [], Osc777))
  {
    var body := NOTIFY_777 + text;
    NoSemi(body, |NOTIFY_777|);
    assert body[|NOTIFY_777|..|body|] == text;
  }

  // ... and the text of the other.
  lemma TextOnly(text: seq<byte>)
    requires SEMI !in text
    ensures ParseOscBody(NOTIFY_99 + text) == Some(Payload(FORGETTY, text, Osc99))
  {
    var body := NOTIFY_99 + text;
    assert body[0] == NOTIFY_99[0] && NOTIFY_777[0] != NOTIFY_99[0];
    NoLastSemi(body, |NOTIFY_99|, |body|);
    assert body[|NOTIFY_99|..] == text;
  }

  lemma {:induction false} NoSemi(s: seq<byte>, i: nat)
    requires i <= |s| && forall k :: i <= k < |s| ==> s[k] != SEMI
    ensures FirstSemi(s, i) == |s|
    decreases |s| - i
  {
    if i < |s| {
      NoSemi(s, i + 1);
    }
  }

  lemma {:induction false} NoLastSemi(s: seq<byte>, from: nat, k: nat)
    requires from <= k <= |s| && forall m :: from <= m < k ==> s[m] != SEMI
    ensures AfterLastSemi(s, from, k) == from
    decreases k
  {
    if from < k {
      NoLastSemi(s, from, k - 1);
    }
  }

  // The three kinds as they are sent, ended by BEL or by ST.
  lemma InAscii(lead: seq<byte>, text: seq<byte>, st: bool, more: seq<byte>)
    ensures var end := if st then Ascii("\U{001B}\\") else Ascii("\U{0007}");
            && WithCommand(lead, NOTIFY_9 + text, st, more) == lead + Ascii("\U{001B}]9;") + text + end + more
            && WithCommand(lead, NOTIFY_99 + text, st, more) == lead + Ascii("\U{001B}]99;") + text + end + more
            && WithCommand(lead, NOTIFY_777 + text, st, more) == lead + Ascii("\U{001B}]777;notify;") + text + end + more
  {
    KindsInAscii();
    Regroup(lead, NOTIFY_9, text, Terminator(st), more, Ascii("\U{001B}]9;"));
    Regroup(lead, NOTIFY_99, text, Terminator(st), more, Ascii("\U{001B}]99;"));
    Regroup(lead, NOTIFY_777, text, Terminator(st), more, Ascii("\U{001B}]777;notify;"));
  }

  lemma Regroup(lead: seq<byte>, kind: seq<byte>, text: seq<byte>, end: seq<byte>, more: seq<byte>, start: seq<byte>)
    requires start == [ESC, BRACKET] + kind
    ensures lead + [ESC, BRACKET] + (kind + text) + end + more == lead + start + text + end + more
  {
  }

  // Two fields.
  function Parted(a: seq<byte>, b: seq<byte>): seq<byte> {
    a + [SEMI] + b
  }

  lemma NoEndParted(a: seq<byte>, b: seq<byte>)
    requires NoEnd(a) && NoEnd(b)
    ensures NoEnd(Parted(a, b))
  {
    var s := Parted(a, b);
    forall j: nat | j < |s|
      ensures !EndAt(s, j)
    {
      if j < |a| {
        assert !EndAt(a, j);
        assert s[j] == a[j] && (j + 1 < |a| ==> s[j + 1] == a[j + 1]) && s[|a|] == SEMI;
      } else if j > |a| {
        assert !EndAt(b, j - |a| - 1);
      }
    }
  }

  lemma NoEndAfter(prefix: seq<byte>, text: seq<byte>)
    requires prefix in {NOTIFY_777, NOTIFY_99, NOTIFY_9} && NoEnd(text)
    ensures NoEnd(prefix + text)
  {
    var s := prefix + text;
    forall j: nat | j < |s|
      ensures !EndAt(s, j)
    {
      if j >= |prefix| {
        assert !EndAt(text, j - |prefix|);
      } else {
        assert s[j] != BEL && s[j] != ESC;
      }
    }
  }
}
