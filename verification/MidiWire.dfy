/** The wire forms of channel messages: real-time bytes and quarter-frame pairs anywhere, status bytes
    repeated or left out (MIDI 1.0 Detailed Specification, "Running Status" and "System Real Time"). */
module MidiWire {
  import opened Bytes
  import opened MidiParser

  // ---------------------------------------------------------------- interleaved bytes

  /** The callbacks of real-time bytes and quarter frames. */
  predicate IsSide(c: Callback) {
    c.TimeCode? || c.category == CAT_MTC || (c.category == CAT_REALTIME && c.msg >= 248)
  }

  /** The callbacks that are side callbacks, or that are not. */
  function Select(calls: seq<Callback>, side: bool): seq<Callback> {
    if calls == [] then []
    else (if IsSide(calls[0]) == side then [calls[0]] else []) + Select(calls[1..], side)
  }

  /** The byte stream without real-time bytes and without F1 and its data byte; `f1` says that the F1
      has been seen. */
  function Core(bytes: seq<byte>, f1: bool): seq<byte> {
    if bytes == [] then []
    else if bytes[0] >= 248 then Core(bytes[1..], f1)
    else if bytes[0] == 241 then Core(bytes[1..], true)
    else if f1 then Core(bytes[1..], false)
    else [bytes[0]] + Core(bytes[1..], false)
  }

  /** The callbacks the removed bytes call for, in order. */
  function SideCalls(bytes: seq<byte>, f1: bool, hasMtc: bool, mtc: MtcState): seq<Callback> {
    if bytes == [] || (bytes[0] == 254) then if bytes == [] then [] else SideCalls(bytes[1..], f1, hasMtc, mtc)
    else if bytes[0] >= 248 then [Message(CAT_REALTIME, bytes[0], 0, [0, 0, 0])]
      + SideCalls(bytes[1..], f1, hasMtc, mtc)
    else if bytes[0] == 241 then SideCalls(bytes[1..], true, hasMtc, mtc)
    else if !f1 then SideCalls(bytes[1..], false, hasMtc, mtc)
    else if hasMtc then MtcMessage(mtc, bytes[0]).1 + SideCalls(bytes[1..], false, hasMtc, MtcMessage(mtc, bytes[0]).0)
    else [Message(CAT_MTC, 0xF1, 0, [bytes[0], 0, 0])] + SideCalls(bytes[1..], false, hasMtc, mtc)
  }

  lemma {:induction false} SelectConcat(a: seq<Callback>, b: seq<Callback>, side: bool)
    ensures Select(a + b, side) == Select(a, side) + Select(b, side)
  {
    if a == [] {
      assert a + b == b;
    } else {
      assert (a + b)[1..] == a[1..] + b;
      SelectConcat(a[1..], b, side);
      Assoc(if IsSide(a[0]) == side then [a[0]] else [], Select(a[1..], side), Select(b, side));
    }
  }

  /** Equal but for what the side bytes touch. */
  predicate Same(p: Parser, q: Parser) {
    p == q.(f1Flag := p.f1Flag, mtc := p.mtc)
  }

  /** A byte of the core moves both parsers alike and makes no side callback. */
  lemma CoreStep(p: Parser, q: Parser, data: byte)
    requires p.Valid() && q.Valid() && Same(p, q) && !p.f1Flag && !q.f1Flag && data < 248 && data != 241
    ensures var r, t := Step(p, data), Step(q, data);
      && Same(r.0, t.0) && r.1 == t.1 && r.0.mtc == p.mtc && !r.0.f1Flag && !t.0.f1Flag
      && |r.1| <= 1 && (r.1 != [] ==> !IsSide(r.1[0]))
  {
  }

  /** A removed byte leaves everything else alone and makes only side callbacks. */
  lemma SideStep(p: Parser, data: byte)
    requires p.Valid() && (data >= 248 || data == 241 || p.f1Flag)
    ensures var r := Step(p, data);
      && Same(r.0, p)
      && r.0.f1Flag == (if data >= 248 then p.f1Flag else data == 241)
      && r.0.mtc == (if data < 248 && data != 241 && p.hasMtc then MtcMessage(p.mtc, data).0 else p.mtc)
      && |r.1| <= 1 && (r.1 != [] ==> IsSide(r.1[0]))
  {
  }

  lemma SelectOne(calls: seq<Callback>, side: bool)
    requires |calls| <= 1 && (calls != [] ==> IsSide(calls[0]) == side)
    ensures Select(calls, side) == calls && Select(calls, !side) == []
  {
    if calls != [] {
      assert calls == [calls[0]];
    }
  }

  /** What is claimed of `bytes`, for two parsers that differ in what side bytes touch. */
  ghost predicate Apart(p: Parser, q: Parser, bytes: seq<byte>)
    requires p.Valid() && q.Valid()
  {
    var all, core := Feed(p, bytes), Feed(q, Core(bytes, p.f1Flag));
    && Select(all.1, false) == core.1
    && Select(all.1, true) == SideCalls(bytes, p.f1Flag, p.hasMtc, p.mtc)
    && Same(all.0, core.0)
  }

  lemma SideApart(p: Parser, q: Parser, data: byte, rest: seq<byte>)
    requires p.Valid() && q.Valid() && (data >= 248 || data == 241 || p.f1Flag) && Apart(Step(p, data).0, q, rest)
    ensures Apart(p, q, [data] + rest)
  {
    var r := Step(p, data);
    FeedFirst(p, data, rest);
    SideStep(p, data);
    SelectOne(r.1, true);
    SelectConcat(r.1, Feed(r.0, rest).1, false);
    SelectConcat(r.1, Feed(r.0, rest).1, true);
    assert ([data] + rest)[1..] == rest;
  }

  /** Core callbacks before others. */
  lemma CoreCalls(first: seq<Callback>, more: seq<Callback>)
    requires |first| <= 1 && (first != [] ==> !IsSide(first[0]))
    ensures Select(first + more, false) == first + Select(more, false)
    ensures Select(first + more, true) == Select(more, true)
  {
    SelectOne(first, false);
    SelectConcat(first, more, false);
    SelectConcat(first, more, true);
    assert [] + Select(more, true) == Select(more, true);
  }

  lemma CoreApart(p: Parser, q: Parser, data: byte, rest: seq<byte>)
    requires p.Valid() && q.Valid() && Same(p, q) && data < 248 && data != 241 && !p.f1Flag && !q.f1Flag
    requires Apart(Step(p, data).0, Step(q, data).0, rest)
    ensures Apart(p, q, [data] + rest)
  {
    var r, t := Step(p, data), Step(q, data);
    CoreStep(p, q, data);
    FeedFirst(p, data, rest);
    FeedFirst(q, data, Core(rest, false));
    CoreCalls(r.1, Feed(r.0, rest).1);
    assert ([data] + rest)[1..] == rest;
  }

  lemma {:induction false} Interleaved(p: Parser, q: Parser, bytes: seq<byte>)
    requires p.Valid() && q.Valid() && Same(p, q) && !q.f1Flag
    ensures Apart(p, q, bytes)
    decreases bytes
  {
    if bytes != [] {
      var data, rest := bytes[0], bytes[1..];
      assert bytes == [data] + rest;
      if data >= 248 || data == 241 || p.f1Flag {
        SideStep(p, data);
        Interleaved(Step(p, data).0, q, rest);
        SideApart(p, q, data, rest);
      } else {
        CoreStep(p, q, data);
        Interleaved(Step(p, data).0, Step(q, data).0, rest);
        CoreApart(p, q, data, rest);
      }
    }
  }

  // ---------------------------------------------------------------- channel messages

  datatype ChannelMessage = ChannelMessage(status: byte, data1: byte, data2: byte) {
    predicate Valid() {
      128 <= status < 240 && data1 < 128 && data2 < 128 && (Size() == 1 ==> data2 == 0)
    }

    function Size(): int
      requires 128 <= status < 240
    {
      DataBytes(status)
    }
  }

  /** What a channel message means to the client: its category, code, channel and parameters. A note on
      with velocity 0 is a note off with velocity 64. */
  function Meaning(m: ChannelMessage): Callback {
    var code := m.status / 16 * 16;
    var off := code == 0x90 && m.data2 == 0;
    Message(if 0xB0 <= code <= 0xD0 then CAT_CHN else CAT_VOICE, if off then 0x80 else code, m.status % 16,
            [m.data1, if off then 64 else m.data2, 0])
  }

  /** A message as it stands on the wire, with or without its status byte. */
  datatype Form = Form(message: ChannelMessage, dropped: bool) {
    function Bytes(): seq<byte>
      requires message.Valid()
    {
      (if dropped then [] else [message.status]) + [message.data1] + if message.Size() == 2 then [message.data2] else []
    }

    /** The parser's running status does not work for messages with one data byte. */
    predicate Supported() {
      dropped ==> !(192 <= message.status < 224)
    }
  }

  /** Only a status byte equal to the one before may be left out. */
  predicate Admissible(forms: seq<Form>, current: byte) {
    forms != [] ==>
      && forms[0].message.Valid()
      && (forms[0].dropped ==> forms[0].message.status == current)
      && Admissible(forms[1..], forms[0].message.status)
  }

  function Wire(forms: seq<Form>, current: byte): seq<byte>
    requires Admissible(forms, current)
  {
    if forms == [] then [] else forms[0].Bytes() + Wire(forms[1..], forms[0].message.status)
  }

  function Meanings(forms: seq<Form>): (r: seq<Callback>)
    ensures |r| == |forms|
  {
    if forms == [] then [] else [Meaning(forms[0].message)] + Meanings(forms[1..])
  }

  /** Between messages, with `status` as running status. */
  predicate Ready(p: Parser, status: byte) {
    p.Valid() && p.scan == Init && !p.f1Flag && p.prevStatus == status
  }

  /** A song position has two data bytes, a song select one: both are reported whole, and the running status
      is as it was. */
  lemma CommonParses(p: Parser, msg: seq<byte>)
    requires Ready(p, p.prevStatus) && ((|msg| == 3 && msg[0] == 242) || (|msg| == 2 && msg[0] == 243))
    requires forall i :: 1 <= i < |msg| ==> msg[i] < 128
    ensures Feed(p, msg).1 == [Message(CAT_REALTIME, msg[0], 0, msg)] && Ready(Feed(p, msg).0, p.prevStatus)
  {
    var q := Step(p, msg[0]).0;
    assert msg == [msg[0]] + msg[1..] && q.buf == [msg[0]] && Step(p, msg[0]).1 == [];
    FeedFirst(p, msg[0], msg[1..]);
    if |msg| == 2 {
      CommonEnds(q, msg[1]);
      assert msg[1..] == [msg[1]] && q.buf + [msg[1]] == msg;
    } else {
      var r := Step(q, msg[1]).0;
      assert msg[1..] == [msg[1]] + [msg[2]] && r.buf == [msg[0]] + [msg[1]] && Step(q, msg[1]).1 == [];
      FeedFirst(q, msg[1], [msg[2]]);
      CommonEnds(r, msg[2]);
      assert r.buf + [msg[2]] == msg;
    }
  }

  lemma CommonEnds(p: Parser, data: byte)
    requires p.Valid() && p.scan == InData && !p.f1Flag && p.left == 1 && data < 128 && p.buf[0] >= 240
    ensures Feed(p, [data]).1 == [Message(CAT_REALTIME, p.buf[0], 0, p.buf + [data])]
    ensures Ready(Feed(p, [data]).0, p.prevStatus)
  {
    FeedOne(p, data);
  }

  /** Inside a message: the bytes gathered and the number still wanted. */
  predicate Gathering(p: Parser, buf: seq<byte>, left: int, status: byte) {
    && p.Valid() && p.scan == InData && !p.f1Flag && status < 240
    && p.prevStatus == status && p.buf == buf && p.left == left
  }

  /** A message with one data byte came without its status byte: it has been read but not reported,
      and the parser takes the next byte, whatever it is, to belong to it. */
  predicate Owing(p: Parser, status: byte, data: byte) {
    Gathering(p, [status, data], 0, status) && 192 <= status < 224
  }

  lemma GatherStatus(p: Parser, current: byte, status: byte)
    requires Ready(p, current) && 128 <= status < 240
    ensures Gathering(Step(p, status).0, [status], DataBytes(status), status) && Step(p, status).1 == []
  {
  }

  lemma GatherRunning(p: Parser, status: byte, data: byte)
    requires Ready(p, status) && 128 <= status < 240 && data < 128
    ensures Gathering(Step(p, data).0, [status, data], DataBytes(status) - 1, status) && Step(p, data).1 == []
  {
  }

  lemma GatherMore(p: Parser, buf: seq<byte>, left: int, status: byte, data: byte)
    requires Gathering(p, buf, left, status) && left >= 2 && data < 248 && data != 241
    ensures Gathering(Step(p, data).0, buf + [data], left - 1, status) && Step(p, data).1 == []
  {
  }

  lemma GatherLast(p: Parser, buf: seq<byte>, left: int, status: byte, data: byte)
    requires Gathering(p, buf, left, status) && left <= 1 && data < 248 && data != 241
    ensures Ready(Step(p, data).0, status) && Step(p, data).1 == MidiMessage(buf + [data])
  {
  }

  lemma MessageMeaning(m: ChannelMessage)
    requires m.Valid()
    ensures m.Size() == 2 ==> MidiMessage([m.status, m.data1] + [m.data2]) == [Meaning(m)]
    ensures m.Size() == 1 ==> forall b: byte :: MidiMessage([m.status, m.data1] + [b]) == [Meaning(m)]
    ensures m.Size() == 1 ==> MidiMessage([m.status] + [m.data1]) == [Meaning(m)]
  {
  }

  /** Two data bytes under running status, for a status that takes two. */
  lemma ParseRunning(p: Parser, m: ChannelMessage, rest: seq<byte>) returns (q: Parser)
    requires m.Valid() && m.Size() == 2 && Ready(p, m.status)
    ensures Ready(q, m.status) && Feed(p, [m.data1, m.data2] + rest).1 == [Meaning(m)] + Feed(q, rest).1
  {
    GatherRunning(p, m.status, m.data1);
    var p1 := Step(p, m.data1).0;
    GatherLast(p1, [m.status, m.data1], 1, m.status, m.data2);
    q := Step(p1, m.data2).0;
    MessageMeaning(m);
    FeedFirst(p, m.data1, [m.data2] + rest);
    FeedFirst(p1, m.data2, rest);
    assert [m.data1, m.data2] + rest == [m.data1] + ([m.data2] + rest);
  }

  lemma ParseLong(p: Parser, current: byte, m: ChannelMessage, rest: seq<byte>) returns (q: Parser)
    requires m.Valid() && m.Size() == 2 && Ready(p, current)
    ensures Ready(q, m.status) && Feed(p, [m.status, m.data1, m.data2] + rest).1 == [Meaning(m)] + Feed(q, rest).1
  {
    GatherStatus(p, current, m.status);
    var p1 := Step(p, m.status).0;
    GatherMore(p1, [m.status], 2, m.status, m.data1);
    var p2 := Step(p1, m.data1).0;
    GatherLast(p2, [m.status, m.data1], 1, m.status, m.data2);
    q := Step(p2, m.data2).0;
    MessageMeaning(m);
    FeedFirst(p, m.status, [m.data1] + ([m.data2] + rest));
    FeedFirst(p1, m.data1, [m.data2] + rest);
    FeedFirst(p2, m.data2, rest);
    assert [m.status, m.data1, m.data2] + rest == [m.status] + ([m.data1] + ([m.data2] + rest));
  }

  lemma ParseShort(p: Parser, current: byte, m: ChannelMessage, rest: seq<byte>) returns (q: Parser)
    requires m.Valid() && m.Size() == 1 && Ready(p, current)
    ensures Ready(q, m.status) && Feed(p, [m.status, m.data1] + rest).1 == [Meaning(m)] + Feed(q, rest).1
  {
    GatherStatus(p, current, m.status);
    var p1 := Step(p, m.status).0;
    GatherLast(p1, [m.status], 1, m.status, m.data1);
    q := Step(p1, m.data1).0;
    MessageMeaning(m);
    FeedFirst(p, m.status, [m.data1] + rest);
    FeedFirst(p1, m.data1, rest);
    assert [m.status, m.data1] + rest == [m.status] + ([m.data1] + rest);
  }

  /** A supported form: its callback, and its status becomes the running status. */
  lemma ParseForm(p: Parser, current: byte, f: Form, rest: seq<byte>) returns (q: Parser)
    requires Ready(p, current) && f.message.Valid() && f.Supported() && (f.dropped ==> f.message.status == current)
    ensures Ready(q, f.message.status) && Feed(p, f.Bytes() + rest).1 == [Meaning(f.message)] + Feed(q, rest).1
  {
    var m := f.message;
    if f.dropped {
      q := ParseRunning(p, m, rest);
      assert f.Bytes() == [m.data1, m.data2];
    } else if m.Size() == 2 {
      q := ParseLong(p, current, m, rest);
      assert f.Bytes() == [m.status, m.data1, m.data2];
    } else {
      q := ParseShort(p, current, m, rest);
      assert f.Bytes() == [m.status, m.data1];
    }
  }

  lemma {:induction false} SupportedParses(p: Parser, current: byte, forms: seq<Form>)
    requires Ready(p, current) && Admissible(forms, current)
    requires forall f :: f in forms ==> f.Supported()
    ensures Feed(p, Wire(forms, current)).1 == Meanings(forms)
    decreases forms
  {
    if forms != [] {
      var f := forms[0];
      var q := ParseForm(p, current, f, Wire(forms[1..], f.message.status));
      SupportedParses(q, f.message.status, forms[1..]);
    }
  }

  // ------------------------------------------------- dropped status of one-data-byte messages

  predicate Short(status: byte) {
    192 <= status < 224
  }

  /** The sender's running status `current` against the parser's, `status`. */
  predicate Related(current: byte, status: byte) {
    (current >= 128 ==> 128 <= status < 240) && (Short(current) ==> Short(status))
  }

  /** The owed message is reported with the next byte of the core. */
  lemma PayDebt(p: Parser, status: byte, data: byte, next: byte, rest: seq<byte>) returns (q: Parser)
    requires Owing(p, status, data) && data < 128 && next < 248 && next != 241
    ensures Ready(q, status)
    ensures Feed(p, [next] + rest).1 == [Meaning(ChannelMessage(status, data, 0))] + Feed(q, rest).1
  {
    GatherLast(p, [status, data], 0, status, next);
    q := Step(p, next).0;
    MessageMeaning(ChannelMessage(status, data, 0));
    FeedFirst(p, next, rest);
  }

  lemma RunUpDebt(p: Parser, status: byte, data: byte, rest: seq<byte>) returns (q: Parser)
    requires Ready(p, status) && Short(status) && data < 128
    ensures Owing(q, status, data) && Feed(p, [data] + rest).1 == Feed(q, rest).1
  {
    GatherRunning(p, status, data);
    q := Step(p, data).0;
    FeedFirst(p, data, rest);
  }

  /** The parser never reports more messages than were sent. */
  lemma {:induction false} CountReady(p: Parser, status: byte, current: byte, forms: seq<Form>)
    requires Ready(p, status) && Related(current, status) && Admissible(forms, current)
    ensures |Feed(p, Wire(forms, current)).1| <= |forms|
    decreases forms, 0
  {
    if forms != [] {
      var f, m := forms[0], forms[0].message;
      var rest := Wire(forms[1..], m.status);
      if f.dropped && m.Size() == 1 {
        assert f.Bytes() == [m.data1];
        var q := RunUpDebt(p, status, m.data1, rest);
        CountOwing(q, status, m.data1, m.status, forms[1..]);
      } else if f.dropped && Short(status) {
        assert f.Bytes() + rest == [m.data1] + ([m.data2] + rest);
        var q := RunUpDebt(p, status, m.data1, [m.data2] + rest);
        var q' := PayDebt(q, status, m.data1, m.data2, rest);
        CountReady(q', status, m.status, forms[1..]);
      } else if f.dropped {
        assert f.Bytes() == [m.data1, m.data2];
        var q := ParseRunning(p, m.(status := status), rest);
        CountReady(q, status, m.status, forms[1..]);
      } else {
        var q := ParseForm(p, status, f, rest);
        CountReady(q, m.status, m.status, forms[1..]);
      }
    }
  }

  lemma {:induction false} CountOwing(p: Parser, status: byte, data: byte, current: byte, forms: seq<Form>)
    requires Owing(p, status, data) && data < 128 && Related(current, status) && Admissible(forms, current)
    ensures |Feed(p, Wire(forms, current)).1| <= 1 + |forms|
    decreases forms, 1
  {
    if forms != [] {
      var f, m := forms[0], forms[0].message;
      var rest := Wire(forms[1..], m.status);
      var bytes := f.Bytes();
      assert bytes + rest == [bytes[0]] + (bytes[1..] + rest);
      var q := PayDebt(p, status, data, bytes[0], bytes[1..] + rest);
      if |bytes| == 1 {
        assert bytes[1..] + rest == rest;
        CountReady(q, status, m.status, forms[1..]);
      } else if |bytes| == 2 {
        assert bytes[1..] + rest == [bytes[1]] + rest;
        var q' := RunUpDebt(q, status, bytes[1], rest);
        CountOwing(q', status, bytes[1], m.status, forms[1..]);
      } else {
        assert bytes[1..] + rest == [m.data1] + ([m.data2] + rest);
        var q' := RunUpDebt(q, status, m.data1, [m.data2] + rest);
        var q'' := PayDebt(q', status, m.data1, m.data2, rest);
        CountReady(q'', status, m.status, forms[1..]);
      }
    }
  }

  /** Once a message is owed, the callbacks never become the right ones again. */
  lemma {:induction false} OwingGoesWrong(p: Parser, status: byte, data: byte, forms: seq<Form>)
    requires Owing(p, status, data) && data < 128 && Admissible(forms, status)
    ensures Feed(p, Wire(forms, status)).1 != [Meaning(ChannelMessage(status, data, 0))] + Meanings(forms)
    decreases forms, 0
  {
    if forms != [] {
      var f, m := forms[0], forms[0].message;
      var owed := Meaning(ChannelMessage(status, data, 0));
      var rest := Wire(forms[1..], m.status);
      var bytes := f.Bytes();
      assert bytes + rest == [bytes[0]] + (bytes[1..] + rest);
      var q := PayDebt(p, status, data, bytes[0], bytes[1..] + rest);
      var after := Feed(q, bytes[1..] + rest).1;
      assert ([owed] + after)[1..] == after && ([owed] + Meanings(forms))[1..] == Meanings(forms);
      assert after != Meanings(forms) by {
        if f.dropped {
          assert bytes[1..] + rest == rest;
          CountReady(q, status, m.status, forms[1..]);
        } else if m.Size() == 2 {
          assert bytes[1..] + rest == [m.data1] + ([m.data2] + rest);
          var q' := RunUpDebt(q, status, m.data1, [m.data2] + rest);
          var q'' := PayDebt(q', status, m.data1, m.data2, rest);
          assert after[0] != Meanings(forms)[0];
        } else {
          assert bytes[1..] + rest == [m.data1] + rest;
          var q' := RunUpDebt(q, status, m.data1, rest);
          OwingAgain(q', status, f, forms[1..]);
        }
      }
    }
  }

  /** The status byte of a one-data-byte message was swallowed, and its data byte is owed in turn. */
  lemma {:induction false} OwingAgain(p: Parser, status: byte, f: Form, forms: seq<Form>)
    requires f.message.Valid() && f.message.Size() == 1 && Owing(p, status, f.message.data1)
    requires Admissible(forms, f.message.status)
    ensures Feed(p, Wire(forms, f.message.status)).1 != [Meaning(f.message)] + Meanings(forms)
    decreases forms, 1
  {
    var m := f.message;
    if m.status == status {
      assert m == ChannelMessage(status, m.data1, 0);
      OwingGoesWrong(p, status, m.data1, forms);
    } else if forms != [] {
      var bytes, rest := forms[0].Bytes(), Wire(forms[1..], forms[0].message.status);
      assert bytes + rest == [bytes[0]] + (bytes[1..] + rest);
      var q := PayDebt(p, status, m.data1, bytes[0], bytes[1..] + rest);
      assert Feed(p, bytes + rest).1[0] != Meaning(m);
    }
  }

  lemma {:induction false} UnsupportedGoesWrong(p: Parser, current: byte, forms: seq<Form>)
    requires Ready(p, current) && Admissible(forms, current)
    requires exists f :: f in forms && !f.Supported()
    ensures Feed(p, Wire(forms, current)).1 != Meanings(forms)
    decreases forms
  {
    var f, m := forms[0], forms[0].message;
    var rest := Wire(forms[1..], m.status);
    if f.Supported() {
      var q := ParseForm(p, current, f, rest);
      UnsupportedGoesWrong(q, m.status, forms[1..]);
      assert Meanings(forms)[1..] == Meanings(forms[1..]);
      assert ([Meaning(m)] + Feed(q, rest).1)[1..] == Feed(q, rest).1;
    } else {
      assert f.Bytes() == [m.data1];
      var q := RunUpDebt(p, current, m.data1, rest);
      assert m == ChannelMessage(m.status, m.data1, 0);
      OwingGoesWrong(q, current, m.data1, forms[1..]);
    }
  }

  /** Every admissible wire form, with real-time bytes and quarter-frame pairs at any point of it: the
      other callbacks are exactly the messages' meanings, in order, if and only if no message with one
      data byte came without its status byte; and the inserted bytes make exactly their own callbacks. */
  lemma WireFormsParse(p: Parser, bytes: seq<byte>, forms: seq<Form>)
    requires Ready(p, p.prevStatus) && Admissible(forms, p.prevStatus)
    requires Core(bytes, false) == Wire(forms, p.prevStatus)
    ensures Select(Feed(p, bytes).1, false) == Meanings(forms) <==> forall f :: f in forms ==> f.Supported()
    ensures Select(Feed(p, bytes).1, true) == SideCalls(bytes, false, p.hasMtc, p.mtc)
  {
    Interleaved(p, p, bytes);
    if forall f :: f in forms ==> f.Supported() {
      SupportedParses(p, p.prevStatus, forms);
    } else {
      UnsupportedGoesWrong(p, p.prevStatus, forms);
    }
  }
}
