/** From the event macros through the buffer, the MIDI packets and the parser back to the application:
    channel messages come back with the same meaning, system exclusive messages byte for byte. */
module SequencerRoundTrip {
  import opened Bytes
  import opened MidiParser
  import opened MidiWire
  import opened Sequencer
  import opened SeqLibrary

  // ---------------------------------------------------------------- the bytes on the device

  /** The MIDI bytes in the packets written. */
  function Payload(packets: seq<Packet>): seq<byte> {
    if packets == [] then []
    else
      var last := packets[|packets| - 1];
      Payload(packets[..|packets| - 1]) + if last.Write? then last.payload else []
  }

  function DataOf(records: seq<Record>): seq<byte> {
    if records == [] then []
    else
      var last := records[|records| - 1];
      DataOf(records[..|records| - 1]) + if last.MidiByte? then [last.data] else []
  }

  function AllBytes(events: seq<Event>): seq<byte> {
    if events == [] then [] else EventBytes(events[0]) + AllBytes(events[1..])
  }

  lemma {:induction false} DataConcat(a: seq<Record>, b: seq<Record>)
    ensures DataOf(a + b) == DataOf(a) + DataOf(b)
  {
    if b == [] {
      assert a + b == a;
    } else {
      assert (a + b)[..|a + b| - 1] == a + b[..|b| - 1];
      DataConcat(a, b[..|b| - 1]);
    }
  }

  lemma {:induction false} DataStamped(tick: nat, bytes: seq<byte>)
    ensures DataOf(Stamp(tick, bytes)) == bytes
  {
    if bytes != [] {
      var front := bytes[..|bytes| - 1];
      assert Stamp(tick, bytes)[..|bytes| - 1] == Stamp(tick, front);
      DataStamped(tick, front);
      assert front + [bytes[|bytes| - 1]] == bytes;
    }
  }

  lemma {:induction false} PayloadIsData(packets: seq<Packet>)
    ensures Payload(packets) == DataOf(Flatten(packets))
  {
    if packets != [] {
      var front, last := packets[..|packets| - 1], packets[|packets| - 1];
      PayloadIsData(front);
      match last
      case Start =>
        assert DataOf([TimerStarted]) == [];
        DataConcat(Flatten(front), [TimerStarted]);
      case Tempo(tick, parm) =>
        assert DataOf([TempoSet(tick, parm)]) == [];
        DataConcat(Flatten(front), [TempoSet(tick, parm)]);
      case Write(tick, payload) =>
        DataStamped(tick, payload);
        DataConcat(Flatten(front), Stamp(tick, payload));
    }
  }

  lemma {:induction false} AllBytesConcat(a: seq<Event>, b: seq<Event>)
    ensures AllBytes(a + b) == AllBytes(a) + AllBytes(b)
  {
    if a == [] {
      assert a + b == b;
    } else {
      assert (a + b)[1..] == a[1..] + b;
      AllBytesConcat(a[1..], b);
      Assoc(EventBytes(a[0]), AllBytes(a[1..]), AllBytes(b));
    }
  }

  lemma AllBytesOne(ev: Event)
    ensures AllBytes([ev]) == EventBytes(ev)
  {
    assert [ev][1..] == [];
  }

  lemma AllBytesLast(front: seq<Event>, last: Event)
    ensures AllBytes(front + [last]) == AllBytes(front) + EventBytes(last)
  {
    AllBytesConcat(front, [last]);
    AllBytesOne(last);
  }

  lemma EventData(tick: nat, ev: Event)
    ensures DataOf(EventRecords(tick, ev)) == EventBytes(ev)
  {
    if ev[0] == EV_TIMING && ev[1] == TMR_TEMPO {
      var r := TempoSet(tick, Parm(ev));
      assert [r][..0] == [];
    } else {
      DataStamped(tick, EventBytes(ev));
    }
  }

  lemma {:induction false} PlayedData(events: seq<Event>)
    ensures DataOf(Played(events)) == AllBytes(events)
  {
    if events != [] {
      var front, last := events[..|events| - 1], events[|events| - 1];
      assert front + [last] == events;
      AllBytesLast(front, last);
      OneMorePlayed(front, last);
      PlayedData(front);
      EventData(TickAfter(front), last);
      DataConcat(Played(front), EventRecords(TickAfter(front), last));
    }
  }

  /** What the library has written once its buffer is dumped. */
  function Output(buflen: int, actions: seq<Action>): seq<Packet> {
    DumpBuffer(ActAll(Opened(buflen), actions)).player.written
  }

  lemma OutputBytes(buflen: int, actions: seq<Action>)
    ensures Payload(Output(buflen, actions)) == AllBytes(EventsOf(actions))
  {
    BufferingIsInvisible(buflen, actions);
    PayloadIsData(Output(buflen, actions));
    var events := EventsOf(actions);
    PlayedData(events);
    DataConcat([TimerStarted], Played(events));
    assert [TimerStarted][..0] == [];
  }

  /** No packet holds more than 956 bytes. */
  ghost predicate Small(packets: seq<Packet>) {
    forall p :: p in packets && p.Write? ==> |p.payload| <= 956
  }

  lemma {:induction false} PlayAllSmall(p: Player, events: seq<Event>)
    requires p.Valid() && Small(p.written)
    ensures Small(PlayAll(p, events).written)
  {
    if events != [] {
      PlayAllSmall(p, events[..|events| - 1]);
    }
  }

  lemma {:induction false} ActAllSmall(s: Library, actions: seq<Action>)
    requires s.Valid() && Small(s.player.written)
    ensures Small(ActAll(s, actions).player.written)
  {
    if actions != [] {
      ActAllSmall(s, actions[..|actions| - 1]);
      var t := ActAll(s, actions[..|actions| - 1]);
      PlayAllSmall(t.player, t.pending);
    }
  }

  lemma OutputSmall(buflen: int, actions: seq<Action>)
    ensures Small(Output(buflen, actions))
  {
    ActAllSmall(Opened(buflen), actions);
    var t := ActAll(Opened(buflen), actions);
    PlayAllSmall(t.player, t.pending);
  }

  // ---------------------------------------------------------------- channel events

  /** The macros for channel events and timing. */
  datatype Macro =
    | Voice(event: byte, dev: byte, chn: byte, note: byte, velocity: byte)
    | Program(dev: byte, chn: byte, patch: byte)
    | Pressure(dev: byte, chn: byte, pressure: byte)
    | Control(dev: byte, chn: byte, controller: byte, value: nat)
    | Timer(code: byte, parm: nat)
  {
    /** Note on, note off and key pressure; arguments within the ranges of the MIDI standard. */
    predicate InRange() {
      match this
      case Voice(event, _, chn, note, velocity) =>
        (event == 0x80 || event == 0x90 || event == 0xA0) && chn < 16 && note < 128 && velocity < 128
      case Program(_, chn, patch) => chn < 16 && patch < 128
      case Pressure(_, chn, pressure) => chn < 16 && pressure < 128
      case Control(_, chn, controller, value) => chn < 16 && controller < 128 && value < 128
      case Timer(_, _) => true
    }

    function ToEvent(): Event {
      match this
      case Voice(event, dev, chn, note, parm) => VoiceEvent(dev, event, chn, note, parm)
      case Program(dev, chn, patch) => CommonEvent(dev, 0xC0, chn, patch, 0, 0)
      case Pressure(dev, chn, pressure) => CommonEvent(dev, 0xD0, chn, pressure, 0, 0)
      case Control(dev, chn, controller, value) => CommonEvent(dev, 0xB0, chn, controller, 0, value)
      case Timer(code, parm) => TimerEvent(code, parm)
    }

    /** The channel message that was asked for. */
    function ToMessage(): (m: ChannelMessage)
      requires InRange() && !Timer?
      ensures m.Valid()
    {
      match this
      case Voice(event, _, chn, note, parm) => ChannelMessage(event + chn, note, parm)
      case Program(_, chn, patch) => ChannelMessage(0xC0 + chn, patch, 0)
      case Pressure(_, chn, pressure) => ChannelMessage(0xD0 + chn, pressure, 0)
      case Control(_, chn, controller, value) => ChannelMessage(0xB0 + chn, controller, value)
    }
  }

  function ToEvents(macros: seq<Macro>): seq<Event> {
    if macros == [] then [] else [macros[0].ToEvent()] + ToEvents(macros[1..])
  }

  /** The channel messages of a list of macros, each to be sent with its status byte. */
  function ToForms(macros: seq<Macro>): (r: seq<Form>)
    requires forall m :: m in macros ==> m.InRange()
    ensures forall f :: f in r ==> f.message.Valid() && !f.dropped
  {
    if macros == [] then []
    else (if macros[0].Timer? then [] else [Form(macros[0].ToMessage(), false)]) + ToForms(macros[1..])
  }

  lemma {:induction false} FullFormsAdmissible(forms: seq<Form>, current: byte)
    requires forall f :: f in forms ==> f.message.Valid() && !f.dropped
    ensures Admissible(forms, current)
  {
    if forms != [] {
      FullFormsAdmissible(forms[1..], forms[0].message.status);
    }
  }

  lemma MacroBytes(m: Macro)
    requires m.InRange()
    ensures EventBytes(m.ToEvent()) == if m.Timer? then [] else Form(m.ToMessage(), false).Bytes()
  {
    if !m.Timer? {
      var ev := m.ToEvent();
      OrAdds(m.chn, ev[2], 16);
    }
  }

  lemma {:induction false} MacrosWire(macros: seq<Macro>, current: byte)
    requires forall m :: m in macros ==> m.InRange()
    ensures Admissible(ToForms(macros), current) && AllBytes(ToEvents(macros)) == Wire(ToForms(macros), current)
  {
    FullFormsAdmissible(ToForms(macros), current);
    if macros != [] {
      var m, rest := macros[0], macros[1..];
      MacroBytes(m);
      assert ToEvents(macros)[1..] == ToEvents(rest);
      if m.Timer? {
        MacrosWire(rest, current);
        assert ToForms(macros) == ToForms(rest);
      } else {
        MacrosWire(rest, m.ToMessage().status);
        assert ToForms(macros)[1..] == ToForms(rest);
      }
    }
  }

  /** Channel events survive: whatever the buffer length and wherever the buffer is dumped, the packets
      written for any list of macros, fed to the parser, give back exactly the channel messages asked for,
      in order, a note on with velocity 0 as a note off with velocity 64. */
  lemma ChannelEventsSurvive(buflen: int, actions: seq<Action>, macros: seq<Macro>, p: Parser)
    requires forall m :: m in macros ==> m.InRange()
    requires EventsOf(actions) == ToEvents(macros) && Ready(p, p.prevStatus)
    ensures Feed(p, Payload(Output(buflen, actions))).1 == Meanings(ToForms(macros))
  {
    OutputBytes(buflen, actions);
    MacrosWire(macros, p.prevStatus);
    SupportedParses(p, p.prevStatus, ToForms(macros));
  }

  // ---------------------------------------------------------------- system exclusive messages

  /** F0, data bytes below 0x80, F7. */
  predicate IsSysex(msg: seq<byte>) {
    |msg| >= 2 && msg[0] == 0xF0 && IsSysexTail(msg[1..])
  }

  predicate IsSysexTail(bytes: seq<byte>) {
    bytes != [] && bytes[|bytes| - 1] == 0xF7 && forall i :: 0 <= i < |bytes| - 1 ==> bytes[i] < 0x80
  }

  /** The message cut into events of at most six bytes. */
  function Cut(dev: byte, msg: seq<byte>): seq<Event> {
    if |msg| <= 6 then [SysexEvent(dev, msg)] else [SysexEvent(dev, msg[..6])] + Cut(dev, msg[6..])
  }

  predicate NoFiller(bytes: seq<byte>) {
    forall i :: 0 <= i < |bytes| ==> bytes[i] != 255
  }

  lemma {:induction false} SysexBytesFrom(ev: Event, bytes: seq<byte>, i: nat)
    requires 2 <= i <= 2 + |bytes| <= 8 && NoFiller(bytes)
    requires forall j :: 2 <= j < 8 ==> ev[j] == if j - 2 < |bytes| then bytes[j - 2] else 255
    ensures SysexBytes(ev, i) == bytes[i - 2..]
    decreases 8 - i
  {
    if i < 2 + |bytes| {
      SysexBytesFrom(ev, bytes, i + 1);
      assert bytes[i - 2..] == [bytes[i - 2]] + bytes[i - 1..];
    } else {
      assert bytes[i - 2..] == [];
    }
  }

  lemma {:induction false} CutBytes(dev: byte, msg: seq<byte>)
    requires NoFiller(msg)
    ensures AllBytes(Cut(dev, msg)) == msg
  {
    if |msg| <= 6 {
      SysexBytesFrom(SysexEvent(dev, msg), msg, 2);
      AllBytesOne(SysexEvent(dev, msg));
    } else {
      var first := msg[..6];
      SysexBytesFrom(SysexEvent(dev, first), first, 2);
      CutBytes(dev, msg[6..]);
      assert Cut(dev, msg)[1..] == Cut(dev, msg[6..]);
      assert first + msg[6..] == msg;
    }
  }

  /** The message in pieces of the parser's buffer size. */
  function Chunks(msg: seq<byte>): (r: seq<seq<byte>>)
    ensures r != []
  {
    if |msg| <= MI_MAX then [msg] else [msg[..MI_MAX]] + Chunks(msg[MI_MAX..])
  }

  function Join(chunks: seq<seq<byte>>): seq<byte> {
    if chunks == [] then [] else chunks[0] + Join(chunks[1..])
  }

  function SysexCalls(chunks: seq<seq<byte>>): (r: seq<Callback>)
    ensures |r| == |chunks| && forall i :: 0 <= i < |r| ==> r[i] == Message(CAT_SYSEX, 0, 0, chunks[i])
  {
    seq(|chunks|, i requires 0 <= i < |chunks| => Message(CAT_SYSEX, 0, 0, chunks[i]))
  }

  /** The pieces make up the message, and all but the last have the full size. */
  lemma {:induction false} ChunksJoin(msg: seq<byte>)
    ensures var c := Chunks(msg);
      && Join(c) == msg && |c[|c| - 1]| <= MI_MAX
      && forall i :: 0 <= i < |c| - 1 ==> |c[i]| == MI_MAX
  {
    var c := Chunks(msg);
    if |msg| <= MI_MAX {
      assert c[1..] == [] && msg + [] == msg;
    } else {
      ChunksJoin(msg[MI_MAX..]);
      assert c[1..] == Chunks(msg[MI_MAX..]);
      assert msg[..MI_MAX] + msg[MI_MAX..] == msg;
    }
  }

  lemma SysexStep(p: Parser, data: byte)
    requires p.Valid() && p.scan == InSysex && !p.f1Flag && (data < 0x80 || data == 0xF7)
    ensures var (q, calls) := Step(p, data); var msg := p.buf + [data];
      && (data == 0xF7 ==> calls == [Message(CAT_SYSEX, 0, 0, msg)] && Ready(q, p.prevStatus))
      && (data != 0xF7 ==> q.scan == InSysex && !q.f1Flag && q.prevStatus == p.prevStatus)
      && (data != 0xF7 && |msg| >= MI_MAX ==> calls == [Message(CAT_SYSEX, 0, 0, msg)] && q.buf == [])
      && (data != 0xF7 && |msg| < MI_MAX ==> calls == [] && q.buf == msg)
  {
  }

  /** A full buffer is the first chunk of what it starts. */
  lemma FullChunk(msg: seq<byte>, rest: seq<byte>)
    requires |msg| == MI_MAX && rest != []
    ensures SysexCalls(Chunks(msg + rest)) == [Message(CAT_SYSEX, 0, 0, msg)] + SysexCalls(Chunks(rest))
  {
    assert (msg + rest)[..MI_MAX] == msg && (msg + rest)[MI_MAX..] == rest;
    assert Chunks(msg + rest) == [msg] + Chunks(rest);
  }

  lemma LastChunk(msg: seq<byte>)
    requires |msg| <= MI_MAX
    ensures SysexCalls(Chunks(msg)) == [Message(CAT_SYSEX, 0, 0, msg)]
  {
  }

  lemma {:induction false} SysexParses(p: Parser, buf: seq<byte>, tail: seq<byte>)
    requires p.Valid() && p.scan == InSysex && !p.f1Flag && p.buf == buf && IsSysexTail(tail)
    ensures Feed(p, tail).1 == SysexCalls(Chunks(buf + tail)) && Ready(Feed(p, tail).0, p.prevStatus)
    decreases tail
  {
    var data, rest, msg := tail[0], tail[1..], buf + [tail[0]];
    var q, calls := Step(p, data).0, Step(p, data).1;
    SysexStep(p, data);
    assert tail == [data] + rest;
    FeedFirst(p, data, rest);
    Assoc(buf, [data], rest);
    if data == 0xF7 {
      assert rest == [] && msg + rest == msg;
      LastChunk(msg);
    } else if |msg| >= MI_MAX {
      SysexParses(q, [], rest);
      assert [] + rest == rest;
      FullChunk(msg, rest);
    } else {
      SysexParses(q, msg, rest);
    }
  }

  lemma SysexMessageParses(p: Parser, msg: seq<byte>)
    requires Ready(p, p.prevStatus) && IsSysex(msg)
    ensures Feed(p, msg).1 == SysexCalls(Chunks(msg)) && Ready(Feed(p, msg).0, p.prevStatus)
  {
    var q := Step(p, 0xF0).0;
    assert q.scan == InSysex && q.buf == [0xF0] && !q.f1Flag && Step(p, 0xF0).1 == [];
    assert msg == [0xF0] + msg[1..];
    FeedFirst(p, 0xF0, msg[1..]);
    SysexParses(q, [0xF0], msg[1..]);
  }

  lemma SysexOutput(buflen: int, actions: seq<Action>, dev: byte, msg: seq<byte>)
    requires IsSysex(msg) && EventsOf(actions) == Cut(dev, msg)
    ensures Payload(Output(buflen, actions)) == msg
  {
    OutputBytes(buflen, actions);
    SysexHasNoFiller(msg);
    CutBytes(dev, msg);
  }

  lemma SysexHasNoFiller(msg: seq<byte>)
    requires IsSysex(msg)
    ensures NoFiller(msg)
  {
    assert forall i :: 0 < i < |msg| ==> msg[i] == msg[1..][i - 1];
  }

  /** System exclusive messages survive three reframings: a message of any length, cut into events of six
      bytes, buffered and dumped in any way, written in packets of at most 956 bytes and parsed, is
      reported in pieces that join to the original message, all but the last exactly 64 bytes long. */
  lemma SysexSurvives(buflen: int, actions: seq<Action>, dev: byte, msg: seq<byte>, p: Parser)
    requires IsSysex(msg) && EventsOf(actions) == Cut(dev, msg) && Ready(p, p.prevStatus)
    ensures Small(Output(buflen, actions))
    ensures Feed(p, Payload(Output(buflen, actions))).1 == SysexCalls(Chunks(msg))
    ensures var c := Chunks(msg);
      Join(c) == msg && |c[|c| - 1]| <= MI_MAX && forall i :: 0 <= i < |c| - 1 ==> |c[i]| == MI_MAX
  {
    OutputSmall(buflen, actions);
    SysexOutput(buflen, actions, dev, msg);
    ChunksJoin(msg);
    SysexMessageParses(p, msg);
  }

  // ---------------------------------------------------------------- everything together

  /** What an application sends: a macro, or a complete system exclusive message. */
  datatype Item = Single(macro: Macro) | Exclusive(dev: byte, msg: seq<byte>) {
    predicate Valid() {
      match this
      case Single(m) => m.InRange()
      case Exclusive(_, msg) => IsSysex(msg)
    }

    function ToEvents(): seq<Event> {
      match this
      case Single(m) => [m.ToEvent()]
      case Exclusive(dev, msg) => Cut(dev, msg)
    }

    /** What the other end must hear of it. */
    function Calls(): seq<Callback>
      requires Valid()
    {
      match this
      case Single(m) => if m.Timer? then [] else [Meaning(m.ToMessage())]
      case Exclusive(_, msg) => SysexCalls(Chunks(msg))
    }
  }

  function AllEvents(items: seq<Item>): seq<Event> {
    if items == [] then [] else items[0].ToEvents() + AllEvents(items[1..])
  }

  function AllCalls(items: seq<Item>): seq<Callback>
    requires forall item :: item in items ==> item.Valid()
  {
    if items == [] then [] else items[0].Calls() + AllCalls(items[1..])
  }

  /** The bytes of one item, and what the parser makes of them. */
  lemma ItemParses(p: Parser, item: Item) returns (q: Parser)
    requires Ready(p, p.prevStatus) && item.Valid()
    ensures Ready(q, q.prevStatus) && Feed(p, AllBytes(item.ToEvents())) == (q, item.Calls())
  {
    match item
    case Single(m) =>
      AllBytesOne(m.ToEvent());
      MacroBytes(m);
      q := p;
      if !m.Timer? {
        q := FormParses(p, Form(m.ToMessage(), false));
      }
    case Exclusive(dev, msg) =>
      SysexHasNoFiller(msg);
      CutBytes(dev, msg);
      SysexMessageParses(p, msg);
      q := Feed(p, msg).0;
  }

  lemma FormParses(p: Parser, f: Form) returns (q: Parser)
    requires Ready(p, p.prevStatus) && f.message.Valid() && !f.dropped
    ensures Ready(q, q.prevStatus) && Feed(p, f.Bytes()) == (q, [Meaning(f.message)])
  {
    var r := ParseForm(p, p.prevStatus, f, []);
    assert f.Bytes() + [] == f.Bytes() && [Meaning(f.message)] + [] == [Meaning(f.message)];
    FormEnds(p, f);
    q := Feed(p, f.Bytes()).0;
  }

  lemma FeedTwo(p: Parser, a: byte, b: byte)
    requires p.Valid()
    ensures Feed(p, [a] + [b]).0 == Step(Step(p, a).0, b).0
  {
    FeedFirst(p, a, [b]);
    FeedOne(Step(p, a).0, b);
  }

  /** After a complete message the parser is between messages. */
  lemma FormEnds(p: Parser, f: Form)
    requires Ready(p, p.prevStatus) && f.message.Valid() && !f.dropped
    ensures Ready(Feed(p, f.Bytes()).0, f.message.status)
  {
    var m := f.message;
    GatherStatus(p, p.prevStatus, m.status);
    var p1 := Step(p, m.status).0;
    if m.Size() == 2 {
      GatherMore(p1, [m.status], 2, m.status, m.data1);
      GatherLast(Step(p1, m.data1).0, [m.status] + [m.data1], 1, m.status, m.data2);
      assert f.Bytes() == [m.status] + ([m.data1] + [m.data2]);
      FeedFirst(p, m.status, [m.data1] + [m.data2]);
      FeedTwo(p1, m.data1, m.data2);
    } else {
      GatherLast(p1, [m.status], 1, m.status, m.data1);
      assert f.Bytes() == [m.status] + [m.data1];
      FeedTwo(p, m.status, m.data1);
    }
  }

  /** What one item says comes before what is said after it. */
  lemma ItemFirst(p: Parser, q: Parser, events: seq<Event>, said: seq<Callback>, rest: seq<Event>)
    requires p.Valid() && q.Valid() && Feed(p, AllBytes(events)) == (q, said)
    ensures Feed(p, AllBytes(events + rest)).1 == said + Feed(q, AllBytes(rest)).1
  {
    AllBytesConcat(events, rest);
    FeedConcat(p, AllBytes(events), AllBytes(rest));
  }

  lemma {:induction false} ItemsParse(p: Parser, items: seq<Item>)
    requires Ready(p, p.prevStatus) && forall item :: item in items ==> item.Valid()
    ensures Feed(p, AllBytes(AllEvents(items))).1 == AllCalls(items)
    decreases items
  {
    if items != [] {
      var first, rest := items[0], AllEvents(items[1..]);
      var q := ItemParses(p, first);
      ItemFirst(p, q, first.ToEvents(), first.Calls(), rest);
      ItemsParse(q, items[1..]);
    }
  }

  // ---------------------------------------------------------------- the time of everything

  /** What the macros for time stand for. */
  function WaitTime(ticks: nat): Macro { Timer(TMR_WAIT_ABS, ticks) }
  function DeltaTime(ticks: nat): Macro { Timer(TMR_WAIT_REL, ticks) }
  function SetTempo(value: nat): Macro { Timer(TMR_TEMPO, value) }

  /** The parameter of the last WaitTime, 0 without one; parameters have 32 bits. */
  function LastWait(items: seq<Item>): nat {
    if items == [] then 0
    else
      var last := items[|items| - 1];
      if last.Single? && last.macro.Timer? && last.macro == WaitTime(last.macro.parm) then last.macro.parm % PARMS
      else LastWait(items[..|items| - 1])
  }

  /** The sum of the parameters of all DeltaTime since then. */
  function DeltasSince(items: seq<Item>): nat {
    if items == [] then 0
    else
      var last, front := items[|items| - 1], items[..|items| - 1];
      if last.Single? && last.macro.Timer? && last.macro == WaitTime(last.macro.parm) then 0
      else if last.Single? && last.macro.Timer? && last.macro == DeltaTime(last.macro.parm) then
        DeltasSince(front) + last.macro.parm % PARMS
      else DeltasSince(front)
  }

  /** The time at which what follows is to be played. */
  function TimeAfter(items: seq<Item>): nat {
    (LastWait(items) + DeltasSince(items)) % TICKS
  }

  /** What an item puts on the device. */
  function ItemRecords(tick: nat, item: Item): seq<Record>
    requires item.Valid()
  {
    match item
    case Single(Timer(code, parm)) =>
      if Timer(code, parm) == SetTempo(parm) then [TempoSet(tick, parm % PARMS)] else []
    case Single(m) => Stamp(tick, Form(m.ToMessage(), false).Bytes())
    case Exclusive(_, msg) => Stamp(tick, msg)
  }

  /** Every byte and every tempo with the time of its item. */
  function AllRecords(items: seq<Item>): seq<Record>
    requires forall item :: item in items ==> item.Valid()
  {
    if items == [] then []
    else
      var front := items[..|items| - 1];
      AllRecords(front) + ItemRecords(TimeAfter(front), items[|items| - 1])
  }

  /** The parameter comes through the event. */
  lemma TimerParm(code: byte, parm: nat)
    ensures Parm(TimerEvent(code, parm)) == parm % PARMS
  {
    assert parm / 65536 == parm / 256 / 256 && parm / 16777216 == parm / 65536 / 256;
    assert parm == parm % 256 + 256 * (parm / 256);
    assert parm / 256 == parm / 256 % 256 + 256 * (parm / 65536);
    assert parm / 65536 == parm / 65536 % 256 + 256 * (parm / 16777216);
    assert parm / 16777216 == parm / 16777216 % 256 + 256 * (parm / 16777216 / 256);
  }

  lemma AddedUp(a: nat, b: nat)
    ensures (a % TICKS + b) % TICKS == (a + b) % TICKS
  {
  }

  /** One macro more. */
  lemma TimeMoves(front: seq<Item>, m: Macro)
    requires m.InRange()
    ensures TimeAfter(front + [Single(m)]) == NextTick(TimeAfter(front), m.ToEvent())
  {
    assert (front + [Single(m)])[..|front|] == front;
    if m.Timer? {
      TimerParm(m.code, m.parm);
      AddedUp(LastWait(front) + DeltasSince(front), m.parm % PARMS);
    }
  }

  lemma TimeStays(front: seq<Item>, item: Item)
    requires item.Exclusive?
    ensures TimeAfter(front + [item]) == TimeAfter(front)
  {
    assert (front + [item])[..|front|] == front;
  }

  lemma MacroRecords(tick: nat, m: Macro)
    requires m.InRange()
    ensures EventRecords(tick, m.ToEvent()) == ItemRecords(tick, Single(m))
  {
    if m.Timer? {
      TimerParm(m.code, m.parm);
    } else {
      MacroBytes(m);
    }
  }

  /** One event of a macro. */
  lemma MacroPlayed(before: seq<Event>, front: seq<Item>, m: Macro)
    requires m.InRange() && TickAfter(before) == TimeAfter(front)
    ensures TickAfter(before + [m.ToEvent()]) == TimeAfter(front + [Single(m)])
    ensures Played(before + [m.ToEvent()]) == Played(before) + ItemRecords(TimeAfter(front), Single(m))
  {
    OneMorePlayed(before, m.ToEvent());
    TimeMoves(front, m);
    MacroRecords(TimeAfter(front), m);
  }

  /** `events` after `before` are played as these bytes at one time. */
  ghost predicate AtOnce(before: seq<Event>, events: seq<Event>, bytes: seq<byte>) {
    && TickAfter(before + events) == TickAfter(before)
    && Played(before + events) == Played(before) + Stamp(TickAfter(before), bytes)
  }

  lemma NothingAtOnce(before: seq<Event>)
    ensures AtOnce(before, [], [])
  {
    assert before + [] == before;
  }

  lemma OneMoreAtOnce(before: seq<Event>, front: seq<Event>, last: Event, bytes: seq<byte>)
    requires AtOnce(before, front, bytes) && last[0] != EV_TIMING
    ensures AtOnce(before, front + [last], bytes + EventBytes(last))
  {
    assert before + (front + [last]) == (before + front) + [last];
    OneMorePlayed(before + front, last);
    StampMore(TickAfter(before), bytes, EventBytes(last));
    Assoc(Played(before), Stamp(TickAfter(before), bytes), Stamp(TickAfter(before), EventBytes(last)));
  }

  /** Events that are no timing all bear the same time. */
  lemma {:induction false} UntimedPlayed(before: seq<Event>, events: seq<Event>)
    requires forall ev :: ev in events ==> ev[0] != EV_TIMING
    ensures AtOnce(before, events, AllBytes(events))
  {
    if events == [] {
      NothingAtOnce(before);
    } else {
      var front, last := events[..|events| - 1], events[|events| - 1];
      assert front + [last] == events;
      AllBytesLast(front, last);
      UntimedPlayed(before, front);
      OneMoreAtOnce(before, front, last, AllBytes(front));
    }
  }

  lemma StampMore(tick: nat, a: seq<byte>, b: seq<byte>)
    ensures Stamp(tick, a + b) == Stamp(tick, a) + Stamp(tick, b)
  {
  }

  lemma {:induction false} CutUntimed(dev: byte, msg: seq<byte>)
    ensures forall ev :: ev in Cut(dev, msg) ==> ev[0] != EV_TIMING
  {
    if |msg| > 6 {
      CutUntimed(dev, msg[6..]);
    }
  }

  lemma ExclusivePlayed(before: seq<Event>, dev: byte, msg: seq<byte>)
    requires IsSysex(msg)
    ensures AtOnce(before, Cut(dev, msg), msg)
  {
    CutUntimed(dev, msg);
    UntimedPlayed(before, Cut(dev, msg));
    SysexHasNoFiller(msg);
    CutBytes(dev, msg);
  }

  lemma ItemPlayed(before: seq<Event>, front: seq<Item>, item: Item)
    requires item.Valid() && TickAfter(before) == TimeAfter(front)
    ensures TickAfter(before + item.ToEvents()) == TimeAfter(front + [item])
    ensures Played(before + item.ToEvents()) == Played(before) + ItemRecords(TimeAfter(front), item)
  {
    match item
    case Single(m) => MacroPlayed(before, front, m);
    case Exclusive(dev, msg) =>
      ExclusivePlayed(before, dev, msg);
      TimeStays(front, item);
  }

  lemma {:induction false} AllEventsLast(front: seq<Item>, last: Item)
    ensures AllEvents(front + [last]) == AllEvents(front) + last.ToEvents()
  {
    var items := front + [last];
    if front == [] {
      assert items[1..] == [];
    } else {
      assert items[1..] == front[1..] + [last];
      AllEventsLast(front[1..], last);
      Assoc(front[0].ToEvents(), AllEvents(front[1..]), last.ToEvents());
    }
  }

  lemma {:induction false} ItemsPlayed(items: seq<Item>)
    requires forall item :: item in items ==> item.Valid()
    ensures TickAfter(AllEvents(items)) == TimeAfter(items) && Played(AllEvents(items)) == AllRecords(items)
  {
    if items != [] {
      var front, last := items[..|items| - 1], items[|items| - 1];
      assert items == front + [last];
      AllEventsLast(front, last);
      ItemsPlayed(front);
      ItemPlayed(AllEvents(front), front, last);
    }
  }

  /** Everything survives together: for any list of channel events, timing and complete system exclusive
      messages, in any order, and however the buffer is dumped, also in the middle of a message, the packets
      written hold at most 956 bytes, the parser reports exactly the channel messages and the pieces of the
      system exclusive messages, in order, and every byte and every tempo stands at its time: the parameter of
      the last WaitTime before it plus those of all DeltaTime since, modulo 2 to the 64. */
  lemma MixedEventsSurvive(buflen: int, actions: seq<Action>, items: seq<Item>, p: Parser)
    requires forall item :: item in items ==> item.Valid()
    requires EventsOf(actions) == AllEvents(items) && Ready(p, p.prevStatus)
    ensures Small(Output(buflen, actions))
    ensures Feed(p, Payload(Output(buflen, actions))).1 == AllCalls(items)
    ensures Flatten(Output(buflen, actions))
      == if AllRecords(items) == [] then [] else [TimerStarted] + AllRecords(items)
  {
    OutputSmall(buflen, actions);
    OutputBytes(buflen, actions);
    ItemsParse(p, items);
    BufferingIsInvisible(buflen, actions);
    ItemsPlayed(items);
  }
}
