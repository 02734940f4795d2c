/** The sequencer output path of OSSlib: 8-byte events are gathered in a buffer, played into
    timestamped MIDI packets, and written to the device. The buffering cannot be observed. */
module Sequencer {
  import opened Bytes
  import opened MidiParser

  const MIDI_PAYLOAD_SIZE: nat := 1000
  const TICKS: nat := 0x1_0000_0000_0000_0000
  const PARMS: nat := 0x1_0000_0000

  const EV_TIMING: byte := 0x81
  const EV_CHN_COMMON: byte := 0x92
  const EV_CHN_VOICE: byte := 0x93
  const EV_SYSEX: byte := 0x94

  const TMR_WAIT_REL: byte := 1
  const TMR_WAIT_ABS: byte := 2
  const TMR_TEMPO: byte := 6

  type Event = e: seq<byte> | |e| == 8 witness [0, 0, 0, 0, 0, 0, 0, 0]

  /** What is written to the device. */
  datatype Packet =
    | Start
    | Tempo(tick: nat, parm: nat)
    | Write(tick: nat, payload: seq<byte>)

  /** The player: the MIDI bytes not yet written, the current tick, whether the timer runs, and the
      packets written. */
  datatype Player = Player(midibuf: seq<byte>, tick: nat, started: bool, written: seq<Packet>) {
    predicate Valid() {
      |midibuf| <= 956
    }
  }

  /** The 32-bit parameter of a timing event, least significant byte first. */
  function Parm(ev: Event): nat {
    ev[4] as int + 256 * (ev[5] as int) + 65536 * (ev[6] as int) + 16777216 * (ev[7] as int)
  }

  function StartTimer(p: Player): Player {
    if p.started then p else p.(started := true, written := p.written + [Start])
  }

  function DumpMidi(p: Player): (r: Player)
    ensures r.midibuf == [] && r.tick == p.tick
  {
    if p.midibuf == [] then p
    else var s := StartTimer(p); s.(midibuf := [], written := s.written + [Write(p.tick, p.midibuf)])
  }

  function NextTick(tick: nat, ev: Event): nat {
    if ev[0] != EV_TIMING then tick
    else if ev[1] == TMR_WAIT_REL then (tick + Parm(ev)) % TICKS
    else if ev[1] == TMR_WAIT_ABS then Parm(ev)
    else tick
  }

  function DoTiming(p: Player, ev: Event): Player
    requires ev[0] == EV_TIMING
  {
    var d := DumpMidi(p);
    if ev[1] == TMR_TEMPO then
      var s := StartTimer(d); s.(written := s.written + [Tempo(d.tick, Parm(ev))])
    else d.(tick := NextTick(d.tick, ev))
  }

  /** Appending up to six bytes, after making room for them. */
  function Out(p: Player, bytes: seq<byte>): (r: Player)
    requires p.Valid() && |bytes| <= 6
    ensures r.Valid()
  {
    var q := if |p.midibuf| > 950 then DumpMidi(p) else p;
    q.(midibuf := q.midibuf + bytes)
  }

  /** The bytes of a SYSEX event, from position `i` up to the first filler. */
  function SysexBytes(ev: Event, i: nat): (r: seq<byte>)
    requires 2 <= i <= 8
    ensures |r| <= 8 - i
    decreases 8 - i
  {
    if i == 8 || ev[i] == 255 then [] else [ev[i]] + SysexBytes(ev, i + 1)
  }

  function Status(ev: Event): byte {
    OrBounded(ev[2], ev[3], 256);
    BitOr(ev[2], ev[3])
  }

  /** The MIDI bytes an event stands for. */
  function EventBytes(ev: Event): (r: seq<byte>)
    ensures |r| <= 6
  {
    if ev[0] == EV_CHN_COMMON then
      if ev[2] == 0xC0 || ev[2] == 0xD0 then [Status(ev), ev[4]] else [Status(ev), ev[4], ev[6]]
    else if ev[0] == EV_CHN_VOICE then [Status(ev), ev[4], ev[5]]
    else if ev[0] == EV_SYSEX then SysexBytes(ev, 2)
    else []
  }

  function PlayEvent(p: Player, ev: Event): (r: Player)
    requires p.Valid()
    ensures r.Valid()
  {
    if ev[0] == EV_TIMING then DoTiming(p, ev)
    else if ev[0] == EV_CHN_COMMON || ev[0] == EV_CHN_VOICE || ev[0] == EV_SYSEX then Out(p, EventBytes(ev))
    else p
  }

  function PlayAll(p: Player, events: seq<Event>): (r: Player)
    requires p.Valid()
    ensures r.Valid()
  {
    if events == [] then p else PlayEvent(PlayAll(p, events[..|events| - 1]), events[|events| - 1])
  }

  // ---------------------------------------------------------------- the event buffer

  /** The library: its buffer of whole events, the room in it, and the player. */
  datatype Library = Library(pending: seq<Event>, room: nat, player: Player) {
    predicate Valid() {
      32 <= room <= 2048 && 8 * |pending| <= room && player.Valid()
    }
  }

  function DumpBuffer(s: Library): (r: Library)
    requires s.Valid()
    ensures r.Valid()
  {
    s.(pending := [], player := DumpMidi(PlayAll(s.player, s.pending)))
  }

  /** One event macro: make room, store, advance. */
  function Put(s: Library, ev: Event): (r: Library)
    requires s.Valid()
    ensures r.Valid()
  {
    var t := if 8 * |s.pending| + 8 > s.room then DumpBuffer(s) else s;
    t.(pending := t.pending + [ev])
  }

  /** What a program does with the library: event macros, and dumps wherever it likes. */
  datatype Action = PutEvent(ev: Event) | Dump

  function Act(s: Library, a: Action): (r: Library)
    requires s.Valid()
    ensures r.Valid()
  {
    match a
    case PutEvent(ev) => Put(s, ev)
    case Dump => DumpBuffer(s)
  }

  function ActAll(s: Library, actions: seq<Action>): (r: Library)
    requires s.Valid()
    ensures r.Valid()
  {
    if actions == [] then s else Act(ActAll(s, actions[..|actions| - 1]), actions[|actions| - 1])
  }

  /** The library after initialisation; a length outside 32 .. 2048 is replaced. */
  function Opened(buflen: int): (s: Library)
    ensures s.Valid()
  {
    Library([], if buflen < 32 || buflen > 2048 then 2048 else buflen, Player([], 0, false, []))
  }

  function EventsOf(actions: seq<Action>): seq<Event> {
    if actions == [] then []
    else
      var last := actions[|actions| - 1];
      EventsOf(actions[..|actions| - 1]) + if last.PutEvent? then [last.ev] else []
  }

  // ---------------------------------------------------------------- the unbuffered sequencer

  /** The device's input, flattened: the start, tempo changes, and single bytes with their ticks. */
  datatype Record = TimerStarted | TempoSet(tick: nat, parm: nat) | MidiByte(tick: nat, data: byte)

  function Stamp(tick: nat, bytes: seq<byte>): (r: seq<Record>)
    ensures |r| == |bytes| && forall i :: 0 <= i < |r| ==> r[i] == MidiByte(tick, bytes[i])
  {
    seq(|bytes|, i requires 0 <= i < |bytes| => MidiByte(tick, bytes[i]))
  }

  function Flatten(packets: seq<Packet>): seq<Record> {
    if packets == [] then []
    else Flatten(packets[..|packets| - 1]) + match packets[|packets| - 1]
      case Start => [TimerStarted]
      case Tempo(tick, parm) => [TempoSet(tick, parm)]
      case Write(tick, payload) => Stamp(tick, payload)
  }

  /** The current tick after a list of events. */
  function TickAfter(events: seq<Event>): nat {
    if events == [] then 0 else NextTick(TickAfter(events[..|events| - 1]), events[|events| - 1])
  }

  /** What one event puts on the device at the given tick. */
  function EventRecords(tick: nat, ev: Event): seq<Record> {
    if ev[0] == EV_TIMING && ev[1] == TMR_TEMPO then [TempoSet(tick, Parm(ev))] else Stamp(tick, EventBytes(ev))
  }

  /** Every event on its own, as if nothing were ever buffered. */
  function Played(events: seq<Event>): seq<Record> {
    if events == [] then []
    else Played(events[..|events| - 1]) + EventRecords(TickAfter(events[..|events| - 1]), events[|events| - 1])
  }

  /** The unbuffered sequencer: the start comes first, and only if there is anything to play. */
  function Unbuffered(events: seq<Event>): seq<Record> {
    if Played(events) == [] then [] else [TimerStarted] + Played(events)
  }

  // ---------------------------------------------------------------- refinement

  /** The start, then `body`, has been written, except for the bytes still held; with a timer that does
      not run, nothing has been written. */
  ghost predicate Holds(p: Player, body: seq<Record>) {
    var flat := Flatten(p.written);
    if p.started then flat + Stamp(p.tick, p.midibuf) == [TimerStarted] + body
    else flat == [] && Stamp(p.tick, p.midibuf) == body
  }

  /** `p` has received the records `body`; the timer runs only if there are any. */
  ghost predicate Received(p: Player, body: seq<Record>) {
    Holds(p, body) && (p.started ==> body != [])
  }

  lemma FlattenMore(packets: seq<Packet>, p: Packet)
    ensures Flatten(packets + [p]) == Flatten(packets) + match p
      case Start => [TimerStarted]
      case Tempo(tick, parm) => [TempoSet(tick, parm)]
      case Write(tick, payload) => Stamp(tick, payload)
  {
    assert (packets + [p])[..|packets|] == packets;
  }

  lemma StartTimerHolds(p: Player, body: seq<Record>)
    requires Holds(p, body)
    ensures Holds(StartTimer(p), body)
  {
    if !p.started {
      FlattenMore(p.written, Start);
    }
  }

  lemma DumpReceived(p: Player, body: seq<Record>)
    requires Received(p, body)
    ensures Received(DumpMidi(p), body)
  {
    if p.midibuf != [] {
      StartTimerHolds(p, body);
      var s := StartTimer(p);
      FlattenMore(s.written, Write(p.tick, p.midibuf));
      NothingHeld(DumpMidi(p), body);
    }
  }

  /** With no bytes held, the writes are everything. */
  lemma NothingHeld(p: Player, body: seq<Record>)
    requires p.midibuf == [] && p.started && Flatten(p.written) == [TimerStarted] + body
    ensures Holds(p, body)
  {
    assert Flatten(p.written) + Stamp(p.tick, []) == Flatten(p.written);
  }

  lemma OutReceived(p: Player, bytes: seq<byte>, body: seq<Record>)
    requires p.Valid() && |bytes| <= 6 && Received(p, body)
    ensures Received(Out(p, bytes), body + Stamp(p.tick, bytes))
  {
    if |p.midibuf| > 950 {
      DumpReceived(p, body);
    }
    AppendReceived(if |p.midibuf| > 950 then DumpMidi(p) else p, bytes, body);
  }

  lemma AppendReceived(q: Player, bytes: seq<byte>, body: seq<Record>)
    requires Received(q, body)
    ensures Received(q.(midibuf := q.midibuf + bytes), body + Stamp(q.tick, bytes))
  {
    assert Stamp(q.tick, q.midibuf + bytes) == Stamp(q.tick, q.midibuf) + Stamp(q.tick, bytes);
    Assoc(Flatten(q.written), Stamp(q.tick, q.midibuf), Stamp(q.tick, bytes));
    Assoc([TimerStarted], body, Stamp(q.tick, bytes));
  }

  lemma TempoReceived(d: Player, parm: nat, body: seq<Record>)
    requires Received(d, body) && d.midibuf == []
    ensures var s := StartTimer(d);
      Received(s.(written := s.written + [Tempo(d.tick, parm)]), body + [TempoSet(d.tick, parm)])
  {
    StartTimerHolds(d, body);
    var s := StartTimer(d);
    FlattenMore(s.written, Tempo(d.tick, parm));
    assert Flatten(s.written) + Stamp(d.tick, []) == Flatten(s.written);
    Assoc([TimerStarted], body, [TempoSet(d.tick, parm)]);
    NothingHeld(s.(written := s.written + [Tempo(d.tick, parm)]), body + [TempoSet(d.tick, parm)]);
  }

  lemma TimingReceived(p: Player, ev: Event, body: seq<Record>)
    requires ev[0] == EV_TIMING && Received(p, body)
    ensures Received(DoTiming(p, ev), body + EventRecords(p.tick, ev))
    ensures DoTiming(p, ev).tick == NextTick(p.tick, ev)
  {
    DumpReceived(p, body);
    if ev[1] == TMR_TEMPO {
      TempoReceived(DumpMidi(p), Parm(ev), body);
    } else {
      assert body + EventRecords(p.tick, ev) == body;
      MoveTick(DumpMidi(p), NextTick(p.tick, ev), body);
    }
  }

  /** With no bytes held the tick may move. */
  lemma MoveTick(d: Player, tick: nat, body: seq<Record>)
    requires Received(d, body) && d.midibuf == []
    ensures Received(d.(tick := tick), body)
  {
    assert Stamp(tick, []) == Stamp(d.tick, []);
  }

  lemma PlayReceived(p: Player, ev: Event, body: seq<Record>)
    requires p.Valid() && Received(p, body)
    ensures Received(PlayEvent(p, ev), body + EventRecords(p.tick, ev))
    ensures PlayEvent(p, ev).tick == NextTick(p.tick, ev)
  {
    if ev[0] == EV_TIMING {
      TimingReceived(p, ev, body);
    } else if ev[0] == EV_CHN_COMMON || ev[0] == EV_CHN_VOICE || ev[0] == EV_SYSEX {
      OutReceived(p, EventBytes(ev), body);
    } else {
      assert body + EventRecords(p.tick, ev) == body;
    }
  }

  lemma OneMorePlayed(events: seq<Event>, ev: Event)
    ensures TickAfter(events + [ev]) == NextTick(TickAfter(events), ev)
    ensures Played(events + [ev]) == Played(events) + EventRecords(TickAfter(events), ev)
  {
    assert (events + [ev])[..|events|] == events;
  }

  lemma NextReceived(p: Player, events: seq<Event>, ev: Event)
    requires p.Valid() && Received(p, Played(events)) && p.tick == TickAfter(events)
    ensures Received(PlayEvent(p, ev), Played(events + [ev])) && PlayEvent(p, ev).tick == TickAfter(events + [ev])
  {
    PlayReceived(p, ev, Played(events));
    OneMorePlayed(events, ev);
  }

  lemma LastApart(before: seq<Event>, events: seq<Event>)
    requires events != []
    ensures before + events == before + events[..|events| - 1] + [events[|events| - 1]]
  {
  }

  lemma {:induction false} PlayAllReceived(p: Player, before: seq<Event>, events: seq<Event>)
    requires p.Valid() && Received(p, Played(before)) && p.tick == TickAfter(before)
    ensures var r := PlayAll(p, events); Received(r, Played(before + events)) && r.tick == TickAfter(before + events)
  {
    if events == [] {
      assert before + events == before;
    } else {
      var front, last := events[..|events| - 1], events[|events| - 1];
      PlayAllReceived(p, before, front);
      LastApart(before, events);
      NextReceived(PlayAll(p, front), before + front, last);
    }
  }

  /** The player has received the events played so far; the others are pending. */
  ghost predicate Keeps(s: Library, played: seq<Event>) {
    s.Valid() && Received(s.player, Played(played)) && s.player.tick == TickAfter(played)
  }

  lemma DumpKeeps(s: Library, played: seq<Event>)
    requires Keeps(s, played)
    ensures Keeps(DumpBuffer(s), played + s.pending)
  {
    PlayAllReceived(s.player, played, s.pending);
    DumpReceived(PlayAll(s.player, s.pending), Played(played + s.pending));
  }

  lemma ActKeeps(s: Library, played: seq<Event>, a: Action) returns (played': seq<Event>)
    requires Keeps(s, played)
    ensures Keeps(Act(s, a), played')
    ensures played' + Act(s, a).pending == played + s.pending + if a.PutEvent? then [a.ev] else []
  {
    DumpKeeps(s, played);
    if a.Dump? || 8 * |s.pending| + 8 > s.room {
      played' := played + s.pending;
    } else {
      played' := played;
      Assoc(played, s.pending, [a.ev]);
    }
  }

  lemma {:induction false} ActAllKeeps(s: Library, actions: seq<Action>) returns (played: seq<Event>)
    requires Keeps(s, []) && s.pending == []
    ensures Keeps(ActAll(s, actions), played) && played + ActAll(s, actions).pending == EventsOf(actions)
  {
    if actions == [] {
      played := [];
    } else {
      var earlier := ActAllKeeps(s, actions[..|actions| - 1]);
      played := ActKeeps(ActAll(s, actions[..|actions| - 1]), earlier, actions[|actions| - 1]);
    }
  }

  /** The buffered sequencer refines the unbuffered one. For every list of events, every buffer length
      and every placement of dumps, once the buffer has been dumped the device has received exactly the
      unbuffered stream: the start first and once, then every tempo change and every byte in order, each
      with the tick of its own event. */
  lemma BufferingIsInvisible(buflen: int, actions: seq<Action>)
    ensures Flatten(DumpBuffer(ActAll(Opened(buflen), actions)).player.written) == Unbuffered(EventsOf(actions))
  {
    var s := Opened(buflen);
    var played := ActAllKeeps(s, actions);
    var t := ActAll(s, actions);
    DumpKeeps(t, played);
    var p := DumpBuffer(t).player;
    assert Flatten(p.written) + Stamp(p.tick, []) == Flatten(p.written);
  }
}
