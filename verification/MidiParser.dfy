/** The MIDI input parser: what one byte does to it (functions), and the parser object with its
    64-byte message buffer, which does the same byte by byte. */
module MidiParser {
  import opened Bytes

  const MI_MAX: nat := 64

  const CAT_VOICE := 0
  const CAT_MTC := 1
  const CAT_SYSEX := 2
  const CAT_CHN := 3
  const CAT_REALTIME := 4

  /** An `oss_mtc_data_t` record. */
  datatype Mtc = Mtc(hours: byte, minutes: byte, seconds: byte,
                     frames: byte, qframes: byte, direction: int, timeCodeType: byte)

  /** A call of the client's message callback or of its time code callback. */
  datatype Callback =
    | Message(category: int, msg: byte, channel: byte, parms: seq<byte>)
    | TimeCode(mtc: Mtc)

  datatype MtcState = MtcState(prevIx: int, started: bool, offset: int, mtc: Mtc, mtc0: Mtc)

  datatype Scan = Init | InData | InSysex

  /** The parser; `buf` is the filled part of its buffer, `hasMtc` says that a time code callback is set. */
  datatype Parser = Parser(scan: Scan, left: int, buf: seq<byte>,
                           prevStatus: byte, f1Flag: bool, hasMtc: bool, mtc: MtcState) {
    predicate Valid() {
      && (prevStatus >= 128 ==> prevStatus < 240)
      && -1 <= mtc.prevIx
      && match scan
         case Init => buf == []
         case InData =>
           && buf != [] && buf[0] >= 128 && 0 <= left
           && if buf[0] < 240 then |buf| < 3 && |buf| + left == 1 + DataBytes(buf[0])
              else (buf[0] == 242 || buf[0] == 243) && left > 0 && |buf| + left <= 3
         case InSysex => |buf| < MI_MAX
    }
  }

  /** The number of data bytes that follow a channel status byte. */
  function DataBytes(status: byte): (n: int)
    requires 128 <= status < 240
    ensures n == 1 || n == 2
  {
    if 192 <= status < 224 then 1 else 2
  }

  /** Bitwise or. */
  function BitOr(a: nat, b: nat): nat {
    if a == 0 then b else if b == 0 then a
    else (if a % 2 == 1 || b % 2 == 1 then 1 else 0) + 2 * BitOr(a / 2, b / 2)
  }

  lemma {:induction false} OrBounded(a: nat, b: nat, n: nat)
    requires a < n && b < n
    requires (n == 256 || n == 128 || n == 64 || n == 32 || n == 16 || n == 8 || n == 4 || n == 2 || n == 1)
    ensures BitOr(a, b) < n
    decreases n
  {
    if n > 1 {
      OrBounded(a / 2, b / 2, n / 2);
    }
  }

  lemma Halves(b: nat, n: nat)
    requires (n == 2 || n == 4 || n == 8 || n == 16) && b % n == 0
    ensures b == 2 * (b / 2) && b / 2 % (n / 2) == 0
  {
    if n == 4 {
      assert b / 2 == 2 * (b / 4) && b / 2 % 2 == 0;
    } else if n == 8 {
      assert b / 2 == 4 * (b / 8) && b / 2 % 4 == 0;
    } else if n == 16 {
      assert b / 2 == 8 * (b / 16) && b / 2 % 8 == 0;
    }
  }

  /** Two numbers with no bit in common. */
  lemma {:induction false} OrAdds(a: nat, b: nat, n: nat)
    requires n == 1 || n == 2 || n == 4 || n == 8 || n == 16
    requires a < n && b % n == 0
    ensures BitOr(a, b) == BitOr(b, a) == a + b
    decreases n
  {
    if n > 1 {
      Halves(b, n);
      OrAdds(a / 2, b / 2, n / 2);
    }
  }

  /** `field |= nibble << 4` on an unsigned byte. */
  function OrHigh(field: byte, nibble: nat): byte
    requires nibble < 16
  {
    OrBounded(field, 16 * nibble, 256);
    BitOr(field, 16 * nibble)
  }

  // ---------------------------------------------------------------- MIDI time code

  const NO_TIME := Mtc(0, 0, 0, 0, 0, 0, 0)

  function FrameType(code: nat): byte
    requires code < 4
  {
    if code == 0 then 24 else if code == 1 then 25 else if code == 2 then 29 else 30
  }

  /** The time reported: the latest complete time code plus `offset` quarter frames, with every field
      an unsigned byte. */
  function ReportedTime(st: MtcState): Mtc {
    var m := st.mtc;
    var q := (m.qframes + st.offset) % 256;
    var f := (m.frames + q / 4) % 256;
    var rate := if m.timeCodeType == 0 then 30 else m.timeCodeType;
    var s := (m.seconds + f / rate) % 256;
    var min := (m.minutes + s / 60) % 256;
    m.(qframes := q % 4, frames := f % rate, timeCodeType := rate, seconds := s % 60, minutes := min % 60,
       hours := (m.hours + min / 60) % 256)
  }

  function Direction(prevIx: int, ix: nat): int {
    if ix == (prevIx + 1) % 8 then 1 else if ix == prevIx then 0 else -1
  }

  /** Storing the four data bits of piece `ix`. */
  function StorePiece(st: MtcState, ix: nat, data: nat): MtcState
    requires ix < 16 && data < 16
  {
    var m := st.mtc0;
    match ix
    case 0 => st.(mtc0 := m.(qframes := 0, frames := data))
    case 1 => st.(mtc0 := m.(frames := OrHigh(m.frames, data)))
    case 2 => st.(mtc0 := m.(seconds := data))
    case 3 => st.(mtc0 := m.(seconds := OrHigh(m.seconds, data)))
    case 4 => st.(mtc0 := m.(minutes := data))
    case 5 => st.(mtc0 := m.(minutes := OrHigh(m.minutes, data)))
    case 6 => st.(mtc0 := m.(hours := data))
    case 7 =>
      var hours := OrHigh(m.hours, data);
      var complete := m.(timeCodeType := FrameType(hours / 32 % 4), hours := hours % 32);
      st.(mtc0 := complete, mtc := complete)
    case _ => st
  }

  /** One quarter-frame data byte; before the first piece 0 nothing is reported. */
  function MtcMessage(st: MtcState, b: byte): (MtcState, seq<Callback>) {
    var ix, data := b / 16, b % 16;
    var dir := Direction(st.prevIx, ix);
    var turned := st.(mtc := st.mtc.(direction := dir), mtc0 := st.mtc0.(direction := dir), prevIx := ix);
    if !st.started && ix != 0 then (turned, [])
    else
      var begun := if st.started then turned else turned.(started := true, offset := -1);
      var stored := StorePiece(begun, ix, data);
      var moved := stored.(offset := if ix == 7 then 7 else stored.offset + 1);
      (moved, [TimeCode(ReportedTime(moved))])
  }

  // ---------------------------------------------------------------- messages

  /** A complete channel or system common message goes to the callback. */
  function MidiMessage(msg: seq<byte>): seq<Callback>
    requires msg != [] && (128 <= msg[0] < 240 ==> |msg| > DataBytes(msg[0]))
  {
    var code, channel := msg[0] / 16 * 16, msg[0] % 16;
    if code == 0x90 then
      if msg[2] != 0 then [Message(CAT_VOICE, 0x90, channel, [msg[1], msg[2], 0])]
      else [Message(CAT_VOICE, 0x80, channel, [msg[1], 64, 0])]
    else if code == 0x80 || code == 0xA0 || code == 0xE0 then [Message(CAT_VOICE, code, channel, [msg[1], msg[2], 0])]
    else if code == 0xB0 then [Message(CAT_CHN, code, channel, [msg[1], msg[2], 0])]
    else if code == 0xC0 || code == 0xD0 then [Message(CAT_CHN, code, channel, [msg[1], 0, 0])]
    else if code == 0xF0 then [Message(CAT_REALTIME, msg[0], 0, msg)]
    else []
  }

  function StepInit(p: Parser, data: byte): (r: (Parser, seq<Callback>))
    requires p.Valid() && p.scan == Init && data < 248 && data != 241
    ensures r.0.Valid()
  {
    if data >= 240 then
      if data == 240 then (p.(scan := InSysex, left := MI_MAX, buf := [data]), [])
      else if data == 243 then (p.(scan := InData, left := 1, buf := [data]), [])
      else if data == 242 then (p.(scan := InData, left := 2, buf := [data]), [])
      else (p.(left := 0), MidiMessage([data]))
    else if data >= 128 then
      (p.(scan := InData, left := DataBytes(data), buf := [data], prevStatus := data), [])
    else if p.prevStatus >= 128 then
      (p.(scan := InData, left := DataBytes(p.prevStatus) - 1, buf := [p.prevStatus, data]), [])
    else (p, [])
  }

  function StepData(p: Parser, data: byte): (r: (Parser, seq<Callback>))
    requires p.Valid() && p.scan == InData
    ensures r.0.Valid()
  {
    var msg := p.buf + [data];
    if p.left - 1 <= 0 then (p.(scan := Init, left := p.left - 1, buf := []), MidiMessage(msg))
    else (p.(left := p.left - 1, buf := msg), [])
  }

  function StepSysex(p: Parser, data: byte): (r: (Parser, seq<Callback>))
    requires p.Valid() && p.scan == InSysex
    ensures r.0.Valid()
  {
    var msg := p.buf + [data];
    if data == 247 then (p.(scan := Init, left := 0, buf := []), [Message(CAT_SYSEX, 0, 0, msg)])
    else if |msg| >= MI_MAX then (p.(buf := []), [Message(CAT_SYSEX, 0, 0, msg)])
    else (p.(buf := msg), [])
  }

  /** The second byte of a quarter-frame message. */
  function StepQuarterFrame(p: Parser, data: byte): (r: (Parser, seq<Callback>))
    requires p.Valid()
    ensures r.0.Valid()
  {
    if p.hasMtc then
      var (mtc, calls) := MtcMessage(p.mtc, data);
      (p.(f1Flag := false, mtc := mtc), calls)
    else (p.(f1Flag := false), [Message(CAT_MTC, 0xF1, 0, [data, 0, 0])])
  }

  /** One input byte. */
  function Step(p: Parser, data: byte): (r: (Parser, seq<Callback>))
    requires p.Valid()
    ensures r.0.Valid()
  {
    if data == 254 then (p, [])
    else if data >= 248 then (p, [Message(CAT_REALTIME, data, 0, [0, 0, 0])])
    else if data == 241 then (p.(f1Flag := true), [])
    else if p.f1Flag then StepQuarterFrame(p, data)
    else match p.scan
      case Init => StepInit(p, data)
      case InData => StepData(p, data)
      case InSysex => StepSysex(p, data)
  }

  /** A buffer of input bytes. */
  function Feed(p: Parser, bytes: seq<byte>): (r: (Parser, seq<Callback>))
    requires p.Valid()
    ensures r.0.Valid()
    decreases bytes
  {
    if bytes == [] then (p, [])
    else
      var (p1, first) := Step(p, bytes[0]);
      var (p2, rest) := Feed(p1, bytes[1..]);
      (p2, first + rest)
  }

  lemma Assoc<T>(a: seq<T>, b: seq<T>, c: seq<T>)
    ensures a + b + c == a + (b + c)
  {
  }

  lemma FeedFirst(p: Parser, data: byte, rest: seq<byte>)
    requires p.Valid()
    ensures Feed(p, [data] + rest) == (Feed(Step(p, data).0, rest).0, Step(p, data).1 + Feed(Step(p, data).0, rest).1)
  {
    assert ([data] + rest)[1..] == rest;
  }

  lemma {:induction false} FeedConcat(p: Parser, a: seq<byte>, b: seq<byte>)
    requires p.Valid()
    ensures Feed(p, a + b) == (Feed(Feed(p, a).0, b).0, Feed(p, a).1 + Feed(Feed(p, a).0, b).1)
    decreases a
  {
    if a == [] {
      assert a + b == b;
      assert [] + Feed(p, b).1 == Feed(p, b).1;
    } else {
      assert (a + b)[1..] == a[1..] + b;
      var (p1, first) := Step(p, a[0]);
      FeedConcat(p1, a[1..], b);
      Assoc(first, Feed(p1, a[1..]).1, Feed(Feed(p1, a[1..]).0, b).1);
    }
  }

  lemma FeedOne(p: Parser, data: byte)
    requires p.Valid()
    ensures Feed(p, [data]) == Step(p, data)
  {
    var r := Step(p, data);
    assert [data][1..] == [] && r.1 + [] == r.1;
    assert Feed(r.0, []) == (r.0, []);
  }

  lemma FeedOneMore(p: Parser, a: seq<byte>, data: byte)
    requires p.Valid()
    ensures Feed(p, a + [data]) == (Step(Feed(p, a).0, data).0, Feed(p, a).1 + Step(Feed(p, a).0, data).1)
  {
    FeedConcat(p, a, [data]);
    FeedOne(Feed(p, a).0, data);
  }

  function Fresh(hasMtc: bool): (p: Parser)
    ensures p.Valid()
  {
    Parser(Init, 0, [], 0, false, hasMtc, MtcState(-1, false, 0, NO_TIME, NO_TIME))
  }

  // ---------------------------------------------------------------- the parser object

  class MidiInput {
    var scan: Scan
    var ptr: nat
    var left: int
    const buf: array<byte>
    var prevStatus: byte
    var f1Flag: bool
    const hasMtc: bool
    var mtcState: MtcState
    /** Every callback made so far. */
    var calls: seq<Callback>

    ghost predicate Valid()
      reads this, buf
    {
      buf.Length == MI_MAX && ptr <= MI_MAX && State().Valid()
    }

    ghost function State(): Parser
      requires buf.Length == MI_MAX && ptr <= MI_MAX
      reads this, buf
    {
      Parser(scan, left, buf[..ptr], prevStatus, f1Flag, hasMtc, mtcState)
    }

    constructor (hasMtc: bool)
      ensures Valid() && State() == Fresh(hasMtc) && calls == []
    {
      scan, ptr, left, prevStatus, f1Flag, calls := Init, 0, 0, 0, false, [];
      this.hasMtc := hasMtc;
      mtcState := MtcState(-1, false, 0, NO_TIME, NO_TIME);
      buf := new byte[MI_MAX](_ => 0);
    }

    /** What one byte must have done. */
    twostate predicate Did(r: (Parser, seq<Callback>))
      requires Valid()
      reads this, buf
    {
      State() == r.0 && calls == old(calls) + r.1
    }

    method InInit(data: byte)
      requires Valid() && scan == Init && data < 248 && data != 241
      modifies this, buf
      ensures Valid() && Did(StepInit(old(State()), data))
    {
      if data >= 128 {
        buf[0] := data;
        if data >= 240 {
          if data == 240 {
            scan, ptr, left := InSysex, 1, MI_MAX;
          } else if data == 243 {
            scan, ptr, left := InData, 1, 1;
          } else if data == 242 {
            scan, ptr, left := InData, 1, 2;
          } else {
            calls := calls + MidiMessage(buf[..1]);
            ptr, left := 0, 0;
          }
        } else {
          scan, ptr, left, prevStatus := InData, 1, DataBytes(data), data;
        }
      } else if prevStatus >= 128 {
        scan, ptr, left := InData, 2, DataBytes(prevStatus) - 1;
        buf[0], buf[1] := prevStatus, data;
      }
    }

    method InDataBytes(data: byte)
      requires Valid() && scan == InData
      modifies this, buf
      ensures Valid() && Did(StepData(old(State()), data))
    {
      buf[ptr] := data;
      ptr := ptr + 1;
      assert buf[..ptr] == old(buf[..ptr]) + [data];
      left := left - 1;
      if left <= 0 {
        scan := Init;
        calls := calls + MidiMessage(buf[..ptr]);
        ptr := 0;
      }
    }

    method InSysexBytes(data: byte)
      requires Valid() && scan == InSysex
      modifies this, buf
      ensures Valid() && Did(StepSysex(old(State()), data))
    {
      buf[ptr] := data;
      ptr := ptr + 1;
      assert buf[..ptr] == old(buf[..ptr]) + [data];
      if data == 247 {
        calls := calls + [Message(CAT_SYSEX, 0, 0, buf[..ptr])];
        scan, left, ptr := Init, 0, 0;
      } else if ptr >= MI_MAX {
        calls := calls + [Message(CAT_SYSEX, 0, 0, buf[..ptr])];
        ptr := 0;
      }
    }

    method Input(data: byte)
      requires Valid()
      modifies this, buf
      ensures Valid() && Did(Step(old(State()), data))
    {
      if data == 254 {
        return;
      }
      if data >= 248 {
        calls := calls + [Message(CAT_REALTIME, data, 0, [0, 0, 0])];
        return;
      }
      if data == 241 {
        f1Flag := true;
        return;
      }
      if f1Flag {
        f1Flag := false;
        if hasMtc {
          var (next, made) := MtcMessage(mtcState, data);
          mtcState := next;
          calls := calls + made;
        } else {
          calls := calls + [Message(CAT_MTC, 0xF1, 0, [data, 0, 0])];
        }
        return;
      }
      match scan
      case Init => InInit(data);
      case InData => InDataBytes(data);
      case InSysex => InSysexBytes(data);
    }

    /** The state and the callbacks are those of some bytes fed to an earlier parser. */
    ghost predicate Went(p: Parser, before: seq<Callback>, bytes: seq<byte>)
      requires p.Valid()
      reads this, buf
    {
      Valid() && State() == Feed(p, bytes).0 && calls == before + Feed(p, bytes).1
    }

    method InputOne(data: byte, ghost p: Parser, ghost before: seq<Callback>, ghost bytes: seq<byte>)
      requires p.Valid() && Went(p, before, bytes)
      modifies this, buf
      ensures Went(p, before, bytes + [data])
    {
      FeedOneMore(p, bytes, data);
      Assoc(before, Feed(p, bytes).1, Step(State(), data).1);
      Input(data);
    }

    method InputBuf(data: array<byte>, len: nat)
      requires Valid() && len <= data.Length && data != buf
      modifies this, buf
      ensures Valid() && Did(Feed(old(State()), old(data[..len])))
    {
      ghost var p, before, bytes := State(), calls, data[..];
      for i := 0 to len
        invariant data[..] == bytes && Went(p, before, bytes[..i])
      {
        assert bytes[..i + 1] == bytes[..i] + [data[i]];
        InputOne(data[i], p, before, bytes[..i]);
      }
      assert bytes[..len] == old(data[..len]);
    }
  }
}
