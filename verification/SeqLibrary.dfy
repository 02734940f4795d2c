/** The sequencer library as it runs: the event macros store bytes into the event buffer, the player
    moves them into the MIDI packet, and both buffers are updated in place. */
module SeqLibrary {
  import opened Bytes
  import opened MidiParser
  import opened Sequencer

  // ---------------------------------------------------------------- the macros' events

  function VoiceEvent(dev: byte, event: byte, chn: byte, note: byte, parm: byte): Event {
    [EV_CHN_VOICE, dev, event, chn, note, parm, 0, 0]
  }

  function CommonEvent(dev: byte, event: byte, chn: byte, p1: byte, p2: byte, w14: nat): Event {
    [EV_CHN_COMMON, dev, event, chn, p1, p2, w14 % 256, w14 / 256 % 256]
  }

  function TimerEvent(code: byte, parm: nat): Event {
    [EV_TIMING, code, 0, 0, parm % 256, parm / 256 % 256, parm / 65536 % 256, parm / 16777216 % 256]
  }

  /** A SYSEX event: at most six bytes, filled up with 0xff. */
  function SysexEvent(dev: byte, bytes: seq<byte>): (ev: Event) {
    [EV_SYSEX, dev] + seq(6, i requires 0 <= i < 6 => if i < |bytes| then bytes[i] else 255)
  }

  // ---------------------------------------------------------------- events in a byte buffer

  function Events(bytes: seq<byte>): (r: seq<Event>)
    ensures |r| == |bytes| / 8
  {
    seq(|bytes| / 8, i requires 0 <= i < |bytes| / 8 => bytes[8 * i..8 * i + 8])
  }

  lemma OneMoreEvent(bytes: seq<byte>, n: nat)
    requires n % 8 == 0 && n + 8 <= |bytes|
    ensures Events(bytes[..n + 8]) == Events(bytes[..n]) + [bytes[n..n + 8]]
  {
    var more := bytes[..n + 8];
    forall i | 0 <= i < n / 8
      ensures Events(more)[i] == Events(bytes[..n])[i]
    {
      assert more[8 * i..8 * i + 8] == bytes[..n][8 * i..8 * i + 8];
    }
    assert more[n..n + 8] == bytes[n..n + 8];
  }

  lemma EventAt(bytes: seq<byte>, k: nat)
    requires 8 * k + 8 <= |bytes|
    ensures k < |Events(bytes)| && Events(bytes)[k] == bytes[8 * k..8 * k + 8]
  {
  }

  lemma PlayAllMore(p: Player, events: seq<Event>, n: nat)
    requires p.Valid() && n < |events|
    ensures PlayAll(p, events[..n + 1]) == PlayEvent(PlayAll(p, events[..n]), events[n])
  {
    assert events[..n + 1][..n] == events[..n];
  }

  lemma OneByteOn(ev: Event, l: nat, rest: seq<byte>)
    requires 2 <= l < 8
    ensures ev[2..l + 1] + rest == ev[2..l] + ([ev[l]] + rest)
  {
  }

  class SeqLib {
    const seqbuf: array<byte>
    var ptr: nat
    const midibuf: array<byte>
    var mp: nat
    var currentTick: nat
    var timerStarted: bool
    /** Every packet written to the device. */
    var written: seq<Packet>

    ghost predicate Valid()
      reads this
    {
      && 32 <= seqbuf.Length <= 2048 && ptr <= seqbuf.Length && ptr % 8 == 0
      && midibuf.Length == MIDI_PAYLOAD_SIZE && mp <= 956 && seqbuf != midibuf
    }

    ghost function ThePlayer(): (p: Player)
      requires Valid()
      reads this, midibuf
      ensures p.Valid()
    {
      Player(midibuf[..mp], currentTick, timerStarted, written)
    }

    ghost function State(): (s: Library)
      requires Valid()
      reads this, seqbuf, midibuf
      ensures s.Valid()
    {
      Library(Events(seqbuf[..ptr]), seqbuf.Length, ThePlayer())
    }

    constructor (buflen: int)
      ensures Valid() && State() == Opened(buflen) && fresh(seqbuf) && fresh(midibuf)
    {
      ptr, mp, currentTick, timerStarted, written := 0, 0, 0, false, [];
      seqbuf := new byte[if buflen < 32 || buflen > 2048 then 2048 else buflen](_ => 0);
      midibuf := new byte[MIDI_PAYLOAD_SIZE](_ => 0);
    }

    // -------------------------------------------------------------- the player

    method StartTheTimer()
      requires Valid() && !timerStarted
      modifies this`timerStarted, this`written
      ensures Valid() && ThePlayer() == StartTimer(old(ThePlayer()))
    {
      written := written + [Start];
      timerStarted := true;
    }

    method DumpPacket()
      requires Valid()
      modifies this`mp, this`timerStarted, this`written
      ensures Valid() && ThePlayer() == DumpMidi(old(ThePlayer())) && mp == 0
    {
      if mp > 0 {
        if !timerStarted {
          StartTheTimer();
        }
        written := written + [Write(currentTick, midibuf[..mp])];
        mp := 0;
      }
    }

    /** Stores up to six bytes behind those in the packet, after writing a packet that is too full. */
    method OutMidi(bytes: seq<byte>)
      requires Valid() && |bytes| <= 6
      modifies this`mp, this`timerStarted, this`written, midibuf
      ensures Valid() && ThePlayer() == Out(old(ThePlayer()), bytes)
    {
      if mp > 950 {
        DumpPacket();
      }
      ghost var q := ThePlayer();
      for i := 0 to |bytes|
        invariant mp == |q.midibuf| + i && |q.midibuf| <= 950
        invariant Valid() && ThePlayer() == q.(midibuf := q.midibuf + bytes[..i])
      {
        midibuf[mp] := bytes[i];
        mp := mp + 1;
        assert midibuf[..mp] == q.midibuf + bytes[..i + 1];
      }
      assert bytes[..|bytes|] == bytes;
    }

    method DoTimingEvent(ev: Event)
      requires Valid() && ev[0] == EV_TIMING
      modifies this`mp, this`timerStarted, this`written, this`currentTick
      ensures Valid() && ThePlayer() == DoTiming(old(ThePlayer()), ev)
    {
      var parm := Parm(ev);
      DumpPacket();
      if ev[1] == TMR_TEMPO {
        if !timerStarted {
          StartTheTimer();
        }
        written := written + [Tempo(currentTick, parm)];
      } else if ev[1] == TMR_WAIT_REL {
        currentTick := (currentTick + parm) % TICKS;
      } else if ev[1] == TMR_WAIT_ABS {
        currentTick := parm;
      }
    }

    /** The length of the data of a SYSEX event: everything before the first filler. */
    method SysexLength(ev: Event) returns (l: nat)
      ensures 2 <= l <= 8 && ev[2..l] == SysexBytes(ev, 2)
    {
      l := 2;
      while l < 8 && ev[l] != 255
        invariant 2 <= l <= 8 && ev[2..l] + SysexBytes(ev, l) == SysexBytes(ev, 2)
      {
        OneByteOn(ev, l, SysexBytes(ev, l + 1));
        l := l + 1;
      }
    }

    method Play(ev: Event)
      requires Valid()
      modifies this`mp, this`timerStarted, this`written, this`currentTick, midibuf
      ensures Valid() && ThePlayer() == PlayEvent(old(ThePlayer()), ev)
    {
      if ev[0] == EV_TIMING {
        DoTimingEvent(ev);
      } else if ev[0] == EV_CHN_COMMON {
        if ev[2] == 0xC0 || ev[2] == 0xD0 {
          OutMidi([Status(ev), ev[4]]);
        } else {
          OutMidi([Status(ev), ev[4], ev[6]]);
        }
      } else if ev[0] == EV_CHN_VOICE {
        OutMidi([Status(ev), ev[4], ev[5]]);
      } else if ev[0] == EV_SYSEX {
        var l := SysexLength(ev);
        OutMidi(ev[2..l]);
      }
    }

    // -------------------------------------------------------------- the event buffer

    /** Event `k`, which is at `at`. */
    method PlayNext(at: nat, ghost k: nat, ghost p0: Player, ghost events: seq<Event>)
      requires Valid() && p0.Valid() && at + 8 <= seqbuf.Length
      requires k < |events| && seqbuf[at..at + 8] == events[k] && ThePlayer() == PlayAll(p0, events[..k])
      modifies this`mp, this`timerStarted, this`written, this`currentTick, midibuf
      ensures Valid() && ThePlayer() == PlayAll(p0, events[..k + 1])
    {
      PlayAllMore(p0, events, k);
      Play(seqbuf[at..at + 8]);
    }

    /** The loop over the events in the buffer. */
    method PlayEvents()
      requires Valid()
      modifies this`mp, this`timerStarted, this`written, this`currentTick, midibuf
      ensures Valid() && ThePlayer() == PlayAll(old(ThePlayer()), Events(seqbuf[..ptr]))
    {
      var l, at := ptr, 0;
      ghost var p0, events, k := ThePlayer(), Events(seqbuf[..ptr]), 0;
      while l >= 8
        invariant Valid() && at + l == ptr && at == 8 * k && k <= |events|
        invariant ThePlayer() == PlayAll(p0, events[..k])
      {
        EventAt(seqbuf[..ptr], k);
        assert seqbuf[at..at + 8] == seqbuf[..ptr][at..at + 8];
        PlayNext(at, k, p0, events);
        l, at, k := l - 8, at + 8, k + 1;
      }
      assert events[..k] == events;
    }

    method SeqbufDump()
      requires Valid()
      modifies this`ptr, this`mp, this`timerStarted, this`written, this`currentTick, midibuf
      ensures Valid() && State() == DumpBuffer(old(State())) && ptr == 0
    {
      PlayEvents();
      ptr := 0;
      DumpPacket();
      assert Events(seqbuf[..0]) == [];
    }

    method NeedBuf(len: nat)
      requires Valid() && len <= 8
      modifies this`ptr, this`mp, this`timerStarted, this`written, this`currentTick, midibuf
      ensures Valid() && ptr + len <= seqbuf.Length
      ensures State() == if old(ptr) + len > seqbuf.Length then DumpBuffer(old(State())) else old(State())
    {
      if ptr + len > seqbuf.Length {
        SeqbufDump();
      }
    }

    /** The eight stores. */
    method StoreBytes(ev: Event)
      requires Valid() && ptr + 8 <= seqbuf.Length
      modifies seqbuf
      ensures seqbuf[..ptr] == old(seqbuf[..ptr]) && seqbuf[ptr..ptr + 8] == ev
    {
      ghost var before := seqbuf[..ptr];
      for i := 0 to 8
        invariant seqbuf[..ptr] == before && seqbuf[ptr..ptr + i] == ev[..i]
      {
        seqbuf[ptr + i] := ev[i];
      }
      assert ev[..8] == ev;
    }

    /** The stores of one event macro. */
    method StoreEvent(ev: Event)
      requires Valid()
      modifies this`ptr, this`mp, this`timerStarted, this`written, this`currentTick, seqbuf, midibuf
      ensures Valid() && State() == Put(old(State()), ev)
    {
      NeedBuf(8);
      StoreBytes(ev);
      OneMoreEvent(seqbuf[..], ptr);
      assert seqbuf[..][..ptr] == seqbuf[..ptr] && seqbuf[..][..ptr + 8] == seqbuf[..ptr + 8];
      ptr := ptr + 8;
    }
  }
}
