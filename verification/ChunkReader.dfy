/** The player's reader of WAVE and AIFF files: its state is changed step by step, and every method is
    proved to do what ChunkWalker says of that step. */
module ChunkReader {
  import opened Bytes
  import opened SampleRate
  import opened ChunkWalker

  datatype Answer = Proceed | Halt(stop: Stop)

  /** The sample rate of a `COMM` chunk. */
  method ReadAiffSpeed(buf: seq<byte>) returns (speed: Speed)
    requires |buf| == 10
    ensures speed == AiffSpeed(buf)
  {
    var exp := buf[0] as int % 128 * 256 + buf[1] as int - 16383;
    var m := buf[2] as int % 128 * 16777216 + buf[3] as int * 65536 + buf[4] as int * 256 + buf[5] as int;
    var rate := Ldexpl(m as real, exp - 31);
    if buf[2] >= 128 {
      var one := Ldexpl(1.0, exp);
      rate := rate + one;
    }
    if buf[0] >= 128 {
      rate := -rate;
    }
    speed := if exp == 16384 then Invalid else ToSpeed(rate);
  }

  class FormReader {
    const kind: Kind
    const file: seq<byte>
    const buf: array<byte>
    var pos: nat
    var curSize: nat
    var futSize: nat
    var totalSize: nat
    var chunkId: nat
    var chunkSize: nat
    var cpos: nat
    var sound: Sound
    ghost var headers: seq<Header>

    ghost predicate Valid() {
      buf.Length == P_READBUF_SIZE
    }

    /** The state as a value. */
    ghost function State(): (r: Reader)
      reads this, buf
      requires Valid()
      ensures r.Valid() && r.kind == kind
    {
      Reader(kind, pos, curSize, futSize, totalSize, chunkId, chunkSize, cpos, buf[..], sound, headers)
    }

    /** A file whose twelve bytes of form header are in the buffer. */
    constructor (kind: Kind, file: seq<byte>, head: seq<byte>, statOk: bool)
      requires |head| == P_READBUF_SIZE
      ensures Valid() && fresh(buf) && this.file == file && this.kind == kind
      ensures State() == InitReader(kind, file, head, statOk)
    {
      this.kind, this.file := kind, file;
      buf := new byte[P_READBUF_SIZE](i requires 0 <= i < |head| => head[i]);
      pos, curSize, futSize, chunkId, chunkSize, cpos := 12, 12, 12, 0, 0, 0;
      sound := Sound(if kind == Wave then AFMT_S16_LE else AFMT_S16_BE, 1, 11025, false, false, 0, 0);
      headers := [];
      new;
      assert buf[..] == head;
      var size := Int(4, 4);
      totalSize := size + 8;
      if statOk && |file| < totalSize {
        totalSize := |file|;
      }
    }

    /** A number of the buffer, in the order of bytes of the form. */
    method Int(at: nat, l: nat) returns (val: nat)
      requires Valid() && at + l <= P_READBUF_SIZE
      ensures val == Number(kind, buf[at..at + l])
    {
      var p := buf[at..at + l];
      assert p == p[..l];
      if kind == Wave {
        val := LeInt(p, l);
      } else {
        val := BeInt(p, l);
      }
    }

    /** The system's `read` into the front of the buffer. */
    method Read(n: nat) returns (got: nat)
      requires Valid() && n <= P_READBUF_SIZE
      modifies this`pos, buf
      ensures got == |Available(file, old(pos), n)|
      ensures pos == old(pos) + got && buf[..] == Into(old(buf[..]), Available(file, old(pos), n))
    {
      got := 0;
      ghost var before := buf[..];
      while got < n && pos < |file|
        invariant got <= n && pos == old(pos) + got && (got > 0 ==> pos <= |file|)
        invariant forall i :: 0 <= i < got ==> buf[i] == file[old(pos) + i]
        invariant forall i :: got <= i < buf.Length ==> buf[i] == before[i]
      {
        buf[got] := file[pos];
        got, pos := got + 1, pos + 1;
      }
      assert buf[..] == Into(before, Available(file, old(pos), n));
    }

    /** The iterator: the next chunk's header, or why there is none. */
    method Iterator() returns (answer: Answer)
      requires Valid()
      modifies this, buf
      ensures Iterate(file, old(State())) == if answer.Proceed? then More(State()) else Done(answer.stop, State())
      decreases State().Left()
    {
      ghost var before := State();
      curSize := futSize + 8;
      if curSize >= totalSize {
        return Halt(Exhausted);
      }
      var at := pos;
      var got := Read(8);
      if got < 8 {
        headers := headers + [Header(at, futSize, true, 0, 0)];
        return Halt(NoHeader);
      }
      assert buf[..8] == buf[..][..8] == Available(file, at, 8);
      assert buf[..4] == buf[..8][..4] && buf[4..8] == buf[..8][4..8] && buf[..4][..4] == buf[..4];
      chunkId := BeInt(buf[..4], 4);
      chunkSize := Int(4, 4);
      cpos := 0;
      headers := headers + [Header(at, futSize, false, chunkId, chunkSize)];
      futSize := futSize + chunkSize + chunkSize % 2 + 8;
      assert State() == ReadHeader(file, before);
      if chunkSize == 0 {
        if sound.ssnd && sound.comm {
          return Halt(EmptyChunk);
        }
        answer := Iterator();
        return;
      }
      return Proceed;
    }

    method WaveFmtParse(len: nat) returns (code: int)
      requires Valid()
      modifies this`sound
      ensures (code, sound) == FmtParse(kind, buf[..], len, old(sound))
    {
      if sound.comm {
        return E_DECODE;
      }
      assert forall i, j | 0 <= i <= j <= P_READBUF_SIZE :: buf[i..j] == buf[..][i..j];
      var wtype := Int(0, 2);
      var channels := Int(2, 2);
      var speed := Int(4, 4);
      var bits := Int(14, 2);
      sound := sound.(format := wtype, channels := channels, speed := ToInt(speed));
      if wtype == 0xFFFE {
        if len < 40 {
          return E_DECODE;
        }
        var inner := Int(24, 2);
        sound := sound.(format := inner);
      }
      var format := WaveFormat(sound.format, bits, kind == WaveBigEndian);
      if format == 0 {
        return E_FORMAT_UNSUPPORTED;
      }
      sound := sound.(format := format, comm := true);
      return 0;
    }

    method AiffCommParse() returns (code: int)
      requires Valid()
      modifies this`sound
      ensures (code, sound) == CommParse(buf[..], old(sound))
    {
      assert buf[..2] == buf[..2][..2] && buf[6..8] == buf[6..8][..2] && buf[8..18] == buf[..][8..18];
      assert buf[..2] == buf[..][..2] && buf[6..8] == buf[..][6..8];
      var channels := BeInt(buf[..2], 2);
      var bits := BeInt(buf[6..8], 2);
      sound := sound.(channels := channels, format := LinearFormat(bits + bits % 8, true));
      var speed := ReadAiffSpeed(buf[8..18]);
      if speed == Invalid {
        return E_DECODE;
      }
      sound := sound.(speed := SpeedToInt(speed), comm := true);
      return 0;
    }

    method SoundParse(offset: nat, size: int) returns (code: int)
      requires Valid()
      modifies this`sound
      ensures (code, sound) ==
        if old(sound).ssnd then (E_DECODE, old(sound))
        else (0, old(sound).(location := curSize + offset, size := size, ssnd := true))
    {
      if sound.ssnd {
        return E_DECODE;
      }
      sound := sound.(location := curSize + offset, size := size, ssnd := true);
      return 0;
    }

    /** The handler of the chunk at hand. */
    method CallHandler(action: Action, len: nat) returns (code: int)
      requires Valid()
      modifies this`sound
      ensures (code, sound) == Handle(action, old(State()), len)
    {
      match action
      case ParseFmt => code := WaveFmtParse(len);
      case ParseData => code := SoundParse(0, chunkSize);
      case ParseComm => code := AiffCommParse();
      case ParseSsnd =>
        assert buf[..4] == buf[..4][..4] == buf[..][..4];
        var offset := BeInt(buf[..4], 4);
        code := SoundParse(8 + offset, chunkSize - 8);
      case Ignore => code := 0;
    }

    /** Forward to the next chunk. */
    method Skip()
      requires Valid()
      modifies this`pos
      ensures State() == SkipRest(old(State()))
    {
      if futSize < totalSize && pos + futSize >= curSize + cpos {
        pos := pos + futSize - curSize - cpos;
      }
    }

    /** The body of the loop: the table is searched, the chunk is read and handled, and the rest skipped. */
    method VisitOne() returns (answer: Answer)
      requires Valid()
      modifies this, buf
      ensures Visit(file, old(State())) == if answer.Proceed? then More(State()) else Done(answer.stop, State())
    {
      var e := Lookup(kind, chunkId);
      if e.Entry? && chunkSize >= e.minSize {
        var n := ReadLength(e, chunkSize);
        if e.mode != ReadNone {
          var got := Read(n);
          if got < n {
            return Halt(ShortChunk);
          }
          cpos := cpos + got;
        }
        var code := CallHandler(e.action, n);
        if code != 0 {
          return Halt(Refused(code));
        }
      }
      Skip();
      return Proceed;
    }

    /** The whole walk. */
    method PlayIff() returns (outcome: Outcome)
      requires Valid()
      modifies this, buf
      ensures Walk(file, old(State())).reader == State()
      ensures outcome == Conclude(Walk(file, old(State())))
    {
      var answer := Iterator();
      while answer == Proceed
        invariant Valid()
        invariant Walk(file, old(State())) ==
          if answer.Proceed? then
            var v := Visit(file, State()); if v.Done? then v else Walk(file, v.reader)
          else Done(answer.stop, State())
        decreases answer == Proceed, State().Left()
      {
        answer := VisitOne();
        if answer == Proceed {
          answer := Iterator();
        }
      }
      if answer.stop.Refused? {
        return Fails(answer.stop.code);
      }
      if !sound.comm || !sound.ssnd {
        return Fails(E_DECODE);
      }
      return Plays(sound.format, sound.channels, sound.speed, sound.size, sound.location);
    }
  }
}
