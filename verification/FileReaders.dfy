/** The player's other readers of headers, and how it tells the files apart: AU files, the description
    chunk of CAF files, and the look at a file's first bytes. */
module FileReaders {
  import opened Bytes
  import opened SampleRate
  import opened ChunkWalker
  import opened HeaderWriter

  const U64: nat := 0x1_0000_0000_0000_0000
  const SUN_MAGIC: nat := 0x2e736e64
  const SUN_INV_MAGIC: nat := 0x646e732e
  const DEC_MAGIC: nat := 0x2e736400
  const DEC_INV_MAGIC: nat := 0x0064732e

  /** `be_int (buf + at, 4)`. */
  method BeAt(buf: seq<byte>, at: nat) returns (val: nat)
    requires at + 4 <= |buf|
    ensures val == BeValue(buf[at..at + 4])
  {
    var p := buf[at..];
    assert p[..4] == buf[at..at + 4];
    val := BeInt(p, 4);
  }

  // ---------------------------------------------------------------- AU

  /** The format with an AU code, or 0. */
  function AuFormat(code: nat): int {
    match code
    case 1 => AFMT_MU_LAW
    case 2 => AFMT_S8
    case 3 => AFMT_S16_BE
    case 4 => AFMT_S24_PACKED_BE
    case 5 => AFMT_S32_BE
    case 6 => AFMT_FLOAT32_BE
    case 7 => AFMT_DOUBLE64_BE
    case 27 => AFMT_A_LAW
    case _ => 0
  }

  /** With the first 24 bytes of the file. A length that is not given is taken from the file's size, from
      which the 24 bytes are taken off although the offset counts them. */
  function AuOutcome(hdr: seq<byte>, fileSize: nat, statOk: bool): Outcome
    requires |hdr| == 24
  {
    var offset, length, format := BeValue(hdr[4..8]), BeValue(hdr[8..12]), AuFormat(BeValue(hdr[12..16]));
    var size := if length != U32_MAX then length else if statOk then (fileSize - 24 - offset) % U64 else U64_MAX;
    if format == 0 then Fails(E_FORMAT_UNSUPPORTED)
    else Plays(format, ToInt(BeValue(hdr[20..24])), ToInt(BeValue(hdr[16..20])), size, 24 + (offset - 24) % U32)
  }

  method PlayAu(hdr: seq<byte>, fileSize: nat, statOk: bool) returns (outcome: Outcome)
    requires |hdr| == 24
    ensures outcome == AuOutcome(hdr, fileSize, statOk)
  {
    var p := BeAt(hdr, 4);
    var fmt := BeAt(hdr, 12);
    var speed := BeAt(hdr, 16);
    var channels := BeAt(hdr, 20);
    var filelen := BeAt(hdr, 8);
    if filelen == U32_MAX {
      filelen := if statOk then (fileSize - 24 - p) % U64 else U64_MAX;
    }
    var format := AuFormat(fmt);
    if format == 0 {
      return Fails(E_FORMAT_UNSUPPORTED);
    }
    var pos := 24 + (p - 24) % U32;
    return Plays(format, ToInt(channels), ToInt(speed), filelen, pos);
  }

  // ---------------------------------------------------------------- CAF

  datatype Description = Described(format: int, channels: int, speed: int) | Undescribed(code: int)

  /** The linear format of a CAF description, or 0; the packet size must agree with it, except for 64 bits. */
  function CafLinear(bits: nat, packet: nat, flags: nat, channels: int): int {
    var float, little := flags % 2 == 1, flags / 2 % 2 == 1;
    if float && bits != 32 && bits != 64 then 0
    else if bits == 8 then if packet == channels % U32 then AFMT_S8 else 0
    else if bits == 16 then
      if packet == 2 * channels % U32 then if little then AFMT_S16_LE else AFMT_S16_BE else 0
    else if (bits == 24 || bits == 32) && packet == 4 * channels % U32 then
      if float then if little then AFMT_FLOAT32_LE else AFMT_FLOAT32_BE
      else if little then AFMT_S32_LE else AFMT_S32_BE
    else if bits == 24 && packet == 3 * channels % U32 then if little then AFMT_S24_PACKED else AFMT_S24_PACKED_BE
    else if bits == 64 && float then if little then AFMT_DOUBLE64_LE else AFMT_DOUBLE64_BE
    else 0
  }

  function CafDescription(buf: seq<byte>): Description
    requires |buf| == 32
  {
    var speed := CafSpeed(buf[..8]);
    var code, flags, packet := BeValue(buf[8..12]), BeValue(buf[12..16]), BeValue(buf[16..20]);
    var channels, bits := ToInt(BeValue(buf[24..28])), BeValue(buf[28..32]);
    if speed.Invalid? then Undescribed(E_DECODE)
    else
      var format :=
        if code == ID_LPCM then CafLinear(bits, packet, flags, channels)
        else if code == ID_ALAW then AFMT_A_LAW
        else if code == ID_ULAW then AFMT_MU_LAW
        else if code == ID_IMA4 then AFMT_MAC_IMA_ADPCM
        else 0;
      if format == 0 then Undescribed(E_FORMAT_UNSUPPORTED) else Described(format, channels, SpeedToInt(speed))
  }

  /** The sample rate of a `desc` chunk. */
  method ReadCafSpeed(buf: seq<byte>) returns (speed: Speed)
    requires |buf| == 8
    ensures speed == CafSpeed(buf)
  {
    var exp := buf[0] as int % 128 * 16 + buf[1] as int / 16 - 1023;
    var m := buf[1] as int % 16 * 65536 + buf[2] as int * 256 + buf[3] as int;
    var rate := Ldexpl(m as real, exp - 20);
    if exp != -1023 {
      var one := Ldexpl(1.0, exp);
      rate := rate + one;
    }
    if buf[0] >= 128 {
      rate := -rate;
    }
    speed := if exp == 1024 then Invalid else ToSpeed(rate);
  }

  /** The switch over the sample size; the case of 24 bits runs on into that of 32. */
  method FindCafLinear(bits: nat, packet: nat, flags: nat, channels: int) returns (format: int)
    ensures format == CafLinear(bits, packet, flags, channels)
  {
    format := 0;
    var float, little := flags % 2 == 1, flags / 2 % 2 == 1;
    if float && bits != 32 && bits != 64 {
      return;
    }
    if bits == 8 {
      if packet == channels % U32 {
        format := AFMT_S8;
      }
    } else if bits == 16 {
      if packet == 2 * channels % U32 {
        format := if little then AFMT_S16_LE else AFMT_S16_BE;
      }
    } else if bits == 24 || bits == 32 {
      if bits == 24 && packet == 3 * channels % U32 {
        format := if little then AFMT_S24_PACKED else AFMT_S24_PACKED_BE;
      }
      if packet == 4 * channels % U32 {
        if float {
          format := if little then AFMT_FLOAT32_LE else AFMT_FLOAT32_BE;
        } else {
          format := if little then AFMT_S32_LE else AFMT_S32_BE;
        }
      }
    } else if bits == 64 {
      if float {
        format := if little then AFMT_DOUBLE64_LE else AFMT_DOUBLE64_BE;
      }
    }
  }

  method CafDescParse(buf: seq<byte>) returns (d: Description)
    requires |buf| == 32
    ensures d == CafDescription(buf)
  {
    var speed := ReadCafSpeed(buf[..8]);
    if speed == Invalid {
      return Undescribed(E_DECODE);
    }
    var code := BeAt(buf, 8);
    var flags := BeAt(buf, 12);
    var packet := BeAt(buf, 16);
    var channels := BeAt(buf, 24);
    var bits := BeAt(buf, 28);
    var format := 0;
    if code == ID_LPCM {
      format := FindCafLinear(bits, packet, flags, ToInt(channels));
    } else if code == ID_ALAW {
      format := AFMT_A_LAW;
    } else if code == ID_ULAW {
      format := AFMT_MU_LAW;
    } else if code == ID_IMA4 {
      format := AFMT_MAC_IMA_ADPCM;
    }
    if format == 0 {
      return Undescribed(E_FORMAT_UNSUPPORTED);
    }
    return Described(format, ToInt(channels), SpeedToInt(speed));
  }

  // ---------------------------------------------------------------- telling files apart

  /** What becomes of a file, unless it is of a kind that is not modelled. */
  datatype Reading = Known(outcome: Outcome) | Other

  /** `buf` is what is in the buffer before. */
  function PlayFile(file: seq<byte>, buf: seq<byte>, statOk: bool): Reading
    requires |buf| == P_READBUF_SIZE
  {
    var bytes := Available(file, 0, 12);
    var head := Into(buf, bytes);
    var id, form := BeValue(head[..4]), BeValue(head[8..12]);
    if |bytes| == 0 then Known(Fails(E_DECODE))
    else if id == SUN_MAGIC || id == DEC_MAGIC || id == SUN_INV_MAGIC || id == DEC_INV_MAGIC then
      if |file| < 24 then Other else Known(AuOutcome(file[..24], |file|, statOk))
    else if id == ID_RIFF || id == ID_RIFX then
      if |bytes| < 12 || form != ID_WAVE then Other
      else Known(PlayIff(if id == ID_RIFX then WaveBigEndian else Wave, file, head, statOk))
    else if id == ID_FORM && |bytes| == 12 && form == ID_AIFF then Known(PlayIff(Aiff, file, head, statOk))
    else Other
  }
}
