/** The recorder's file headers. Structures are written to the file as they lie in memory; the host stores
    numbers least significant byte first, so numbers for AU, AIFF and CAF are swapped before. */
module HeaderWriter {
  import opened Bytes
  import opened SampleRate
  import opened ChunkWalker

  const AFMT_IMA_ADPCM := 0x4
  const AFMT_U16_LE := 0x80
  const AFMT_U16_BE := 0x100
  const AFMT_MPEG := 0x200
  const AFMT_VORBIS := 0x800
  const AFMT_FLOAT := 0x4000
  const AFMT_S24_LE := 0x8000
  const AFMT_S24_BE := 0x10000
  const AFMT_SPDIF_RAW := 0x20000
  const AFMT_MAC_IMA_ADPCM := -253
  const AFMT_CR_ADPCM_2 := -251
  const AFMT_CR_ADPCM_3 := -250
  const AFMT_CR_ADPCM_4 := -249
  const AFMT_FIBO_DELTA := -248
  const AFMT_EXP_DELTA := -247
  const AFMT_FLOAT32_BE := -246
  const AFMT_DOUBLE64_BE := -244

  const ID_RIFF: nat := 0x52494646
  const ID_RIFX: nat := 0x52494658
  const ID_WAVE: nat := 0x57415645
  const ID_FORM: nat := 0x464f524d
  const ID_AIFF: nat := 0x41494646
  const ID_SND: nat := 0x2e736e64
  const ID_CAFF: nat := 0x63616666
  const ID_DESC: nat := 0x64657363
  const ID_LPCM: nat := 0x6c70636d
  const ID_ULAW: nat := 0x756c6177
  const ID_ALAW: nat := 0x616c6177
  const ID_IMA4: nat := 0x696d6134

  const U64_MAX: nat := 0xFFFF_FFFF_FFFF_FFFF

  const WAVE_HEAD: nat := 44
  const AU_HEAD: nat := 42
  const AIFF_HEAD: nat := 54
  const CAF_HEAD: nat := 68

  datatype Container = WaveFile | AuFile | AiffFile | CafFile | RawFile

  /** Bits of a sample, as an integer. */
  function FormatBits(format: int): nat {
    if format == AFMT_CR_ADPCM_2 || format == AFMT_CR_ADPCM_3 then 2
    else if format == AFMT_MS_IMA_ADPCM_3BITS then 3
    else if format == AFMT_CR_ADPCM_4 || format == AFMT_MAC_IMA_ADPCM ||
            format == AFMT_MS_IMA_ADPCM || format == AFMT_IMA_ADPCM ||
            format == AFMT_MS_ADPCM || format == AFMT_FIBO_DELTA || format == AFMT_EXP_DELTA then 4
    else if format == AFMT_MU_LAW || format == AFMT_A_LAW || format == AFMT_U8 || format == AFMT_S8 then 8
    else if format == AFMT_VORBIS || format == AFMT_MPEG || format == AFMT_S16_LE || format == AFMT_S16_BE ||
            format == AFMT_U16_LE || format == AFMT_U16_BE then 16
    else if format == AFMT_S24_PACKED || format == AFMT_S24_PACKED_BE then 24
    else if format == AFMT_S24_LE || format == AFMT_S24_BE || format == AFMT_SPDIF_RAW || format == AFMT_FLOAT32_LE ||
            format == AFMT_FLOAT32_BE || format == AFMT_S32_LE || format == AFMT_S32_BE || format == AFMT_FLOAT then 32
    else if format == AFMT_DOUBLE64_LE || format == AFMT_DOUBLE64_BE then 64
    else 0
  }

  /** The data length a 32-bit header declares: the largest even one when the length is unknown or does not fit. */
  function DeclaredLength(datalimit: nat, head: nat): (dl: nat)
    requires 0 < head < 100
  {
    if datalimit == 0 || datalimit > U32_MAX - head then U32_MAX - 1 - head else datalimit
  }

  // ---------------------------------------------------------------- the headers

  /** The body of the `fmt ` chunk. */
  function FmtBody(code: nat, channels: nat, speed: nat, byteRate: nat, align: nat, bits: nat): (r: seq<byte>)
    ensures |r| == 16
  {
    (Le(code, 2) + Le(channels, 2) + Le(speed, 4)) + (Le(byteRate, 4) + Le(align, 2)) + Le(bits, 2)
  }

  /** The `fmt ` code of a format, or 0. */
  function WaveCode(format: int): nat {
    if format == AFMT_U8 || format == AFMT_S16_LE || format == AFMT_S24_PACKED || format == AFMT_S32_LE then 1
    else if format == AFMT_A_LAW then 6
    else if format == AFMT_MU_LAW then 7
    else 0
  }

  /** The header structure of a WAVE file. */
  datatype WaveHeader = WaveHeader(
    length: nat, code: nat, channels: nat, speed: nat, byteRate: nat, align: nat, bits: nat, dataLength: nat)
  {
    function Packed(): (r: seq<byte>)
      ensures |r| == WAVE_HEAD
    {
      Be(ID_RIFF, 4) + Le(length, 4) + Be(ID_WAVE, 4)
      + (Be(ID_FMT, 4) + Le(16, 4)) + FmtBody(code, channels, speed, byteRate, align, bits)
      + (Be(ID_DATA, 4) + Le(dataLength, 4))
    }
  }

  function WaveHead(datalimit: nat, format: int, channels: nat, speed: nat): WaveHeader {
    var dl := DeclaredLength(datalimit, WAVE_HEAD);
    var bits := FormatBits(format);
    WaveHeader(dl + 36, WaveCode(format), channels, speed,
               speed * channels * bits / 8, channels * bits / 8, bits, dl - dl % 2)
  }

  /** The AU code of a format, or 0. */
  function AuCode(format: int): nat {
    if format == AFMT_MU_LAW then 1
    else if format == AFMT_S8 then 2
    else if format == AFMT_S16_BE then 3
    else if format == AFMT_S24_PACKED_BE then 4
    else if format == AFMT_S32_BE then 5
    else if format == AFMT_A_LAW then 27
    else 0
  }

  /** "Made by OSSRecord", with the zero at its end. */
  const COMMENT: seq<byte> := [77, 97, 100, 101, 32, 98, 121, 32, 79, 83, 83, 82, 101, 99, 111, 114, 100, 0]

  datatype AuHeader = AuHeader(offset: nat, length: nat, code: nat, speed: nat, channels: nat) {
    function Packed(): (r: seq<byte>)
      ensures |r| == AU_HEAD
    {
      (Be(ID_SND, 4) + Be(offset, 4) + Be(length, 4)) + (Be(code, 4) + Be(speed, 4) + Be(channels, 4)) + COMMENT
    }
  }

  function AuHead(datalimit: nat, format: int, channels: nat, speed: nat): AuHeader {
    var length := if datalimit == 0 || datalimit > U32_MAX then U32_MAX else datalimit;
    AuHeader(AU_HEAD, length, AuCode(format), speed, channels)
  }

  /** The body of the `COMM` chunk. */
  function CommBody(frames: nat, channels: nat, rate: seq<byte>, bits: nat): (r: seq<byte>)
    requires |rate| == 10
    ensures |r| == 18
  {
    Be(channels, 2) + Be(frames, 4) + Be(bits, 2) + rate
  }

  predicate AiffAccepts(format: int) {
    format == AFMT_S8 || format == AFMT_S16_BE || format == AFMT_S24_PACKED_BE || format == AFMT_S32_BE
  }

  datatype AiffHeader = AiffHeader(length: nat, channels: nat,
                                   frames: nat, bits: nat, rate: seq<byte>, dataLength: nat) {
    function Packed(): (r: seq<byte>)
      requires |rate| == 10
      ensures |r| == AIFF_HEAD
    {
      Be(ID_FORM, 4) + Be(length, 4) + Be(ID_AIFF, 4)
      + (Be(ID_COMM, 4) + Be(18, 4)) + CommBody(frames, channels, rate, bits)
      + ((Be(ID_SSND, 4) + Be(dataLength, 4)) + (Be(0, 4) + Be(0, 4)))
    }
  }

  function AiffHead(datalimit: nat, format: int, channels: nat, speed: nat): (h: AiffHeader)
    requires speed > 0 && FormatBits(format) > 0
    ensures |h.rate| == 10
  {
    var dl := DeclaredLength(datalimit, AIFF_HEAD);
    var even := dl - dl % 2;
    AiffHeader(dl + 46, channels, even / FormatBits(format), FormatBits(format), AiffRate(speed), even)
  }

  /** The format name of a CAF file, or 0. */
  function CafCode(format: int): nat {
    if format == AFMT_S16_LE || format == AFMT_S24_PACKED || format == AFMT_S32_LE || format == AFMT_S8 ||
       format == AFMT_S16_BE || format == AFMT_S24_PACKED_BE || format == AFMT_S32_BE then ID_LPCM
    else if format == AFMT_MU_LAW then ID_ULAW
    else if format == AFMT_A_LAW then ID_ALAW
    else 0
  }

  function CafFlags(format: int): nat {
    if format == AFMT_S16_LE || format == AFMT_S24_PACKED || format == AFMT_S32_LE then 2 else 0
  }

  /** The body of the `desc` chunk. */
  function DescBody(rate: seq<byte>, code: nat, flags: nat, packet: nat, channels: nat, bits: nat): (r: seq<byte>)
    requires |rate| == 8
    ensures |r| == 32
  {
    (rate + Be(code, 4) + Be(flags, 4)) + Be(packet, 4) + (Be(1, 4) + Be(channels, 4) + Be(bits, 4))
  }

  datatype CafHeader = CafHeader(rate: seq<byte>, code: nat,
                                 flags: nat, packet: nat, channels: nat, bits: nat, length: nat) {
    function Packed(): (r: seq<byte>)
      requires |rate| == 8
      ensures |r| == CAF_HEAD
    {
      (Be(ID_CAFF, 4) + Be(1, 2) + Be(0, 2))
      + (Be(ID_DESC, 4) + Be(32, 8)) + DescBody(rate, code, flags, packet, channels, bits)
      + ((Be(ID_DATA, 4) + Be(length, 8)) + Be(0, 4))
    }
  }

  function CafHead(datalimit: nat, format: int, channels: nat, speed: nat): (h: CafHeader)
    requires speed > 0
    ensures |h.rate| == 8
  {
    var bits := FormatBits(format);
    CafHeader(CafRate(speed), CafCode(format), CafFlags(format), bits / 8 * channels, channels, bits,
              if datalimit == 0 || datalimit > U32_MAX then U64_MAX else datalimit)
  }

  datatype Header =
    | WaveForm(wave: WaveHeader)
    | AuForm(au: AuHeader)
    | AiffForm(aiff: AiffHeader)
    | CafForm(caf: CafHeader)
  {
    predicate Valid() {
      (AiffForm? ==> |aiff.rate| == 10) && (CafForm? ==> |caf.rate| == 8)
    }

    function Packed(): seq<byte>
      requires Valid()
    {
      match this
      case WaveForm(h) => h.Packed()
      case AuForm(h) => h.Packed()
      case AiffForm(h) => h.Packed()
      case CafForm(h) => h.Packed()
    }
  }

  /** What `write_head` decides: a header, or none and a return code. */
  datatype Written = Head(header: Header) | NoHead(code: int) | DividesByZero

  function HeadFor(container: Container, datalimit: nat, format: int, channels: int, speed: int): Written {
    if speed <= 0 || channels <= 0 || format <= 0 then NoHead(-1)
    else
      match container
      case WaveFile =>
        if WaveCode(format) == 0 then NoHead(E_FORMAT_UNSUPPORTED)
        else Head(WaveForm(WaveHead(datalimit, format, channels, speed)))
      case AuFile =>
        if AuCode(format) == 0 then NoHead(E_FORMAT_UNSUPPORTED)
        else Head(AuForm(AuHead(datalimit, format, channels, speed)))
      case AiffFile =>
        if FormatBits(format) == 0 then DividesByZero
        else if !AiffAccepts(format) then NoHead(E_FORMAT_UNSUPPORTED)
        else Head(AiffForm(AiffHead(datalimit, format, channels, speed)))
      case CafFile =>
        if CafCode(format) == 0 then NoHead(E_FORMAT_UNSUPPORTED)
        else Head(CafForm(CafHead(datalimit, format, channels, speed)))
      case RawFile => NoHead(0)
  }

  // ---------------------------------------------------------------- the writer

  /** The number whose `n` stored bytes are those of `x` in reverse. */
  method Bswap(x: nat, n: nat) returns (y: nat)
    ensures Le(y, n) == Be(x, n)
  {
    var a := new byte[n](i requires 0 <= i < n => Le(x, n)[i]);
    var b := SwapBytes(a);
    forall i | 0 <= i < n ensures b[i] == Be(x, n)[i] {
      SwappedLe(x, n, i);
    }
    assert b[..] == Be(x, n) && b[..][..n] == b[..];
    y := LeInt(b[..], n);
    LeOfValue(b[..]);
  }

  lemma {:induction false} LeOfValue(s: seq<byte>)
    ensures Le(LeValue(s), |s|) == s
  {
    if s != [] {
      LeOfValue(s[1..]);
      assert [s[0]] + s[1..] == s;
    }
  }

  /** One field of `n` bytes, stored most significant byte first. */
  method Stored(x: nat, n: nat) returns (r: seq<byte>)
    ensures r == Be(x, n)
  {
    var y := Bswap(x, n);
    r := Le(y, n);
  }

  method LimitLength(datalimit: nat, head: nat) returns (dl: nat)
    requires 0 < head < 100
    ensures dl == DeclaredLength(datalimit, head)
  {
    dl := if datalimit > U32_MAX then U32_MAX else datalimit;
    if datalimit == 0 || datalimit > U32_MAX - head {
      dl := U32_MAX - U32_MAX % 2 - head;
    }
  }

  method WriteWave(datalimit: nat, format: int, channels: nat, speed: nat) returns (w: Written)
    ensures w == if WaveCode(format) == 0 then NoHead(E_FORMAT_UNSUPPORTED)
      else Head(WaveForm(WaveHead(datalimit, format, channels, speed)))
  {
    var bits := FormatBits(format);
    var dl := LimitLength(datalimit, WAVE_HEAD);
    if WaveCode(format) == 0 {
      return NoHead(E_FORMAT_UNSUPPORTED);
    }
    var length := dl + WAVE_HEAD - 8;
    if dl % 2 != 0 {
      dl := dl - 1;
    }
    var align, byteRate := channels * bits / 8, speed * channels * bits / 8;
    return Head(WaveForm(WaveHeader(length, WaveCode(format), channels, speed, byteRate, align, bits, dl)));
  }

  method PackAu(h: AuHeader) returns (bytes: seq<byte>)
    ensures bytes == h.Packed()
  {
    var offset := Stored(h.offset, 4);
    var length := Stored(h.length, 4);
    var code := Stored(h.code, 4);
    var speed := Stored(h.speed, 4);
    var channels := Stored(h.channels, 4);
    bytes := (Be(ID_SND, 4) + offset + length) + (code + speed + channels) + COMMENT;
  }

  method WriteAu(datalimit: nat, format: int, channels: nat, speed: nat) returns (w: Written)
    ensures w == if AuCode(format) == 0 then NoHead(E_FORMAT_UNSUPPORTED)
      else Head(AuForm(AuHead(datalimit, format, channels, speed)))
  {
    var dl: nat := if datalimit > U32_MAX then U32_MAX else datalimit;
    if datalimit == 0 || datalimit > U32_MAX {
      dl := 0xffffffff;
    }
    if AuCode(format) == 0 {
      return NoHead(E_FORMAT_UNSUPPORTED);
    }
    return Head(AuForm(AuHeader(AU_HEAD, dl, AuCode(format), speed, channels)));
  }

  /** The mantissa, by the search for the highest bit. */
  method FindMantissa(speed: nat, top: nat) returns (i: nat, m: nat)
    requires speed > 0
    ensures i == Log2(speed) && m == Mantissa(speed, top)
  {
    i := FindExponent(speed);
    m := if i > top then 0 else ShiftLeft(speed - Pow2(i), top - i) % U32;
  }

  /** The rate field of AIFF, filled byte by byte. */
  method FillAiffRate(speed: nat) returns (rate: seq<byte>)
    requires speed > 0
    ensures rate == AiffRate(speed)
  {
    var i, m := FindMantissa(speed, 31);
    var field := new byte[10](_ => 0);
    field[0], field[1] := 64, (i as int - 1) % 256;
    field[5] := m % 256;
    field[4] := m / 256 % 256;
    field[3] := m / 65536 % 256;
    field[2] := m / 16777216 % 128 + 128;
    return field[..];
  }

  /** The rate field of CAF; the second byte is written twice. */
  method FillCafRate(speed: nat) returns (rate: seq<byte>)
    requires speed > 0
    ensures rate == CafRate(speed)
  {
    var i, m := FindMantissa(speed, 32);
    var field := new byte[8](_ => 0);
    var exponent: byte := (i as int - 1) % 16 * 16;
    field[0], field[1] := 64, exponent;
    field[5] := m % 256 / 16 * 16;
    field[4] := m / 16 % 256;
    field[3] := m / 4096 % 256;
    field[2] := m / 1048576 % 256;
    field[1] := exponent as int + m / 268435456 % 16;
    assert field[..] == CafField(i, m);
    return field[..];
  }

  method PackAiff(h: AiffHeader) returns (bytes: seq<byte>)
    requires |h.rate| == 10
    ensures bytes == h.Packed()
  {
    var length := Stored(h.length, 4);
    var commLength := Stored(18, 4);
    var channels := Stored(h.channels, 2);
    var frames := Stored(h.frames, 4);
    var bits := Stored(h.bits, 2);
    var dataLength := Stored(h.dataLength, 4);
    var comm := channels + frames + bits + h.rate;
    bytes := Be(ID_FORM, 4) + length + Be(ID_AIFF, 4) + (Be(ID_COMM, 4) + commLength) + comm
      + ((Be(ID_SSND, 4) + dataLength) + (Be(0, 4) + Be(0, 4)));
  }

  method WriteAiff(datalimit: nat, format: int, channels: nat, speed: nat) returns (w: Written)
    requires speed > 0
    ensures w == if FormatBits(format) == 0 then DividesByZero
                 else if !AiffAccepts(format) then NoHead(E_FORMAT_UNSUPPORTED)
                 else Head(AiffForm(AiffHead(datalimit, format, channels, speed)))
  {
    var bits := FormatBits(format);
    var dl := LimitLength(datalimit, AIFF_HEAD);
    var length := dl + AIFF_HEAD - 8;
    if dl % 2 != 0 {
      dl := dl - 1;
    }
    if bits == 0 {
      return DividesByZero;
    }
    var frames := dl / bits;
    if !AiffAccepts(format) {
      return NoHead(E_FORMAT_UNSUPPORTED);
    }
    var rate := FillAiffRate(speed);
    return Head(AiffForm(AiffHeader(length, channels, frames, bits, rate, dl)));
  }

  method PackCaf(h: CafHeader) returns (bytes: seq<byte>)
    requires |h.rate| == 8
    ensures bytes == h.Packed()
  {
    var version := Stored(1, 2);
    var descLength := Stored(32, 8);
    var flags := Stored(h.flags, 4);
    var packet := Stored(h.packet, 4);
    var frames := Stored(1, 4);
    var channels := Stored(h.channels, 4);
    var bits := Stored(h.bits, 4);
    var length := Stored(h.length, 8);
    var desc := (h.rate + Be(h.code, 4) + flags) + packet + (frames + channels + bits);
    bytes := (Be(ID_CAFF, 4) + version + Be(0, 2)) + (Be(ID_DESC, 4) + descLength)
      + desc + ((Be(ID_DATA, 4) + length) + Be(0, 4));
  }

  method FillCaf(datalimit: nat, format: int, channels: nat, speed: nat) returns (h: CafHeader)
    requires speed > 0
    ensures h == CafHead(datalimit, format, channels, speed)
  {
    var bits := FormatBits(format);
    var packet := bits / 8 * channels;
    var rate := FillCafRate(speed);
    var length := datalimit;
    if datalimit == 0 || datalimit > U32_MAX {
      length := U64_MAX;
    }
    h := CafHeader(rate, CafCode(format), CafFlags(format), packet, channels, bits, length);
  }

  method WriteCaf(datalimit: nat, format: int, channels: nat, speed: nat) returns (w: Written)
    requires speed > 0
    ensures w == if CafCode(format) == 0 then NoHead(E_FORMAT_UNSUPPORTED)
      else Head(CafForm(CafHead(datalimit, format, channels, speed)))
  {
    if CafCode(format) == 0 {
      return NoHead(E_FORMAT_UNSUPPORTED);
    }
    var h := FillCaf(datalimit, format, channels, speed);
    return Head(CafForm(h));
  }

  /** The header goes into the file that is empty so far. */
  method WriteHead(container: Container, datalimit: nat, format: int, channels: int, speed: int)
    returns (w: Written, file: seq<byte>)
    ensures w == HeadFor(container, datalimit, format, channels, speed)
    ensures w.Head? ==> w.header.Valid() && file == w.header.Packed()
    ensures !w.Head? ==> file == []
  {
    w, file := NoHead(-1), [];
    if speed <= 0 || channels <= 0 || format <= 0 {
      return;
    }
    match container {
      case WaveFile => w := WriteWave(datalimit, format, channels, speed);
      case AuFile => w := WriteAu(datalimit, format, channels, speed);
      case AiffFile => w := WriteAiff(datalimit, format, channels, speed);
      case CafFile => w := WriteCaf(datalimit, format, channels, speed);
      case RawFile => w := NoHead(0);
    }
    if w.Head? {
      file := Pack(w.header);
    }
  }

  method Pack(h: Header) returns (bytes: seq<byte>)
    requires h.Valid()
    ensures bytes == h.Packed()
  {
    match h
    case WaveForm(wave) => bytes := wave.Packed();
    case AuForm(au) => bytes := PackAu(au);
    case AiffForm(aiff) => bytes := PackAiff(aiff);
    case CafForm(caf) => bytes := PackCaf(caf);
  }
}
