/** The player's walk over the chunks of a WAVE or AIFF file: what every step does, as functions over the
    reader's state, and where the file stands during it. The file is regular, nothing is forced from the
    command line and nothing is printed, so the chunks with texts are read and ignored. */
module ChunkWalker {
  import opened Basics
  import opened Bytes
  import opened SampleRate

  const P_READBUF_SIZE: nat := 1024

  const E_FORMAT_UNSUPPORTED := 2
  const E_DECODE := 4

  const AFMT_MU_LAW := 0x1
  const AFMT_A_LAW := 0x2
  const AFMT_U8 := 0x8
  const AFMT_S16_LE := 0x10
  const AFMT_S16_BE := 0x20
  const AFMT_S8 := 0x40
  const AFMT_S32_LE := 0x1000
  const AFMT_S32_BE := 0x2000
  const AFMT_S24_PACKED := 0x40000
  const AFMT_MS_ADPCM := -256
  const AFMT_MS_IMA_ADPCM := -255
  const AFMT_MS_IMA_ADPCM_3BITS := -254
  const AFMT_S24_PACKED_BE := -252
  const AFMT_FLOAT32_LE := -245
  const AFMT_DOUBLE64_LE := -243

  const ID_FMT: nat := 0x666d7420
  const ID_DATA: nat := 0x64617461
  const ID_DISP: nat := 0x44495350
  const ID_LIST: nat := 0x4c495354
  const ID_COMM: nat := 0x434f4d4d
  const ID_SSND: nat := 0x53534e44
  const ID_ANNO: nat := 0x414e4e4f
  const ID_NAME: nat := 0x4e414d45
  const ID_COPY: nat := 0x28632920
  const ID_AUTH: nat := 0x41555448

  datatype Kind = Wave | WaveBigEndian | Aiff

  /** What the chunk handlers have found out about the sound. */
  datatype Sound = Sound(format: int, channels: int, speed: int, comm: bool, ssnd: bool, location: nat, size: int)

  /** One chunk header that was asked for: where the file stood, where the walk expected it to stand, and
      the header, unless the file ended before it. */
  datatype Header = Header(at: nat, expected: nat, short: bool, id: nat, size: nat)

  datatype Reader = Reader(
    kind: Kind, pos: nat, curSize: nat, futSize: nat, totalSize: nat, chunkId: nat, chunkSize: nat, cpos: nat,
    buf: seq<byte>, sound: Sound, headers: seq<Header>)
  {
    predicate Valid() {
      |buf| == P_READBUF_SIZE
    }

    /** Bytes left before the end of the form; the walk's termination measure. */
    function Left(): nat {
      if totalSize > futSize then totalSize - futSize else 0
    }
  }

  /** A number in the file's own byte order. */
  function Number(kind: Kind, bytes: seq<byte>): nat {
    if kind == Wave then LeValue(bytes) else BeValue(bytes)
  }

  /** The bytes a read of `n` bytes delivers. */
  function Available(file: seq<byte>, pos: nat, n: nat): (r: seq<byte>)
    ensures |r| <= n
    ensures pos + n <= |file| ==> |r| == n
  {
    if pos >= |file| then [] else file[pos..Min(pos + n, |file|)]
  }

  /** The read buffer after `bytes` have been read into its front. */
  function Into(buf: seq<byte>, bytes: seq<byte>): (r: seq<byte>)
    requires |bytes| <= |buf|
    ensures |r| == |buf|
  {
    bytes + buf[|bytes|..]
  }

  // ---------------------------------------------------------------- initialisation

  /** After the 12 bytes of the form header have been read. */
  function InitReader(kind: Kind, file: seq<byte>, buf: seq<byte>, statOk: bool): (r: Reader)
    requires |buf| == P_READBUF_SIZE
    ensures r.Valid()
  {
    var declared := Number(kind, buf[4..8]) + 8;
    var total := if statOk && |file| < declared then |file| else declared;
    var format := if kind == Wave then AFMT_S16_LE else AFMT_S16_BE;
    Reader(kind, 12, 12, 12, total, 0, 0, 0, buf, Sound(format, 1, 11025, false, false, 0, 0), [])
  }

  // ---------------------------------------------------------------- the iterator

  /** Why the walk went no further. */
  datatype Stop =
    | Exhausted
    | NoHeader
    | EmptyChunk
    | ShortChunk
    | Refused(code: int)

  datatype Iteration = More(reader: Reader) | Done(stop: Stop, reader: Reader)

  /** Reading one chunk header. */
  function ReadHeader(file: seq<byte>, r: Reader): (r': Reader)
    requires r.Valid() && r.pos + 8 <= |file|
    ensures r'.Valid()
  {
    var bytes := Available(file, r.pos, 8);
    var size := Number(r.kind, bytes[4..8]);
    r.(pos := r.pos + 8, curSize := r.futSize + 8, futSize := r.futSize + size + size % 2 + 8, cpos := 0,
       chunkId := BeValue(bytes[..4]), chunkSize := size, buf := Into(r.buf, bytes),
       headers := r.headers + [Header(r.pos, r.futSize, false, BeValue(bytes[..4]), size)])
  }

  /** A header that the file is too short for. */
  function MissHeader(file: seq<byte>, r: Reader): (r': Reader)
    requires r.Valid()
    ensures r'.Valid()
  {
    var bytes := Available(file, r.pos, 8);
    r.(pos := r.pos + |bytes|, curSize := r.futSize + 8, buf := Into(r.buf, bytes),
       headers := r.headers + [Header(r.pos, r.futSize, true, 0, 0)])
  }

  /** The iterator; after an empty chunk it calls itself. */
  function Iterate(file: seq<byte>, r: Reader): (it: Iteration)
    requires r.Valid()
    ensures it.reader.Valid() && it.reader.totalSize == r.totalSize
    ensures it.More? ==> it.reader.Left() < r.Left()
    decreases r.Left()
  {
    if r.futSize + 8 >= r.totalSize then Done(Exhausted, r.(curSize := r.futSize + 8))
    else if r.pos + 8 > |file| then Done(NoHeader, MissHeader(file, r))
    else
      var r' := ReadHeader(file, r);
      if r'.chunkSize != 0 then More(r')
      else if r'.sound.ssnd && r'.sound.comm then Done(EmptyChunk, r')
      else Iterate(file, r')
  }

  // ---------------------------------------------------------------- the chunk handlers

  datatype Action = ParseFmt | ParseData | ParseComm | ParseSsnd | Ignore

  datatype Mode = ReadNone | ReadAll | ReadPart

  datatype Entry = Entry(minSize: nat, mode: Mode, action: Action) | Unknown

  /** The chunk tables. */
  function Lookup(kind: Kind, id: nat): (e: Entry)
    ensures e.Entry? ==> e.minSize <= 18
  {
    if kind == Aiff then
      if id == ID_COMM then Entry(18, ReadAll, ParseComm)
      else if id == ID_SSND then Entry(8, ReadPart, ParseSsnd)
      else if id == ID_ANNO || id == ID_NAME || id == ID_COPY || id == ID_AUTH then Entry(0, ReadAll, Ignore)
      else Unknown
    else if id == ID_FMT then Entry(14, ReadAll, ParseFmt)
    else if id == ID_DATA then Entry(0, ReadNone, ParseData)
    else if id == ID_DISP then Entry(5, ReadAll, Ignore)
    else if id == ID_LIST then Entry(12, ReadAll, Ignore)
    else Unknown
  }

  /** A 32-bit number stored in an `int`. */
  function ToInt(x: nat): int {
    if x % U32 >= 0x8000_0000 then x % U32 - U32 else x % U32
  }

  /** The linear formats by sample size. */
  function LinearFormat(bits: nat, bigEndian: bool): int {
    if bits == 8 then AFMT_S8
    else if bits == 24 then if bigEndian then AFMT_S24_PACKED_BE else AFMT_S24_PACKED
    else if bits == 32 then if bigEndian then AFMT_S32_BE else AFMT_S32_LE
    else if bigEndian then AFMT_S16_BE else AFMT_S16_LE
  }

  /** The format of a `fmt ` chunk, or nothing for one that is not supported. */
  function WaveFormat(code: nat, bits: nat, bigEndian: bool): int {
    if code == 0x1 then
      var rounded := bits + bits % 8; if rounded == 8 then AFMT_U8 else LinearFormat(rounded, bigEndian)
    else if code == 0x2 then AFMT_MS_ADPCM
    else if code == 0x3 then if bits == 32 then AFMT_FLOAT32_LE else if bits == 64 then AFMT_DOUBLE64_LE else 0
    else if code == 0x102 || code == 0x6 then AFMT_A_LAW
    else if code == 0x101 || code == 0x7 then AFMT_MU_LAW
    else if code == 0x11 then if bits == 4 then AFMT_MS_IMA_ADPCM else if bits == 3 then AFMT_MS_IMA_ADPCM_3BITS else 0
    else 0
  }

  function FmtParse(kind: Kind, buf: seq<byte>, len: nat, s: Sound): (int, Sound)
    requires |buf| == P_READBUF_SIZE
  {
    if s.comm then (E_DECODE, s)
    else
      var wtype, bits := Number(kind, buf[..2]), Number(kind, buf[14..16]);
      var parsed := s.(channels := Number(kind, buf[2..4]), speed := ToInt(Number(kind, buf[4..8])));
      if wtype == 0xFFFE && len < 40 then (E_DECODE, parsed.(format := wtype))
      else
        var code := if wtype == 0xFFFE then Number(kind, buf[24..26]) else wtype;
        var format := WaveFormat(code, bits, kind == WaveBigEndian);
        if format == 0 then (E_FORMAT_UNSUPPORTED, parsed.(format := code))
        else (0, parsed.(format := format, comm := true))
  }

  /** A rate that does not fit is converted to the smallest `int`. */
  function SpeedToInt(speed: Speed): int
    requires !speed.Invalid?
  {
    if speed.Hertz? then speed.hz else -0x8000_0000
  }

  function CommParse(buf: seq<byte>, s: Sound): (int, Sound)
    requires |buf| == P_READBUF_SIZE
  {
    var bits := BeValue(buf[6..8]);
    var parsed := s.(channels := BeValue(buf[..2]), format := LinearFormat(bits + bits % 8, true));
    var speed := AiffSpeed(buf[8..18]);
    if speed.Invalid? then (E_DECODE, parsed) else (0, parsed.(speed := SpeedToInt(speed), comm := true))
  }

  function DataParse(curSize: nat, chunkSize: nat, s: Sound): (int, Sound) {
    if s.ssnd then (E_DECODE, s) else (0, s.(location := curSize, size := chunkSize, ssnd := true))
  }

  function SsndParse(buf: seq<byte>, curSize: nat, chunkSize: nat, s: Sound): (int, Sound)
    requires |buf| == P_READBUF_SIZE
  {
    if s.ssnd then (E_DECODE, s)
    else (0, s.(location := curSize + 8 + BeValue(buf[..4]), size := chunkSize - 8, ssnd := true))
  }

  function Handle(action: Action, r: Reader, len: nat): (int, Sound)
    requires r.Valid()
  {
    match action
    case ParseFmt => FmtParse(r.kind, r.buf, len, r.sound)
    case ParseData => DataParse(r.curSize, r.chunkSize, r.sound)
    case ParseComm => CommParse(r.buf, r.sound)
    case ParseSsnd => SsndParse(r.buf, r.curSize, r.chunkSize, r.sound)
    case Ignore => (0, r.sound)
  }

  // ---------------------------------------------------------------- the walk

  /** How many bytes of the chunk are read for its handler. */
  function ReadLength(e: Entry, size: nat): (n: nat)
    requires e.Entry? && e.minSize <= 18
    ensures n <= P_READBUF_SIZE
  {
    if e.mode == ReadPart then e.minSize else Min(size, P_READBUF_SIZE)
  }

  /** Reading the chunk, or its front, into the buffer. */
  function ReadChunk(file: seq<byte>, r: Reader, n: nat): (r': Reader)
    requires r.Valid() && n <= P_READBUF_SIZE
    ensures r'.Valid() && r'.totalSize == r.totalSize && r'.futSize == r.futSize
  {
    var bytes := Available(file, r.pos, n);
    r.(pos := r.pos + |bytes|, buf := Into(r.buf, bytes), cpos := if |bytes| < n then r.cpos else r.cpos + n)
  }

  /** Forward to the next chunk, unless the form ends. */
  function SkipRest(r: Reader): (r': Reader)
    requires r.Valid()
    ensures r'.Valid() && r'.totalSize == r.totalSize && r'.futSize == r.futSize
  {
    if r.futSize < r.totalSize && r.pos + r.futSize >= r.curSize + r.cpos then
      r.(pos := r.pos + r.futSize - r.curSize - r.cpos)
    else r
  }

  /** One pass of the loop body, after the iterator has delivered a header. */
  function Visit(file: seq<byte>, r: Reader): (it: Iteration)
    requires r.Valid()
    ensures it.reader.Valid() && it.reader.totalSize == r.totalSize && it.reader.futSize == r.futSize
  {
    var e := Lookup(r.kind, r.chunkId);
    if e.Unknown? || r.chunkSize < e.minSize then More(SkipRest(r))
    else
      var n := ReadLength(e, r.chunkSize);
      var read := if e.mode == ReadNone then r else ReadChunk(file, r, n);
      if e.mode != ReadNone && read.cpos != r.cpos + n then Done(ShortChunk, read)
      else
        var (code, sound) := Handle(e.action, read, n);
        if code != 0 then Done(Refused(code), read.(sound := sound)) else More(SkipRest(read.(sound := sound)))
  }

  function Walk(file: seq<byte>, r: Reader): (d: Iteration)
    requires r.Valid()
    ensures d.Done? && d.reader.Valid()
    decreases r.Left()
  {
    var it := Iterate(file, r);
    if it.Done? then it
    else
      var v := Visit(file, it.reader);
      if v.Done? then v else Walk(file, v.reader)
  }

  /** What the player does in the end. */
  datatype Outcome = Plays(format: int, channels: int, speed: int, size: int, location: nat) | Fails(code: int)

  function Conclude(d: Iteration): Outcome
    requires d.Done?
  {
    var s := d.reader.sound;
    if d.stop.Refused? then Fails(d.stop.code)
    else if !s.comm || !s.ssnd then Fails(E_DECODE)
    else Plays(s.format, s.channels, s.speed, s.size, s.location)
  }

  function PlayIff(kind: Kind, file: seq<byte>, buf: seq<byte>, statOk: bool): Outcome
    requires |buf| == P_READBUF_SIZE
  {
    Conclude(Walk(file, InitReader(kind, file, buf, statOk)))
  }

  // ---------------------------------------------------------------- where the file stands

  /** The file stands where the walk expects the next header, or the form ends before a header. */
  predicate InStep(r: Reader) {
    r.pos == r.futSize || r.futSize + 8 >= r.totalSize
  }

  /** Every header was asked for at the expected place, inside the form; the places ascend. */
  ghost predicate Tidy(headers: seq<Header>, limit: nat, total: nat) {
    && (forall i :: 0 <= i < |headers| ==>
          headers[i].at == headers[i].expected && headers[i].expected < limit && headers[i].expected + 8 < total)
    && forall i, j :: 0 <= i < j < |headers| ==> headers[i].expected < headers[j].expected
  }

  lemma {:induction false} IterateInStep(file: seq<byte>, r: Reader)
    requires r.Valid() && InStep(r) && Tidy(r.headers, r.futSize, r.totalSize)
    ensures var it := Iterate(file, r); var r' := it.reader;
      && Tidy(r'.headers, if it.More? then r'.futSize else r'.futSize + 1, r'.totalSize)
      && (it.More? ==>
            r'.cpos == 0 && r'.pos == r'.curSize && r'.futSize == r'.curSize + r'.chunkSize + r'.chunkSize % 2)
    ensures var it := Iterate(file, r);
      it.Done? && it.stop.NoHeader? ==> it.reader.futSize + 8 < it.reader.totalSize && it.reader.futSize + 8 > |file|
    decreases r.Left()
  {
    if r.futSize + 8 < r.totalSize && r.pos + 8 <= |file| {
      var r' := ReadHeader(file, r);
      if r'.chunkSize == 0 && !(r'.sound.ssnd && r'.sound.comm) {
        IterateInStep(file, r');
      }
    }
  }

  lemma VisitInStep(file: seq<byte>, r: Reader)
    requires r.Valid() && r.cpos == 0 && r.pos == r.curSize && r.futSize == r.curSize + r.chunkSize + r.chunkSize % 2
    ensures var v := Visit(file, r); (v.More? ==> InStep(v.reader)) && v.reader.headers == r.headers
    ensures var v := Visit(file, r); v.Done? && v.stop.ShortChunk? ==> r.futSize > |file|
  {
    var e := Lookup(r.kind, r.chunkId);
    if e.Entry? && r.chunkSize >= e.minSize && e.mode != ReadNone {
      var n := ReadLength(e, r.chunkSize);
      assert n <= r.chunkSize;
    }
  }

  /** The walk never loses its place. At every entry of the iterator that goes on to read a header, also
      the ones made after empty chunks, the file stands exactly at the offset the walk has computed; these
      offsets strictly ascend; and when the file's size could be determined, a header is never missing. */
  lemma {:induction false} WalkInStep(file: seq<byte>, r: Reader)
    requires r.Valid() && InStep(r) && Tidy(r.headers, r.futSize, r.totalSize)
    ensures var d := Walk(file, r); Tidy(d.reader.headers, d.reader.futSize + 1, d.reader.totalSize)
    ensures var d := Walk(file, r); r.totalSize <= |file| ==> !d.stop.NoHeader?
    decreases r.Left()
  {
    IterateInStep(file, r);
    var it := Iterate(file, r);
    if it.More? {
      VisitInStep(file, it.reader);
      var v := Visit(file, it.reader);
      if v.More? {
        WalkInStep(file, v.reader);
      }
    }
  }

  lemma WalkKeepsItsPlace(kind: Kind, file: seq<byte>, buf: seq<byte>)
    requires |buf| == P_READBUF_SIZE
    ensures forall statOk ::
      var d := Walk(file, InitReader(kind, file, buf, statOk));
      && Tidy(d.reader.headers, d.reader.futSize + 1, d.reader.totalSize)
      && (statOk ==> !d.stop.NoHeader?)
  {
    forall statOk
      ensures var d := Walk(file, InitReader(kind, file, buf, statOk));
        Tidy(d.reader.headers, d.reader.futSize + 1, d.reader.totalSize) && (statOk ==> !d.stop.NoHeader?)
    {
      WalkInStep(file, InitReader(kind, file, buf, statOk));
    }
  }
}
