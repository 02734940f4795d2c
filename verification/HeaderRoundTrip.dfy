/** Recorded files, played: what the player finds in the headers the recorder writes. */
module HeaderRoundTrip {
  import opened Bytes
  import opened SampleRate
  import opened ChunkWalker
  import opened HeaderWriter
  import opened FileReaders

  // ---------------------------------------------------------------- numbers read back

  lemma Numbers(x: nat)
    requires x < U32
    ensures LeValue(Le(x, 4)) == BeValue(Be(x, 4)) == x
  {
    assert Pow256(4) == U32;
    LeRoundTrip(x, 4);
    BeRoundTrip(x, 4);
  }

  lemma ShortNumbers(x: nat)
    ensures LeValue(Le(x, 2)) == BeValue(Be(x, 2)) == x % 65536
  {
    assert Le(x, 2) == [x % 256, x / 256 % 256];
    assert Be(x, 2) == [x / 256 % 256, x % 256];
    assert LeValue([x / 256 % 256]) == x / 256 % 256 && [x % 256, x / 256 % 256][1..] == [x / 256 % 256];
    assert BeValue([x / 256 % 256]) == x / 256 % 256 && [x / 256 % 256, x % 256][..1] == [x / 256 % 256];
  }

  // ---------------------------------------------------------------- the walk over a recorded file

  /** The eight bytes of a chunk header stand at `at`. */
  ghost predicate HeaderAt(kind: Kind, file: seq<byte>, at: nat, id: nat, size: nat) {
    && id < U32 && size < U32 && at + 8 <= |file|
    && file[at..at + 4] == Be(id, 4) && file[at + 4..at + 8] == if kind == Wave then Le(size, 4) else Be(size, 4)
  }

  /** The iterator reads such a header. */
  lemma HeaderRead(file: seq<byte>, r: Reader, id: nat, size: nat) returns (r': Reader)
    requires r.Valid() && HeaderAt(r.kind, file, r.pos, id, size) && r.pos == r.futSize && r.futSize + 8 < r.totalSize
    ensures r' == ReadHeader(file, r) && r'.Valid()
    ensures r'.chunkId == id && r'.chunkSize == size && r'.pos == r'.curSize == r.pos + 8 && r'.cpos == 0
    ensures r'.futSize == r.pos + 8 + size + size % 2 && r'.sound == r.sound
    ensures r'.kind == r.kind && r'.totalSize == r.totalSize
  {
    var bytes := file[r.pos..r.pos + 8];
    assert bytes[..4] == file[r.pos..r.pos + 4] && bytes[4..8] == file[r.pos + 4..r.pos + 8];
    Numbers(id);
    Numbers(size);
    r' := ReadHeader(file, r);
  }

  /** A chunk small enough for the buffer, read for its handler, which is content with it. */
  lemma ChunkHandled(file: seq<byte>, r: Reader, sound: Sound) returns (r2: Reader)
    requires r.Valid() && r.cpos == 0 && r.pos == r.curSize && r.chunkSize % 2 == 0 && 0 < r.chunkSize <= P_READBUF_SIZE
    requires r.pos + r.chunkSize <= |file| && r.futSize == r.curSize + r.chunkSize < r.totalSize
    requires var e := Lookup(r.kind, r.chunkId); e.Entry? && e.mode == ReadAll && e.minSize <= r.chunkSize
    requires Handle(Lookup(r.kind, r.chunkId).action, ReadChunk(file, r, r.chunkSize), r.chunkSize) == (0, sound)
    ensures Visit(file, r) == More(r2) && r2.Valid()
    ensures r2.sound == sound && r2.pos == r2.futSize == r.futSize && r2.kind == r.kind && r2.totalSize == r.totalSize
  {
    r2 := Visit(file, r).reader;
  }

  /** Where the form ends, the walk ends. */
  lemma WalkEnds(file: seq<byte>, r: Reader)
    requires r.Valid() && r.futSize + 8 >= r.totalSize
    ensures Walk(file, r).stop == Exhausted && Walk(file, r).reader.sound == r.sound
  {
  }

  /** Past one header, of an empty chunk or of one whose handler lets the walk go on. */
  lemma WalkPast(file: seq<byte>, r: Reader, r': Reader, r2: Reader)
    requires r.Valid() && r'.Valid() && r2.Valid()
    requires r.futSize + 8 < r.totalSize && r.pos + 8 <= |file| && !(r.sound.comm && r.sound.ssnd)
    requires r' == ReadHeader(file, r) && if r'.chunkSize > 0 then Visit(file, r') == More(r2) else r2 == r'
    ensures Walk(file, r) == Walk(file, r2)
  {
    if r'.chunkSize == 0 {
      assert Iterate(file, r) == Iterate(file, r');
    } else {
      assert Iterate(file, r) == More(r');
    }
  }

  // ---------------------------------------------------------------- parts of headers

  lemma Two(a: seq<byte>, b: seq<byte>)
    ensures (a + b)[..|a|] == a && (a + b)[|a|..] == b
  {
  }

  lemma Three(a: seq<byte>, b: seq<byte>, c: seq<byte>, p: seq<byte>)
    requires p == a + b + c
    ensures p[..|a|] == a && p[|a|..|a| + |b|] == b && p[|a| + |b|..] == c
  {
  }

  lemma Four(a: seq<byte>, b: seq<byte>, c: seq<byte>, d: seq<byte>, p: seq<byte>)
    requires p == a + b + c + d
    ensures p[..|a|] == a && p[|a|..|a| + |b|] == b && p[|a| + |b|..|a| + |b| + |c|] == c && p[|a| + |b| + |c|..] == d
  {
  }

  // ---------------------------------------------------------------- WAVE

  predicate Rates(channels: int, speed: int) {
    0 < channels < 0x8000_0000 && 0 < speed < 0x8000_0000
  }

  /** A recorded file: header, data, and one more byte after an odd number of them. */
  ghost predicate Recorded(file: seq<byte>, head: seq<byte>, data: seq<byte>) {
    |file| == |head| + |data| + |data| % 2 && file[..|head|] == head && file[|head|..|head| + |data|] == data
  }

  lemma FmtFields(code: nat, channels: nat, speed: nat, byteRate: nat, align: nat, bits: nat)
    ensures var b := FmtBody(code, channels, speed, byteRate, align, bits);
      b[..2] == Le(code, 2) && b[2..4] == Le(channels, 2) && b[4..8] == Le(speed, 4) && b[14..16] == Le(bits, 2)
  {
    var b := FmtBody(code, channels, speed, byteRate, align, bits);
    var front, rates := Le(code, 2) + Le(channels, 2) + Le(speed, 4), Le(byteRate, 4) + Le(align, 2);
    Three(front, rates, Le(bits, 2), b);
    Three(Le(code, 2), Le(channels, 2), Le(speed, 4), front);
    assert b[..2] == front[..2] && b[2..4] == front[2..4] && b[4..8] == front[4..8];
  }

  /** The numbers of a `fmt ` chunk in the buffer. */
  lemma FmtNumbers(buf: seq<byte>, code: nat, channels: nat, speed: nat, byteRate: nat, align: nat, bits: nat)
    requires |buf| == P_READBUF_SIZE
    requires buf[..16] == FmtBody(code, channels, speed, byteRate, align, bits) && speed < U32
    ensures LeValue(buf[..2]) == code % 65536 && LeValue(buf[2..4]) == channels % 65536
    ensures LeValue(buf[4..8]) == speed && LeValue(buf[14..16]) == bits % 65536
  {
    var b := buf[..16];
    assert buf[..2] == b[..2] && buf[2..4] == b[2..4] && buf[4..8] == b[4..8] && buf[14..16] == b[14..16];
    FmtFields(code, channels, speed, byteRate, align, bits);
    ShortNumbers(code);
    ShortNumbers(channels);
    ShortNumbers(bits);
    Numbers(speed);
  }

  /** The format code and sample size of a supported format lead back to the format. */
  lemma WaveCodeBack(format: int)
    requires format > 0 && WaveCode(format) != 0
    ensures WaveFormat(WaveCode(format), FormatBits(format), false) == format
    ensures WaveCode(format) < 0xFFFE && FormatBits(format) < 65536
  {
  }

  lemma FmtAccepted(buf: seq<byte>, code: nat, bits: nat, channels: nat, speed: nat, s: Sound)
    requires |buf| == P_READBUF_SIZE && !s.comm && code < 0xFFFE
    requires speed < 0x8000_0000 && WaveFormat(code, bits, false) != 0
    requires LeValue(buf[..2]) == code && LeValue(buf[2..4]) == channels
    requires LeValue(buf[4..8]) == speed && LeValue(buf[14..16]) == bits
    ensures FmtParse(Wave, buf, 16, s) ==
      (0, s.(format := WaveFormat(code, bits, false), channels := channels, speed := speed, comm := true))
  {
  }

  /** Parsing the written `fmt ` chunk. */
  lemma FmtParsed(buf: seq<byte>, format: int, channels: nat, speed: nat, byteRate: nat, align: nat, s: Sound)
    requires format > 0 && WaveCode(format) != 0 && Rates(channels, speed) && !s.comm && |buf| == P_READBUF_SIZE
    requires buf[..16] == FmtBody(WaveCode(format), channels, speed, byteRate, align, FormatBits(format))
    ensures FmtParse(Wave, buf, 16, s)
      == (0, s.(format := format, channels := channels % 65536, speed := speed, comm := true))
  {
    var code, bits := WaveCode(format), FormatBits(format);
    FmtNumbers(buf, code, channels, speed, byteRate, align, bits);
    WaveCodeBack(format);
    FmtAccepted(buf, code, bits, channels % 65536, speed, s);
  }

  /** A header of a form: name, length, kind. */
  ghost predicate FormAt(p: seq<byte>, name: nat, length: seq<byte>, kind: nat) {
    |p| >= 12 && p[..4] == Be(name, 4) && p[4..8] == length && p[8..12] == Be(kind, 4)
  }

  /** Where the parts of a WAVE header stand. */
  lemma WaveParts(h: WaveHeader, p: seq<byte>)
    requires p == h.Packed()
    ensures FormAt(p, ID_RIFF, Le(h.length, 4), ID_WAVE)
    ensures p[12..16] == Be(ID_FMT, 4) && p[16..20] == Le(16, 4)
    ensures p[20..36] == FmtBody(h.code, h.channels, h.speed, h.byteRate, h.align, h.bits)
    ensures p[36..40] == Be(ID_DATA, 4) && p[40..44] == Le(h.dataLength, 4)
  {
    var form := Be(ID_RIFF, 4) + Le(h.length, 4) + Be(ID_WAVE, 4);
    var first, second := Be(ID_FMT, 4) + Le(16, 4), Be(ID_DATA, 4) + Le(h.dataLength, 4);
    Four(form, first, FmtBody(h.code, h.channels, h.speed, h.byteRate, h.align, h.bits), second, p);
    Three(Be(ID_RIFF, 4), Le(h.length, 4), Be(ID_WAVE, 4), form);
    Two(Be(ID_FMT, 4), Le(16, 4));
    Two(Be(ID_DATA, 4), Le(h.dataLength, 4));
    Parts(p, form, first, second, 36);
  }

  lemma Parts(p: seq<byte>, form: seq<byte>, first: seq<byte>, second: seq<byte>, at: nat)
    requires |form| == 12 && |first| == |second| == 8 && 20 <= at && at + 8 <= |p|
    requires p[..12] == form && p[12..20] == first && p[at..at + 8] == second
    ensures p[..4] == form[..4] && p[4..8] == form[4..8] && p[8..12] == form[8..]
    ensures p[12..16] == first[..4] && p[16..20] == first[4..]
    ensures p[at..at + 4] == second[..4] && p[at + 4..at + 8] == second[4..]
  {
  }

  /** The form header in the buffer, and the reader that starts from it. */
  lemma FormRead(kind: Kind, file: seq<byte>, buf: seq<byte>, length: nat) returns (r: Reader)
    requires |buf| == P_READBUF_SIZE && |file| >= 12 && buf[..12] == file[..12] && length < U32
    requires file[4..8] == if kind == Wave then Le(length, 4) else Be(length, 4)
    ensures r.Valid() && r.kind == kind && r.pos == r.futSize == 12 && !r.sound.comm && !r.sound.ssnd
    ensures r.totalSize == if |file| < length + 8 then |file| else length + 8
    ensures PlayIff(kind, file, buf, true) == Conclude(Walk(file, r))
  {
    assert buf[4..8] == buf[..12][4..8] == file[4..8];
    Numbers(length);
    r := InitReader(kind, file, buf, true);
  }

  /** What remains of `n` bytes of sound behind a header of `head` bytes: an even number of them, of those
      a 32-bit length can count. */
  function SoundLength(n: nat, head: nat): nat
    requires 0 < head < 100
  {
    var dl := DeclaredLength(n, head); dl - dl % 2
  }

  /** A recorded WAVE file by its parts: how many bytes of sound, and the fields of the header. */
  ghost predicate WaveLaidOut(file: seq<byte>, n: nat, h: WaveHeader) {
    && |file| == WAVE_HEAD + n + n % 2
    && FormAt(file, ID_RIFF, Le(h.length, 4), ID_WAVE)
    && HeaderAt(Wave, file, 12, ID_FMT, 16)
    && file[20..36] == FmtBody(h.code, h.channels, h.speed, h.byteRate, h.align, h.bits)
    && HeaderAt(Wave, file, 36, ID_DATA, h.dataLength)
  }

  lemma WaveIsLaidOut(file: seq<byte>, h: WaveHeader, data: seq<byte>)
    requires Recorded(file, h.Packed(), data) && h.dataLength < U32
    ensures WaveLaidOut(file, |data|, h)
  {
    var p := h.Packed();
    WaveParts(h, p);
    assert file[..44] == p;
    assert forall i, j | 0 <= i <= j <= 44 :: file[i..j] == p[i..j];
  }

  /** The front of the buffer after a chunk has been read. */
  lemma FrontRead(file: seq<byte>, r: Reader, n: nat) returns (read: Reader)
    requires r.Valid() && n <= P_READBUF_SIZE && r.pos + n <= |file|
    ensures read == ReadChunk(file, r, n) && read.Valid() && read.buf[..n] == file[r.pos..r.pos + n]
    ensures read.kind == r.kind && read.sound == r.sound
  {
    read := ReadChunk(file, r, n);
  }

  /** Past the `fmt ` chunk. */
  lemma FmtPassed(file: seq<byte>, r: Reader, format: int, channels: nat, speed: nat, byteRate: nat, align: nat)
    returns (r2: Reader)
    requires format > 0 && WaveCode(format) != 0 && Rates(channels, speed)
    requires r.Valid() && r.kind == Wave && r.pos == r.futSize == 12 && !r.sound.comm && 36 < r.totalSize <= |file|
    requires HeaderAt(Wave, file, 12, ID_FMT, 16)
    requires file[20..36] == FmtBody(WaveCode(format), channels, speed, byteRate, align, FormatBits(format))
    ensures r2.Valid() && r2.kind == Wave && r2.pos == r2.futSize == 36 && r2.totalSize == r.totalSize
    ensures r2.sound == r.sound.(format := format, channels := channels % 65536, speed := speed, comm := true)
    ensures Walk(file, r) == Walk(file, r2)
  {
    var r1 := HeaderRead(file, r, ID_FMT, 16);
    var read := FrontRead(file, r1, 16);
    FmtParsed(read.buf, format, channels, speed, byteRate, align, r.sound);
    r2 := ChunkHandled(file, r1,
                       r.sound.(format := format, channels := channels % 65536, speed := speed, comm := true));
    WalkPast(file, r, r1, r2);
  }

  lemma DataVisited(file: seq<byte>, r: Reader) returns (r2: Reader)
    requires r.Valid() && r.kind == Wave && r.chunkId == ID_DATA && !r.sound.ssnd
    ensures Visit(file, r) == More(r2) && r2.Valid() && r2.futSize == r.futSize && r2.totalSize == r.totalSize
    ensures r2.sound == r.sound.(location := r.curSize, size := r.chunkSize, ssnd := true)
  {
    r2 := Visit(file, r).reader;
  }

  /** Past the `data` chunk. */
  lemma DataPassed(file: seq<byte>, r: Reader, size: nat) returns (r2: Reader)
    requires r.Valid() && r.kind == Wave && r.pos == r.futSize == 36
    requires r.sound.comm && !r.sound.ssnd && 44 < r.totalSize
    requires HeaderAt(Wave, file, 36, ID_DATA, size) && size % 2 == 0
    ensures r2.Valid() && r2.futSize == 44 + size && r2.totalSize == r.totalSize
    ensures r2.sound == if size == 0 then r.sound else r.sound.(location := 44, size := size, ssnd := true)
    ensures Walk(file, r) == Walk(file, r2)
  {
    var r1 := HeaderRead(file, r, ID_DATA, size);
    r2 := r1;
    if size > 0 {
      r2 := DataVisited(file, r1);
    }
    WalkPast(file, r, r1, r2);
  }

  /** The lengths in a WAVE file: the declared one, the one of the `data` chunk, and the file's. */
  lemma WaveLengths(n: nat, size: nat, total: nat)
    requires size == SoundLength(n, WAVE_HEAD)
    requires var length := DeclaredLength(n, WAVE_HEAD) + 44;
      total == if 44 + n + n % 2 < length then 44 + n + n % 2 else length
    ensures size % 2 == 0 && (n > 0 ==> (size == 0 <==> n < 2)) && (n == 0 <==> total <= 44)
    ensures 52 + size >= total
  {
  }

  /** The walk from the `data` chunk on. */
  lemma WaveData(file: seq<byte>, r: Reader, n: nat, size: nat)
    requires r.Valid() && r.kind == Wave && r.pos == r.futSize == 36 && r.sound.comm && !r.sound.ssnd
    requires size % 2 == 0 && (n > 0 ==> (size == 0 <==> n < 2))
    requires (n == 0 <==> r.totalSize <= 44) && 52 + size >= r.totalSize
    requires HeaderAt(Wave, file, 36, ID_DATA, size)
    ensures var d := Walk(file, r);
      && !d.stop.Refused?
      && d.reader.sound == if n < 2 then r.sound else r.sound.(location := 44, size := size, ssnd := true)
  {
    if n == 0 {
      WalkEnds(file, r);
    } else {
      var r2 := DataPassed(file, r, size);
      WalkEnds(file, r2);
    }
  }

  /** The player on a recorded WAVE file. Without a pair of bytes of data it finds no sound. */
  lemma WavePlayed(file: seq<byte>, buf: seq<byte>, format: int, channels: nat, speed: nat, n: nat)
    requires format > 0 && WaveCode(format) != 0 && Rates(channels, speed)
    requires WaveLaidOut(file, n, WaveHead(n, format, channels, speed))
    requires |buf| == P_READBUF_SIZE && buf[..12] == file[..12]
    ensures PlayIff(Wave, file, buf, true) ==
      if n < 2 then Fails(E_DECODE) else Plays(format, channels % 65536, speed, SoundLength(n, WAVE_HEAD), WAVE_HEAD)
  {
    var h := WaveHead(n, format, channels, speed);
    var r := FormRead(Wave, file, buf, h.length);
    var r2 := FmtPassed(file, r, format, channels, speed, h.byteRate, h.align);
    WaveLengths(n, h.dataLength, r.totalSize);
    WaveData(file, r2, n, h.dataLength);
  }

  /** RIFF WAVE and FORM AIFF files are recognised. */
  lemma FormOpened(kind: Kind, file: seq<byte>, junk: seq<byte>) returns (buf: seq<byte>)
    requires |junk| == P_READBUF_SIZE && |file| >= 12 && kind != WaveBigEndian
    requires file[..4] == (if kind == Wave then Be(ID_RIFF, 4) else Be(ID_FORM, 4))
    requires file[8..12] == (if kind == Wave then Be(ID_WAVE, 4) else Be(ID_AIFF, 4))
    ensures |buf| == P_READBUF_SIZE && buf[..12] == file[..12]
    ensures PlayFile(file, junk, true) == Known(PlayIff(kind, file, buf, true))
  {
    buf := Into(junk, Available(file, 0, 12));
    HeadIsRead(file, junk, buf);
    FormNumbers(kind, buf[..4], buf[8..12]);
    FormPlayed(kind, file, junk, buf);
  }

  lemma HeadIsRead(file: seq<byte>, junk: seq<byte>, buf: seq<byte>)
    requires |junk| == P_READBUF_SIZE && |file| >= 12 && buf == Into(junk, Available(file, 0, 12))
    ensures buf[..12] == file[..12] && buf[..4] == file[..4] && buf[8..12] == file[8..12]
  {
  }

  lemma FormPlayed(kind: Kind, file: seq<byte>, junk: seq<byte>, buf: seq<byte>)
    requires |junk| == P_READBUF_SIZE && |file| >= 12 && kind != WaveBigEndian
    requires buf == Into(junk, Available(file, 0, 12))
    requires if kind == Wave then BeValue(buf[..4]) == ID_RIFF && BeValue(buf[8..12]) == ID_WAVE
             else BeValue(buf[..4]) == ID_FORM && BeValue(buf[8..12]) == ID_AIFF
    ensures PlayFile(file, junk, true) == Known(PlayIff(kind, file, buf, true))
  {
  }

  lemma FormNumbers(kind: Kind, id: seq<byte>, form: seq<byte>)
    requires kind != WaveBigEndian
    requires if kind == Wave then id == Be(ID_RIFF, 4) && form == Be(ID_WAVE, 4)
             else id == Be(ID_FORM, 4) && form == Be(ID_AIFF, 4)
    ensures if kind == Wave then BeValue(id) == ID_RIFF && BeValue(form) == ID_WAVE
            else BeValue(id) == ID_FORM && BeValue(form) == ID_AIFF
  {
    Numbers(ID_RIFF);
    Numbers(ID_WAVE);
    Numbers(ID_FORM);
    Numbers(ID_AIFF);
  }

  lemma WaveFound(file: seq<byte>, junk: seq<byte>, format: int, channels: nat, speed: nat, n: nat)
    requires format > 0 && WaveCode(format) != 0 && Rates(channels, speed) && |junk| == P_READBUF_SIZE
    requires WaveLaidOut(file, n, WaveHead(n, format, channels, speed))
    ensures PlayFile(file, junk, true) == Known(
      if n < 2 then Fails(E_DECODE) else Plays(format, channels % 65536, speed, SoundLength(n, WAVE_HEAD), WAVE_HEAD))
  {
    var buf := FormOpened(Wave, file, junk);
    WavePlayed(file, buf, format, channels, speed, n);
  }

  lemma WaveSame(n: nat, size: nat, format: int, channels: nat, speed: int)
    requires size == SoundLength(n, WAVE_HEAD)
    ensures (if n < 2 then Fails(E_DECODE) else Plays(format, channels % 65536, speed, size, WAVE_HEAD))
      == Plays(format, channels, speed, n, WAVE_HEAD)
      <==> 0 < n <= U32_MAX - WAVE_HEAD && n % 2 == 0 && channels < 65536
  {
  }

  /** WAVE files come back as recorded, format, rate, number of channels, length and data, exactly when
      the data are an even number of bytes, not none, that fits beside the header into 32 bits, and the
      number of channels fits into 16. */
  lemma WaveRoundTrip(file: seq<byte>, junk: seq<byte>, data: seq<byte>, format: int, channels: int, speed: int)
    requires Rates(channels, speed) && |junk| == P_READBUF_SIZE
    requires var w := HeadFor(WaveFile, |data|, format, channels, speed);
      w.Head? && Recorded(file, w.header.Packed(), data)
    ensures PlayFile(file, junk, true) == Known(Plays(format, channels, speed, |data|, WAVE_HEAD)) <==>
      0 < |data| <= U32_MAX - WAVE_HEAD && |data| % 2 == 0 && channels < 65536
  {
    WaveIsLaidOut(file, WaveHead(|data|, format, channels, speed), data);
    WaveFound(file, junk, format, channels, speed, |data|);
    WaveSame(|data|, SoundLength(|data|, WAVE_HEAD), format, channels, speed);
  }

  // ---------------------------------------------------------------- AIFF

  lemma AiffParts(h: AiffHeader, p: seq<byte>)
    requires |h.rate| == 10 && p == h.Packed()
    ensures FormAt(p, ID_FORM, Be(h.length, 4), ID_AIFF)
    ensures p[12..16] == Be(ID_COMM, 4) && p[16..20] == Be(18, 4)
    ensures p[20..38] == CommBody(h.frames, h.channels, h.rate, h.bits)
    ensures p[38..42] == Be(ID_SSND, 4) && p[42..46] == Be(h.dataLength, 4) && p[46..50] == Be(0, 4)
  {
    var form := Be(ID_FORM, 4) + Be(h.length, 4) + Be(ID_AIFF, 4);
    var first, second := Be(ID_COMM, 4) + Be(18, 4), Be(ID_SSND, 4) + Be(h.dataLength, 4);
    var offsets := Be(0, 4) + Be(0, 4);
    var rest := second + offsets;
    var comm := CommBody(h.frames, h.channels, h.rate, h.bits);
    Four(form, first, comm, rest, p);
    Two(second, offsets);
    assert p[38..46] == rest[..8] && p[46..50] == rest[8..12] == offsets[..4];
    Three(Be(ID_FORM, 4), Be(h.length, 4), Be(ID_AIFF, 4), form);
    Two(Be(ID_COMM, 4), Be(18, 4));
    Two(Be(ID_SSND, 4), Be(h.dataLength, 4));
    Two(Be(0, 4), Be(0, 4));
    Parts(p, form, first, second, 38);
  }

  lemma CommFields(frames: nat, channels: nat, rate: seq<byte>, bits: nat)
    requires |rate| == 10
    ensures var b := CommBody(frames, channels, rate, bits);
      b[..2] == Be(channels, 2) && b[6..8] == Be(bits, 2) && b[8..18] == rate
  {
  }

  lemma CommNumbers(buf: seq<byte>, frames: nat, channels: nat, rate: seq<byte>, bits: nat)
    requires |rate| == 10 && |buf| == P_READBUF_SIZE && buf[..18] == CommBody(frames, channels, rate, bits)
    ensures BeValue(buf[..2]) == channels % 65536 && BeValue(buf[6..8]) == bits % 65536 && buf[8..18] == rate
  {
    var b := buf[..18];
    assert buf[..2] == b[..2] && buf[6..8] == b[6..8] && buf[8..18] == b[8..18];
    CommFields(frames, channels, rate, bits);
    ShortNumbers(channels);
    ShortNumbers(bits);
  }

  /** The rate that the player ends up with: 1 overflows an `int`. */
  function AiffRateRead(speed: nat): int {
    if speed == 1 then -0x8000_0000 else speed
  }

  lemma LinearFormatBack(format: int)
    requires format > 0 && AiffAccepts(format)
    ensures var bits := FormatBits(format); bits < 65536 && LinearFormat(bits + bits % 8, true) == format
  {
  }

  lemma CommAccepted(buf: seq<byte>, bits: nat, channels: nat, rate: seq<byte>, s: Sound)
    requires |buf| == P_READBUF_SIZE && |rate| == 10 && !AiffSpeed(rate).Invalid?
    requires BeValue(buf[..2]) == channels && BeValue(buf[6..8]) == bits && buf[8..18] == rate
    ensures CommParse(buf, s) ==
      (0, s.(format := LinearFormat(bits + bits % 8, true),
             channels := channels, speed := SpeedToInt(AiffSpeed(rate)), comm := true))
  {
  }

  lemma CommParsed(buf: seq<byte>, frames: nat, format: int, channels: nat, speed: nat, s: Sound)
    requires format > 0 && AiffAccepts(format) && Rates(channels, speed) && |buf| == P_READBUF_SIZE
    requires buf[..18] == CommBody(frames, channels, AiffRate(speed), FormatBits(format))
    ensures CommParse(buf, s)
      == (0, s.(format := format, channels := channels % 65536, speed := AiffRateRead(speed), comm := true))
  {
    AiffRateRoundTrip(speed);
    LinearFormatBack(format);
    CommRead(buf, frames, channels, AiffRate(speed), FormatBits(format), s);
  }

  lemma CommRead(buf: seq<byte>, frames: nat, channels: nat, rate: seq<byte>, bits: nat, s: Sound)
    requires |buf| == P_READBUF_SIZE && |rate| == 10 && !AiffSpeed(rate).Invalid? && bits < 65536
    requires buf[..18] == CommBody(frames, channels, rate, bits)
    ensures CommParse(buf, s) == (0, s.(format := LinearFormat(bits + bits % 8, true), channels := channels % 65536,
                                        speed := SpeedToInt(AiffSpeed(rate)), comm := true))
  {
    CommNumbers(buf, frames, channels, rate, bits);
    CommAccepted(buf, bits, channels % 65536, rate, s);
  }

  ghost predicate AiffLaidOut(file: seq<byte>, n: nat, h: AiffHeader)
    requires |h.rate| == 10
  {
    && |file| == AIFF_HEAD + n + n % 2
    && FormAt(file, ID_FORM, Be(h.length, 4), ID_AIFF)
    && HeaderAt(Aiff, file, 12, ID_COMM, 18) && file[20..38] == CommBody(h.frames, h.channels, h.rate, h.bits)
    && HeaderAt(Aiff, file, 38, ID_SSND, h.dataLength) && file[46..50] == Be(0, 4)
  }

  lemma AiffIsLaidOut(file: seq<byte>, h: AiffHeader, data: seq<byte>)
    requires |h.rate| == 10 && Recorded(file, h.Packed(), data) && h.dataLength < U32
    ensures AiffLaidOut(file, |data|, h)
  {
    var p := h.Packed();
    AiffParts(h, p);
    assert file[..54] == p;
    assert forall i, j | 0 <= i <= j <= 54 :: file[i..j] == p[i..j];
  }

  lemma CommHandled(file: seq<byte>, r: Reader, read: Reader, sound: Sound)
    requires r.Valid() && r.kind == Aiff && r.chunkId == ID_COMM && r.chunkSize == 18
    requires read == ReadChunk(file, r, 18) && CommParse(read.buf, r.sound) == (0, sound)
    ensures Lookup(r.kind, r.chunkId) == Entry(18, ReadAll, ParseComm)
    ensures Handle(ParseComm, ReadChunk(file, r, 18), 18) == (0, sound)
  {
  }

  /** Past the `COMM` chunk, when its handler is content with the body, whatever follows in the buffer. */
  lemma CommPassed(file: seq<byte>, r: Reader, body: seq<byte>, sound: Sound) returns (r2: Reader)
    requires r.Valid() && r.kind == Aiff && r.pos == r.futSize == 12 && 38 < r.totalSize <= |file| && !r.sound.comm
    requires HeaderAt(Aiff, file, 12, ID_COMM, 18) && file[20..38] == body
    requires forall buf: seq<byte> :: |buf| == P_READBUF_SIZE && buf[..18] == body ==>
      CommParse(buf, r.sound) == (0, sound)
    ensures r2.Valid() && r2.kind == Aiff && r2.pos == r2.futSize == 38
    ensures r2.totalSize == r.totalSize && r2.sound == sound
    ensures Walk(file, r) == Walk(file, r2)
  {
    var r1 := HeaderRead(file, r, ID_COMM, 18);
    var read := FrontRead(file, r1, 18);
    assert CommParse(read.buf, r.sound) == (0, sound);
    CommHandled(file, r1, read, sound);
    r2 := ChunkHandled(file, r1, sound);
    WalkPast(file, r, r1, r2);
  }

  /** The `SSND` chunk's handler. */
  lemma SsndVisited(file: seq<byte>, r: Reader) returns (r2: Reader)
    requires r.Valid() && r.kind == Aiff && r.chunkId == ID_SSND
    requires r.pos == r.curSize == 46 && r.cpos == 0 && !r.sound.ssnd
    requires |file| >= 54 && file[46..50] == Be(0, 4) && r.futSize == 46 + r.chunkSize
    ensures Visit(file, r) == More(r2) && r2.Valid() && r2.kind == Aiff
    ensures r2.futSize == r.futSize && r2.totalSize == r.totalSize
    ensures r2.pos == r2.futSize || r2.futSize >= r2.totalSize
    ensures r2.sound == if r.chunkSize < 8 then r.sound
      else r.sound.(location := 54, size := r.chunkSize - 8, ssnd := true)
  {
    r2 := Visit(file, r).reader;
    if r.chunkSize >= 8 {
      var read := ReadChunk(file, r, 8);
      assert read.buf[..4] == file[46..50];
      Numbers(0);
    }
  }

  /** Of an odd number of bytes of sound the last ones are taken for a chunk header, which is too close to
      the end to matter. */
  lemma TailIgnored(file: seq<byte>, r: Reader)
    requires r.Valid() && r.kind == Aiff && r.pos == r.futSize && r.futSize + 8 < r.totalSize <= r.pos + 16
    requires r.pos + 8 <= |file| < r.pos + 16
    ensures var d := Walk(file, r); !d.stop.Refused? && d.reader.sound == r.sound
  {
    var r' := ReadHeader(file, r);
    if r'.chunkSize == 0 {
      if !(r'.sound.ssnd && r'.sound.comm) {
        assert Iterate(file, r) == Iterate(file, r') == Done(Exhausted, r'.(curSize := r'.futSize + 8));
      }
    } else {
      assert Iterate(file, r) == More(r');
      ShortTail(file, r');
      if Visit(file, r').More? {
        WalkEnds(file, Visit(file, r').reader);
      }
    }
  }

  lemma ShortTail(file: seq<byte>, r: Reader)
    requires r.Valid() && r.kind == Aiff && |file| < r.pos + 8
    ensures var v := Visit(file, r); v.reader.sound == r.sound && (v.Done? ==> v.stop == ShortChunk)
  {
  }

  /** Past the `SSND` chunk. */
  lemma SsndPassed(file: seq<byte>, r: Reader, size: nat) returns (r2: Reader)
    requires r.Valid() && r.kind == Aiff && r.pos == r.futSize == 38
    requires r.sound.comm && !r.sound.ssnd && 46 < r.totalSize
    requires |file| >= AIFF_HEAD && HeaderAt(Aiff, file, 38, ID_SSND, size) && size % 2 == 0 && file[46..50] == Be(0, 4)
    ensures r2.Valid() && r2.kind == Aiff && r2.futSize == 46 + size && r2.totalSize == r.totalSize
    ensures r2.pos == r2.futSize || r2.futSize >= r2.totalSize
    ensures r2.sound == if size < 8 then r.sound else r.sound.(location := 54, size := size - 8, ssnd := true)
    ensures Walk(file, r) == Walk(file, r2)
  {
    var r1 := HeaderRead(file, r, ID_SSND, size);
    r2 := r1;
    if size > 0 {
      r2 := SsndVisited(file, r1);
    }
    WalkPast(file, r, r1, r2);
  }

  /** The lengths in an AIFF file. */
  lemma AiffLengths(n: nat, size: nat, total: nat)
    requires size == SoundLength(n, AIFF_HEAD)
    requires var length := DeclaredLength(n, AIFF_HEAD) + 54;
      total == if 54 + n + n % 2 < length then 54 + n + n % 2 else length
    ensures size % 2 == 0 && 46 < total
    ensures 54 + size < total ==> total == 55 + size && n == size + 1
  {
  }

  /** The walk from the `SSND` chunk on. */
  lemma AiffData(file: seq<byte>, r: Reader, n: nat, size: nat)
    requires r.Valid() && r.kind == Aiff && r.pos == r.futSize == 38 && r.sound.comm && !r.sound.ssnd
    requires |file| == AIFF_HEAD + n + n % 2 && size % 2 == 0 && 46 < r.totalSize
    requires 54 + size < r.totalSize ==> r.totalSize == 55 + size && n == size + 1
    requires HeaderAt(Aiff, file, 38, ID_SSND, size) && file[46..50] == Be(0, 4)
    ensures var d := Walk(file, r);
      && !d.stop.Refused?
      && d.reader.sound == if size < 8 then r.sound else r.sound.(location := 54, size := size - 8, ssnd := true)
  {
    var r2 := SsndPassed(file, r, size);
    if r2.futSize + 8 >= r2.totalSize {
      WalkEnds(file, r2);
    } else {
      TailIgnored(file, r2);
    }
  }

  /** The player on a recorded AIFF file: eight bytes of the sound are missing. */
  lemma AiffPlayed(file: seq<byte>, buf: seq<byte>, format: int, channels: nat, speed: nat, n: nat)
    requires format > 0 && AiffAccepts(format) && Rates(channels, speed)
    requires AiffLaidOut(file, n, AiffHead(n, format, channels, speed))
    requires |buf| == P_READBUF_SIZE && buf[..12] == file[..12]
    ensures PlayIff(Aiff, file, buf, true) ==
      if SoundLength(n, AIFF_HEAD) < 8 then Fails(E_DECODE)
      else Plays(format, channels % 65536, AiffRateRead(speed), SoundLength(n, AIFF_HEAD) - 8, AIFF_HEAD)
  {
    var h := AiffHead(n, format, channels, speed);
    var r := FormRead(Aiff, file, buf, h.length);
    var body := CommBody(h.frames, channels, h.rate, h.bits);
    var sound := r.sound.(format := format, channels := channels % 65536, speed := AiffRateRead(speed), comm := true);
    forall buf: seq<byte> | |buf| == P_READBUF_SIZE && buf[..18] == body ensures CommParse(buf, r.sound) == (0, sound) {
      CommParsed(buf, h.frames, format, channels, speed, r.sound);
    }
    var r2 := CommPassed(file, r, body, sound);
    AiffLengths(n, h.dataLength, r.totalSize);
    AiffData(file, r2, n, h.dataLength);
  }

  lemma AiffFound(file: seq<byte>, junk: seq<byte>, format: int, channels: nat, speed: nat, n: nat)
    requires format > 0 && AiffAccepts(format) && Rates(channels, speed) && |junk| == P_READBUF_SIZE
    requires AiffLaidOut(file, n, AiffHead(n, format, channels, speed))
    ensures PlayFile(file, junk, true) == Known(
      if SoundLength(n, AIFF_HEAD) < 8 then Fails(E_DECODE)
      else Plays(format, channels % 65536, AiffRateRead(speed), SoundLength(n, AIFF_HEAD) - 8, AIFF_HEAD))
  {
    var buf := FormOpened(Aiff, file, junk);
    AiffPlayed(file, buf, format, channels, speed, n);
  }

  lemma AiffSame(n: nat, size: int, format: int, channels: nat, speed: int)
    requires size == SoundLength(n, AIFF_HEAD) - 8 && speed > 0
    ensures (if size < 0 then Fails(E_DECODE)
             else Plays(format, channels % 65536, AiffRateRead(speed), size, AIFF_HEAD))
        == Plays(format, channels, speed, size, AIFF_HEAD)
      <==> (n == 0 || n >= 8) && channels < 65536 && speed >= 2
  {
  }

  /** AIFF files keep format, number of channels and rate exactly when there are eight bytes of data, or none,
      the number of channels fits into 16 bits and the rate is not 1; the length is then eight bytes less
      than the declared one, which without data is the largest. */
  lemma AiffRoundTrip(file: seq<byte>, junk: seq<byte>, data: seq<byte>, format: int, channels: int, speed: int)
    requires Rates(channels, speed) && |junk| == P_READBUF_SIZE
    requires var w := HeadFor(AiffFile, |data|, format, channels, speed);
      w.Head? && w.header.Valid() && Recorded(file, w.header.Packed(), data)
    ensures PlayFile(file, junk, true)
      == Known(Plays(format, channels, speed, SoundLength(|data|, AIFF_HEAD) - 8, AIFF_HEAD))
      <==> (|data| == 0 || |data| >= 8) && channels < 65536 && speed >= 2
  {
    AiffIsLaidOut(file, AiffHead(|data|, format, channels, speed), data);
    AiffFound(file, junk, format, channels, speed, |data|);
    AiffSame(|data|, SoundLength(|data|, AIFF_HEAD) - 8, format, channels, speed);
  }

  // ---------------------------------------------------------------- what else a WAVE header says

  /** The codes that name the same kind of sound. */
  function Family(code: nat): nat {
    if code == 0x102 then 6 else if code == 0x101 then 7 else code
  }

  /** The format that the player finds has the size that the chunk tells, or that its code implies. */
  lemma WaveFormatSize(code: nat, bits: nat, bigEndian: bool)
    requires WaveFormat(code, bits, bigEndian) != 0
    ensures var rounded := bits + bits % 8;
      FormatBits(WaveFormat(code, bits, bigEndian)) ==
        if code == 2 then 4
        else if Family(code) == 6 || Family(code) == 7 then 8
        else if code != 1 then bits
        else if rounded == 8 || rounded == 24 || rounded == 32 then rounded else 16
  {
  }

  /** Sounds of different kinds, sizes or orders of bytes are told apart. */
  lemma WaveFormatsApart(code: nat, bits: nat, bigEndian: bool, code': nat, bits': nat, bigEndian': bool)
    requires WaveFormat(code, bits, bigEndian) == WaveFormat(code', bits', bigEndian') != 0
    ensures Family(code) == Family(code')
    ensures code == 1 && bits + bits % 8 > 8 && bits' + bits' % 8 > 8 ==> bigEndian == bigEndian'
    ensures code == 3 || code == 0x11 ==> bits == bits'
  {
  }

  /** Where the samples are whole bytes, the rates agree: so many bytes for a sample of every channel, and for
      a second. */
  lemma WaveRates(datalimit: nat, format: int, channels: nat, speed: nat)
    requires FormatBits(format) % 8 == 0
    ensures var h := WaveHead(datalimit, format, channels, speed);
      8 * h.align == channels * h.bits && h.byteRate == speed * h.align && h.bits == FormatBits(format)
  {
    var bytes := FormatBits(format) / 8;
    Eighth(channels, bytes);
    Eighth(speed * channels, bytes);
    Regrouped(speed, channels, bytes);
  }

  lemma Eighth(a: nat, bytes: nat)
    ensures a * (8 * bytes) / 8 == a * bytes && 8 * (a * bytes) == a * (8 * bytes)
  {
    assert a * (8 * bytes) == 8 * (a * bytes);
  }

  lemma Regrouped(a: nat, b: nat, c: nat)
    ensures a * b * c == a * (b * c)
  {
  }

  // ---------------------------------------------------------------- AU

  lemma AuParts(h: AuHeader, p: seq<byte>)
    requires p == h.Packed()
    ensures p[..4] == Be(ID_SND, 4) && p[4..8] == Be(h.offset, 4) && p[8..12] == Be(h.length, 4)
    ensures p[12..16] == Be(h.code, 4) && p[16..20] == Be(h.speed, 4) && p[20..24] == Be(h.channels, 4)
  {
    var front := Be(ID_SND, 4) + Be(h.offset, 4) + Be(h.length, 4);
    var back := Be(h.code, 4) + Be(h.speed, 4) + Be(h.channels, 4);
    Three(front, back, COMMENT, p);
    Three(Be(ID_SND, 4), Be(h.offset, 4), Be(h.length, 4), front);
    Three(Be(h.code, 4), Be(h.speed, 4), Be(h.channels, 4), back);
    assert p[..4] == front[..4] && p[4..8] == front[4..8] && p[8..12] == front[8..];
    assert p[12..16] == back[..4] && p[16..20] == back[4..8] && p[20..24] == back[8..];
  }

  lemma AuCodeBack(format: int)
    requires AuCode(format) != 0
    ensures AuCode(format) < 28 && AuFormat(AuCode(format)) == format
  {
  }

  /** The numbers of a written AU header. */
  lemma AuNumbers(hdr: seq<byte>, h: AuHeader)
    requires |hdr| == 24 && hdr == h.Packed()[..24]
    requires h.offset < U32 && h.length < U32 && h.code < U32 && h.speed < U32 && h.channels < U32
    ensures BeValue(hdr[4..8]) == h.offset && BeValue(hdr[8..12]) == h.length && BeValue(hdr[12..16]) == h.code
    ensures BeValue(hdr[16..20]) == h.speed && BeValue(hdr[20..24]) == h.channels
  {
    var p := h.Packed();
    AuParts(h, p);
    assert hdr[4..8] == p[4..8] && hdr[8..12] == p[8..12] && hdr[12..16] == p[12..16];
    assert hdr[16..20] == p[16..20] && hdr[20..24] == p[20..24];
    Numbers(h.offset);
    Numbers(h.length);
    Numbers(h.code);
    Numbers(h.speed);
    Numbers(h.channels);
  }

  /** The reader on a written AU header. */
  lemma AuRead(hdr: seq<byte>, h: AuHeader, format: int, fileSize: nat)
    requires |hdr| == 24 && hdr == h.Packed()[..24] && h.offset == AU_HEAD && h.length < U32 && format != 0
    requires h.code == AuCode(format) != 0 && Rates(h.channels, h.speed)
    ensures AuOutcome(hdr, fileSize, true) ==
      Plays(format, h.channels, h.speed, if h.length == U32_MAX then (fileSize - 66) % U64 else h.length, AU_HEAD)
  {
    AuCodeBack(format);
    AuNumbers(hdr, h);
    AuConcluded(hdr, format, h.length, h.speed, h.channels, fileSize);
  }

  lemma AuConcluded(hdr: seq<byte>, format: int, length: nat, speed: nat, channels: nat, fileSize: nat)
    requires |hdr| == 24 && BeValue(hdr[4..8]) == AU_HEAD && BeValue(hdr[8..12]) == length < U32 && format != 0
    requires AuFormat(BeValue(hdr[12..16])) == format
    requires BeValue(hdr[16..20]) == speed && BeValue(hdr[20..24]) == channels
    requires Rates(channels, speed)
    ensures AuOutcome(hdr, fileSize, true) ==
      Plays(format, channels, speed, if length == U32_MAX then (fileSize - 66) % U64 else length, AU_HEAD)
  {
  }

  /** AU files, which are not padded, come back as recorded exactly when there are data and their length
      fits into 32 bits and is not the one that means an unknown length. */
  lemma AuRoundTrip(file: seq<byte>, junk: seq<byte>, data: seq<byte>, format: int, channels: int, speed: int)
    requires Rates(channels, speed) && |junk| == P_READBUF_SIZE
    requires var w := HeadFor(AuFile, |data|, format, channels, speed); w.Head? && file == w.header.Packed() + data
    ensures PlayFile(file, junk, true) == Known(Plays(format, channels, speed, |data|, AU_HEAD))
      <==> 0 < |data| < U32_MAX
    ensures file[AU_HEAD..] == data
  {
    var h := AuHead(|data|, format, channels, speed);
    assert h == HeadFor(AuFile, |data|, format, channels, speed).header.au;
    AuFound(file, junk, h, data, format);
    AuSame(|data|, h.length, format, channels, speed);
  }

  lemma AuFound(file: seq<byte>, junk: seq<byte>, h: AuHeader, data: seq<byte>, format: int)
    requires |junk| == P_READBUF_SIZE && file == h.Packed() + data && format != 0
    requires h.offset == AU_HEAD && h.length < U32 && h.code == AuCode(format) != 0 && Rates(h.channels, h.speed)
    ensures |file| == |data| + AU_HEAD && file[AU_HEAD..] == data
    ensures PlayFile(file, junk, true) == Known(
      Plays(format, h.channels, h.speed, if h.length == U32_MAX then (|file| - 66) % U64 else h.length, AU_HEAD))
  {
    var p := h.Packed();
    assert file[..24] == p[..24];
    AuParts(h, p);
    AuOpened(file, junk);
    AuRead(file[..24], h, format, |file|);
  }

  lemma AuSame(n: nat, length: nat, format: int, channels: int, speed: int)
    requires length == if n == 0 || n > U32_MAX then U32_MAX else n
    ensures Known(Plays(format, channels, speed,
                        if length == U32_MAX then (n + AU_HEAD - 66) % U64 else length, AU_HEAD))
         == Known(Plays(format, channels, speed, n, AU_HEAD))
      <==> 0 < n < U32_MAX
  {
  }

  lemma AuOpened(file: seq<byte>, junk: seq<byte>)
    requires |file| >= 24 && file[..4] == Be(ID_SND, 4) && |junk| == P_READBUF_SIZE
    ensures PlayFile(file, junk, true) == Known(AuOutcome(file[..24], |file|, true))
  {
    var head := Into(junk, Available(file, 0, 12));
    assert head[..4] == file[..4];
    Numbers(ID_SND);
  }

  // ---------------------------------------------------------------- CAF

  lemma CafParts(h: CafHeader, p: seq<byte>)
    requires |h.rate| == 8 && p == h.Packed()
    ensures p[..4] == Be(ID_CAFF, 4) && p[8..12] == Be(ID_DESC, 4) && p[12..20] == Be(32, 8)
    ensures p[20..52] == DescBody(h.rate, h.code, h.flags, h.packet, h.channels, h.bits)
    ensures p[52..56] == Be(ID_DATA, 4) && p[56..64] == Be(h.length, 8)
  {
    var front, first := Be(ID_CAFF, 4) + Be(1, 2) + Be(0, 2), Be(ID_DESC, 4) + Be(32, 8);
    var desc := DescBody(h.rate, h.code, h.flags, h.packet, h.channels, h.bits);
    var second := Be(ID_DATA, 4) + Be(h.length, 8);
    var rest := second + Be(0, 4);
    Four(front, first, desc, rest, p);
    assert p[0..8] == front && p[8..20] == first && p[20..52] == desc && p[52..68] == rest;
    assert front == Be(ID_CAFF, 4) + (Be(1, 2) + Be(0, 2));
    TwoInside(p, 0, Be(ID_CAFF, 4), Be(1, 2) + Be(0, 2));
    TwoInside(p, 8, Be(ID_DESC, 4), Be(32, 8));
    TwoInside(p, 52, second, Be(0, 4));
    TwoInside(p, 52, Be(ID_DATA, 4), Be(h.length, 8));
  }

  lemma TwoInside(p: seq<byte>, at: nat, a: seq<byte>, b: seq<byte>)
    requires at + |a| + |b| <= |p| && p[at..at + |a| + |b|] == a + b
    ensures p[at..at + |a|] == a && p[at + |a|..at + |a| + |b|] == b
  {
    var both := p[at..at + |a| + |b|];
    assert both[..|a|] == a && both[|a|..] == b;
  }

  lemma DescFields(rate: seq<byte>, code: nat, flags: nat, packet: nat, channels: nat, bits: nat, b: seq<byte>)
    requires |rate| == 8 && b == DescBody(rate, code, flags, packet, channels, bits)
    ensures b[..8] == rate && b[8..12] == Be(code, 4) && b[12..16] == Be(flags, 4) && b[16..20] == Be(packet, 4)
    ensures b[24..28] == Be(channels, 4) && b[28..32] == Be(bits, 4)
  {
    var front, back := rate + Be(code, 4) + Be(flags, 4), Be(1, 4) + Be(channels, 4) + Be(bits, 4);
    Three(front, Be(packet, 4), back, b);
    Three(rate, Be(code, 4), Be(flags, 4), front);
    Three(Be(1, 4), Be(channels, 4), Be(bits, 4), back);
    assert b[..8] == front[..8] && b[8..12] == front[8..12] && b[12..16] == front[12..];
    assert b[24..28] == back[4..8] && b[28..32] == back[8..];
  }

  /** Only the low 32 bits are stored. */
  lemma Truncated(x: nat)
    ensures BeValue(Be(x, 4)) == x % U32
  {
    SameBytes(x, x % U32);
    Numbers(x % U32);
  }

  lemma SameBytes(x: nat, y: nat)
    requires y == x % U32
    ensures Be(x, 4) == Be(y, 4)
  {
    var k := x / U32;
    assert x == y + k * U32;
    assert x / 256 == y / 256 + k * 0x100_0000;
    assert x / 256 / 256 == y / 256 / 256 + k * 0x1_0000;
    assert x / 256 / 256 / 256 == y / 256 / 256 / 256 + k * 0x100;
    assert Be(x / 256 / 256 / 256, 1) == Be(y / 256 / 256 / 256, 1);
    assert Be(x / 256 / 256, 2) == Be(y / 256 / 256, 2);
    assert Be(x / 256, 3) == Be(y / 256, 3);
  }

  lemma PacketSize(format: int, channels: nat)
    requires CafCode(format) == ID_LPCM && 0 < channels < 0x8000_0000
    ensures CafLinear(FormatBits(format), FormatBits(format) / 8 * channels % U32, CafFlags(format), channels) == format
  {
  }

  lemma CafNumbers(h: CafHeader, b: seq<byte>)
    requires |h.rate| == 8 && h.code < U32 && h.flags < U32 && h.channels < U32 && h.bits < U32
    requires b == DescBody(h.rate, h.code, h.flags, h.packet, h.channels, h.bits)
    ensures b[..8] == h.rate && BeValue(b[8..12]) == h.code
    ensures BeValue(b[12..16]) == h.flags && BeValue(b[16..20]) == h.packet % U32
    ensures BeValue(b[24..28]) == h.channels && BeValue(b[28..32]) == h.bits
  {
    DescFields(h.rate, h.code, h.flags, h.packet, h.channels, h.bits, b);
    Numbers(h.code);
    Numbers(h.flags);
    Numbers(h.channels);
    Numbers(h.bits);
    Truncated(h.packet);
  }

  lemma CafAccepted(b: seq<byte>, h: CafHeader, format: int)
    requires |h.rate| == 8 && |b| == 32 && b[..8] == h.rate
    requires !CafSpeed(h.rate).Invalid? && 0 < h.channels < 0x8000_0000
    requires BeValue(b[8..12]) == h.code && BeValue(b[12..16]) == h.flags
    requires BeValue(b[24..28]) == h.channels && BeValue(b[28..32]) == h.bits
    requires h.code == ID_LPCM ==> CafLinear(h.bits, BeValue(b[16..20]), h.flags, h.channels) == format
    requires h.code == ID_ULAW ==> format == AFMT_MU_LAW
    requires h.code == ID_ALAW ==> format == AFMT_A_LAW
    requires h.code in {ID_LPCM, ID_ULAW, ID_ALAW} && format != 0
    ensures CafDescription(b) == Described(format, h.channels, SpeedToInt(CafSpeed(h.rate)))
  {
  }

  lemma CafCodes(format: int)
    requires CafCode(format) != 0
    ensures CafCode(format) in {ID_LPCM, ID_ULAW, ID_ALAW} && format != 0
    ensures CafCode(format) == ID_ULAW ==> format == AFMT_MU_LAW
    ensures CafCode(format) == ID_ALAW ==> format == AFMT_A_LAW
    ensures CafCode(format) < U32 && CafFlags(format) < U32 && FormatBits(format) < U32
  {
  }

  /** The reader on a written description. */
  lemma CafRead(b: seq<byte>, h: CafHeader, format: int)
    requires |h.rate| == 8 && b == DescBody(h.rate, h.code, h.flags, h.packet, h.channels, h.bits)
    requires h.code == CafCode(format) != 0 && h.flags == CafFlags(format) && h.bits == FormatBits(format)
    requires h.packet == h.bits / 8 * h.channels && 0 < h.channels < 0x8000_0000
    requires !CafSpeed(h.rate).Invalid?
    ensures CafDescription(b) == Described(format, h.channels, SpeedToInt(CafSpeed(h.rate)))
  {
    CafCodes(format);
    CafNumbers(h, b);
    if h.code == ID_LPCM {
      PacketSize(format, h.channels);
    }
    CafAccepted(b, h, format);
  }

  /** The description in a written CAF header stands behind the first 20 bytes and keeps format, number of
      channels and rate exactly when the rate is at least 2 and below 131072. */
  lemma CafRoundTrip(file: seq<byte>, n: nat, format: int, channels: int, speed: int)
    requires Rates(channels, speed)
    requires var w := HeadFor(CafFile, n, format, channels, speed);
      w.Head? && w.header.Valid() && file == w.header.Packed()
    ensures |file| == CAF_HEAD && file[8..12] == Be(ID_DESC, 4) && file[12..20] == Be(32, 8)
    ensures CafDescription(file[20..52]) == Described(format, channels, speed) <==> 2 <= speed < 131072
  {
    var h := CafHead(n, format, channels, speed);
    CafParts(h, file);
    CafRateRoundTrip(speed);
    CafRead(file[20..52], h, format);
  }
}
