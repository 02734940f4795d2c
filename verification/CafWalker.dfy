/** The player's walk over the chunks of a CAF file. Sizes and offsets are numbers of 64 bits that wrap, so
    the walk need not come to an end; `fuel` bounds the chunk headers that are looked at. */
module CafWalker {
  import opened Basics
  import opened Bytes
  import opened SampleRate
  import opened ChunkWalker
  import opened HeaderWriter
  import opened FileReaders
  import opened HeaderRoundTrip

  datatype CafReader = CafReader(
    pos: nat, curSize: nat, futSize: nat, totalSize: nat, chunkId: nat, chunkSize: nat, cpos: nat,
    buf: seq<byte>, description: Option<Description>, location: nat, length: nat, ssnd: bool)
  {
    predicate Valid() {
      |buf| == P_READBUF_SIZE
    }
  }

  /** What becomes of the walk: on with it, the end of it, the end of the player's patience with the file, or
      playing at once; `Tired` is the end of the fuel. */
  datatype Course = On(reader: CafReader) | Over(reader: CafReader)
    | Refuse(code: int) | PlayNow(reader: CafReader) | Tired

  /** After the first twelve bytes have been read; four of them belong to the first chunk header. */
  function CafInit(file: seq<byte>, buf: seq<byte>): (r: CafReader)
    requires |buf| == P_READBUF_SIZE
    ensures r.Valid()
  {
    CafReader(12, 12, 12, |file| % U64, 0, 0, 0, buf[8..12] + buf[4..], None, 0, 0, false)
  }

  /** The iterator, with `l` bytes of the header in the buffer. */
  function CafIterate(file: seq<byte>, r: CafReader, l: nat, fuel: nat): (c: Course)
    requires r.Valid() && l <= 12
    ensures c.On? || c.Over? ==> c.reader.Valid()
    ensures !c.Refuse? && !c.PlayNow?
    decreases fuel
  {
    var bytes := Available(file, r.pos, 12 - l);
    var cur := (r.futSize + 12 - l) % U64;
    if fuel == 0 then Tired
    else if cur >= r.totalSize then Over(r.(curSize := cur))
    else if |bytes| < 12 - l then Over(r.(curSize := cur, pos := r.pos + |bytes|))
    else
      var buf := r.buf[..l] + bytes + r.buf[12..];
      var size := BeValue(buf[4..12]);
      var r' := r.(pos := r.pos + 12 - l, curSize := cur, futSize := (r.futSize + size + 12 - l) % U64, cpos := 0,
                   buf := buf, chunkId := BeValue(buf[..4]), chunkSize := size);
      if size != 0 then On(r')
      else if r'.ssnd && r'.description.Some? then Over(r')
      else CafIterate(file, r', l, fuel - 1)
  }

  /** Forward to the next chunk, unless the form ends or the chunk is smaller than the `rbytes` that are said
      to have been read of it; a seek to before the file's start ends the walk. */
  function CafSkip(r: CafReader, rbytes: nat): (c: Course)
    requires r.Valid()
    ensures c.On? || c.Over?
    ensures c.reader.Valid()
  {
    var distance := (r.futSize - r.curSize - r.cpos) % U64;
    var signed := if distance >= U64 / 2 then distance - U64 else distance;
    if r.futSize >= r.totalSize || r.chunkSize < rbytes then On(r)
    else if r.pos + signed < 0 then Over(r)
    else On(r.(pos := r.pos + signed))
  }

  /** The sound; of an unknown length it is played at once, to the end of the file. */
  function CafData(r: CafReader): (c: Course)
    requires r.Valid()
    ensures c.On? || c.Over? ==> c.reader.Valid()
  {
    if r.ssnd then Refuse(E_DECODE)
    else
      var found := r.(location := (r.curSize + 4) % U64, length := (r.chunkSize - 4) % U64, ssnd := true);
      if BeValue(r.buf[4..12]) == U64_MAX then PlayNow(found.(length := (r.totalSize - found.location) % U64))
      else CafSkip(found, r.chunkSize)
  }

  /** One pass over the loop; of a chunk that is not handled, the `l` bytes of its header that were in the
      buffer count as read. */
  function CafVisit(file: seq<byte>, r: CafReader, l: nat): (c: Course)
    requires r.Valid()
    ensures c.On? || c.Over? ==> c.reader.Valid()
    ensures !c.Tired?
  {
    if r.chunkId == ID_DESC && r.chunkSize >= 32 then
      var n := Min(r.chunkSize, P_READBUF_SIZE);
      var bytes := Available(file, r.pos, n);
      var read := r.(pos := r.pos + |bytes|, buf := Into(r.buf, bytes),
                     cpos := if |bytes| < n then r.cpos else r.cpos + n);
      if |bytes| < n then Over(read)
      else
        var d := CafDescription(read.buf[..32]);
        if d.Undescribed? then Refuse(d.code) else CafSkip(read.(description := Some(d)), n)
    else if r.chunkId == ID_DATA && r.chunkSize >= 4 then CafData(r)
    else CafSkip(r, l)
  }

  function CafWalk(file: seq<byte>, r: CafReader, l: nat, fuel: nat): (c: Course)
    requires r.Valid() && l <= 12
    decreases fuel
  {
    var it := CafIterate(file, r, l, fuel);
    if !it.On? then it
    else
      var v := CafVisit(file, it.reader, l);
      if v.On? then CafWalk(file, v.reader, 0, fuel - 1) else v
  }

  /** What is played: without a description, 16-bit sound as the player assumes. */
  function CafPlays(r: CafReader): Outcome {
    match r.description
    case Some(Described(format, channels, speed)) => Plays(format, channels, speed, r.length, r.location)
    case _ => Plays(AFMT_S16_LE, 1, 11025, r.length, r.location)
  }

  datatype CafOutcome = Ends(outcome: Outcome) | Unfinished

  function PlayCaf(file: seq<byte>, buf: seq<byte>, fuel: nat): CafOutcome
    requires |buf| == P_READBUF_SIZE
  {
    CafConclude(CafWalk(file, CafInit(file, buf), 4, fuel))
  }

  /** What is played when the walk ends so. */
  function CafConclude(c: Course): CafOutcome {
    match c
    case Refuse(code) => Ends(Fails(code))
    case PlayNow(r) => Ends(CafPlays(r))
    case Over(r) => Ends(if r.description.None? || !r.ssnd then Fails(E_DECODE) else CafPlays(r))
    case _ => Unfinished
  }

  // ---------------------------------------------------------------- recorded files

  /** A recorded CAF file: header and data. */
  ghost predicate CafLaidOut(file: seq<byte>, n: nat, h: CafHeader)
    requires |h.rate| == 8
  {
    && |file| == CAF_HEAD + n && file[8..12] == Be(ID_DESC, 4) && file[12..20] == Be(32, 8)
    && file[20..52] == DescBody(h.rate, h.code, h.flags, h.packet, h.channels, h.bits)
    && file[52..56] == Be(ID_DATA, 4) && file[56..64] == Be(h.length, 8)
  }

  lemma CafIsLaidOut(file: seq<byte>, h: CafHeader, data: seq<byte>)
    requires |h.rate| == 8 && |file| == CAF_HEAD + |data| && file[..CAF_HEAD] == h.Packed()
    ensures CafLaidOut(file, |data|, h)
  {
    var p := h.Packed();
    CafParts(h, p);
    assert forall i, j | 0 <= i <= j <= 68 :: file[i..j] == p[i..j];
  }

  lemma Long(x: nat)
    requires x < U64
    ensures BeValue(Be(x, 8)) == x
  {
    assert Pow256(8) == U64;
    BeRoundTrip(x, 8);
  }

  lemma CafNumbers(file: seq<byte>, n: nat, h: CafHeader)
    requires |h.rate| == 8 && CafLaidOut(file, n, h) && h.length < U64
    ensures BeValue(file[8..12]) == ID_DESC && BeValue(file[12..20]) == 32
    ensures BeValue(file[52..56]) == ID_DATA && BeValue(file[56..64]) == h.length
  {
    Numbers(ID_DESC);
    Long(32);
    Numbers(ID_DATA);
    Long(h.length);
  }

  /** The first chunk, whose header began in the first twelve bytes. */
  /** The header of a chunk that is not empty. */
  lemma HeaderIterated(file: seq<byte>, r: CafReader, l: nat, fuel: nat, buf: seq<byte>, id: nat, size: nat)
    returns (r1: CafReader)
    requires r.Valid() && l <= 12 && fuel > 0 && r.pos + 12 - l <= |file| && r.futSize + 12 - l < r.totalSize < U64
    requires buf == r.buf[..l] + file[r.pos..r.pos + 12 - l] + r.buf[12..] && r.pos < |file|
    requires BeValue(buf[..4]) == id && BeValue(buf[4..12]) == size && 0 < size
    ensures CafIterate(file, r, l, fuel) == On(r1) && r1.Valid()
    ensures r1 == r.(pos := r.pos + 12 - l, curSize := r.futSize + 12 - l, cpos := 0, buf := buf, chunkId := id,
                     chunkSize := size, futSize := (r.futSize + size + 12 - l) % U64)
  {
    assert (r.futSize + 12 - l) % U64 == r.futSize + 12 - l;
    assert Available(file, r.pos, 12 - l) == file[r.pos..r.pos + 12 - l];
    r1 := CafIterate(file, r, l, fuel).reader;
  }

  lemma DescIterated(file: seq<byte>, r: CafReader, fuel: nat) returns (r1: CafReader)
    requires r.Valid() && fuel > 0 && r.pos == 12 && r.futSize == 12
    requires r.totalSize == |file| < U64 && |file| >= CAF_HEAD
    requires BeValue(r.buf[..4]) == ID_DESC && BeValue(file[12..20]) == 32
    ensures CafIterate(file, r, 4, fuel) == On(r1) && r1.Valid()
    ensures r1.chunkId == ID_DESC && r1.chunkSize == 32
    ensures r1.pos == r1.curSize == 20 && r1.cpos == 0 && r1.futSize == 52
    ensures r1.totalSize == r.totalSize && r1.ssnd == r.ssnd
  {
    var bytes := file[12..20];
    var buf := r.buf[..4] + bytes + r.buf[12..];
    assert buf[..4] == r.buf[..4] && buf[4..12] == bytes;
    r1 := HeaderIterated(file, r, 4, fuel, buf, ID_DESC, 32);
  }

  lemma DescVisited(file: seq<byte>, r: CafReader, d: Description) returns (r2: CafReader)
    requires r.Valid() && r.chunkId == ID_DESC && r.chunkSize == 32
    requires r.pos == r.curSize == 20 && r.cpos == 0 && r.futSize == 52
    requires 52 < r.totalSize == |file| && CafDescription(file[20..52]) == d && d.Described?
    ensures CafVisit(file, r, 4) == On(r2) && r2.Valid()
    ensures r2.pos == r2.futSize == 52 && r2.description == Some(d) && r2.totalSize == r.totalSize && r2.ssnd == r.ssnd
  {
    var bytes := Available(file, 20, 32);
    assert Into(r.buf, bytes)[..32] == bytes == file[20..52];
    r2 := CafVisit(file, r, 4).reader;
  }

  lemma DataIterated(file: seq<byte>, r: CafReader, fuel: nat, length: nat) returns (r1: CafReader)
    requires r.Valid() && fuel > 0 && r.pos == r.futSize == 52 && r.totalSize == |file| < U64 && |file| >= CAF_HEAD
    requires BeValue(file[52..56]) == ID_DATA && 0 < BeValue(file[56..64]) == length < U64
    ensures CafIterate(file, r, 0, fuel) == On(r1) && r1.Valid()
    ensures r1.chunkId == ID_DATA && r1.chunkSize == length == BeValue(r1.buf[4..12])
    ensures r1.pos == r1.curSize == 64 && r1.cpos == 0
    ensures r1.totalSize == r.totalSize && (length <= U32_MAX ==> r1.futSize == 64 + length)
    ensures r1.ssnd == r.ssnd && r1.description == r.description
  {
    var bytes := file[52..64];
    var buf := r.buf[..0] + bytes + r.buf[12..];
    assert buf[..4] == file[52..56] && buf[4..12] == file[56..64];
    r1 := HeaderIterated(file, r, 0, fuel, buf, ID_DATA, length);
  }

  /** A sound of unknown length is played at once. */
  lemma UnknownVisited(file: seq<byte>, r: CafReader, n: nat)
    requires r.Valid() && r.chunkId == ID_DATA && r.curSize == 64 && !r.ssnd
    requires r.totalSize == CAF_HEAD + n < U64 && r.chunkSize == BeValue(r.buf[4..12]) == U64_MAX
    ensures var v := CafVisit(file, r, 0);
      && v.PlayNow? && v.reader.ssnd && v.reader.description == r.description
      && v.reader.length == n && v.reader.location == CAF_HEAD
  {
  }

  /** Behind a sound of known length the walk goes on. */
  lemma KnownVisited(file: seq<byte>, r: CafReader, n: nat) returns (r2: CafReader)
    requires r.Valid() && r.chunkId == ID_DATA && r.pos == r.curSize == 64 && r.cpos == 0 && !r.ssnd
    requires 0 < n <= U32_MAX && r.chunkSize == BeValue(r.buf[4..12]) == n && r.futSize == 64 + n
    ensures CafVisit(file, r, 0) == On(r2) && r2.Valid()
    ensures r2.description == r.description && r2.totalSize == r.totalSize
    ensures r2.futSize == r.futSize && r2.ssnd == (n >= 4) && (n >= 4 ==> r2.length == n - 4 && r2.location == CAF_HEAD)
  {
    var found := r.(location := 68, length := (n - 4) % U64, ssnd := true);
    var from := if n >= 4 then found else r;
    assert (from.futSize - from.curSize - from.cpos) % U64 == n;
    r2 := CafSkip(from, if n >= 4 then n else 0).reader;
  }

  /** The end of the file ends the walk. */
  lemma CafIterationEnds(file: seq<byte>, r: CafReader, fuel: nat)
    requires r.Valid() && fuel > 0 && r.futSize + 12 < U64 && r.futSize + 12 >= r.totalSize
    ensures CafIterate(file, r, 0, fuel) == Over(r.(curSize := r.futSize + 12))
  {
    assert (r.futSize + 12 - 0) % U64 == r.futSize + 12;
  }

  lemma CafEnds(file: seq<byte>, r: CafReader, fuel: nat)
    requires r.Valid() && fuel > 0 && r.futSize + 12 < U64 && r.futSize + 12 >= r.totalSize
    ensures CafWalk(file, r, 0, fuel) == Over(r.(curSize := r.futSize + 12))
  {
    CafIterationEnds(file, r, fuel);
  }

  lemma CafWalkOn(file: seq<byte>, r: CafReader, l: nat, fuel: nat, r1: CafReader)
    requires r.Valid() && r1.Valid() && l <= 12 && fuel > 0 && CafIterate(file, r, l, fuel) == On(r1)
    ensures CafWalk(file, r, l, fuel) ==
      var v := CafVisit(file, r1, l); if v.On? then CafWalk(file, v.reader, 0, fuel - 1) else v
  {
  }

  /** The length of sound the player finds: all of an unknown length, four bytes less of a known one. */
  function CafLength(n: nat): int {
    if n == 0 || n > U32_MAX then n else n - 4
  }

  /** The end of a walk over `n` bytes of sound. */
  ghost predicate Found(c: Course, n: nat, description: Option<Description>) {
    && (c.Over? || (c.PlayNow? && c.reader.ssnd)) && c.reader.description == description
    && c.reader.ssnd == (CafLength(n) >= 0)
    && (c.reader.ssnd ==> c.reader.length == CafLength(n) && c.reader.location == CAF_HEAD)
  }

  lemma CafBegun(file: seq<byte>, buf: seq<byte>) returns (r: CafReader)
    requires |buf| == P_READBUF_SIZE && |file| >= 12 && |file| < U64 && buf[..12] == file[..12]
    ensures r == CafInit(file, buf) && r.Valid() && r.buf[..4] == file[8..12]
    ensures r.pos == r.futSize == 12 && r.totalSize == |file| && !r.ssnd && r.description == None
  {
    r := CafInit(file, buf);
    assert r.buf[..4] == buf[8..12] == buf[..12][8..12] == file[8..12];
  }

  /** Past the description. */
  lemma DescPassed(file: seq<byte>, buf: seq<byte>, d: Description, fuel: nat) returns (r2: CafReader)
    requires |buf| == P_READBUF_SIZE && CAF_HEAD <= |file| < U64 && buf[..12] == file[..12] && fuel > 0
    requires BeValue(file[8..12]) == ID_DESC && BeValue(file[12..20]) == 32
    requires CafDescription(file[20..52]) == d && d.Described?
    ensures r2.Valid() && r2.pos == r2.futSize == 52 && r2.description == Some(d) && r2.totalSize == |file| && !r2.ssnd
    ensures PlayCaf(file, buf, fuel) == CafConclude(CafWalk(file, r2, 0, fuel - 1))
  {
    var r := CafBegun(file, buf);
    var r1 := DescIterated(file, r, fuel);
    r2 := DescVisited(file, r1, d);
    CafWalkOn(file, r, 4, fuel, r1);
  }

  lemma UnknownPassed(file: seq<byte>, r: CafReader, r1: CafReader, n: nat, fuel: nat)
    requires r.Valid() && r1.Valid() && fuel > 0 && CafIterate(file, r, 0, fuel) == On(r1)
    requires r1.chunkId == ID_DATA && r1.curSize == 64 && !r1.ssnd
    requires r1.totalSize == CAF_HEAD + n < U64 && r1.chunkSize == BeValue(r1.buf[4..12]) == U64_MAX
    requires n == 0 || n > U32_MAX
    ensures Found(CafWalk(file, r, 0, fuel), n, r1.description)
  {
    CafWalkOn(file, r, 0, fuel, r1);
    UnknownVisited(file, r1, n);
  }

  lemma KnownPassed(file: seq<byte>, r: CafReader, r1: CafReader, n: nat, fuel: nat)
    requires r.Valid() && r1.Valid() && fuel >= 2 && CafIterate(file, r, 0, fuel) == On(r1)
    requires r1.chunkId == ID_DATA && r1.pos == r1.curSize == 64
    requires r1.cpos == 0 && !r1.ssnd && r1.totalSize == CAF_HEAD + n
    requires 0 < n <= U32_MAX && r1.chunkSize == BeValue(r1.buf[4..12]) == n && r1.futSize == 64 + n
    ensures Found(CafWalk(file, r, 0, fuel), n, r1.description)
  {
    CafWalkOn(file, r, 0, fuel, r1);
    var r2 := KnownVisited(file, r1, n);
    CafEnds(file, r2, fuel - 1);
  }

  /** The outcome for a file with a description that can be read. */
  function CafHeard(n: nat, d: Description): CafOutcome
    requires d.Described?
  {
    Ends(if CafLength(n) < 0 then Fails(E_DECODE) else Plays(d.format, d.channels, d.speed, CafLength(n), CAF_HEAD))
  }

  lemma CafPlayed(c: Course, n: nat, d: Description)
    requires Found(c, n, Some(d)) && d.Described?
    ensures CafConclude(c) == CafHeard(n, d)
  {
  }

  /** From the header of the sound to the end. */
  lemma DataPassed(file: seq<byte>, r: CafReader, n: nat, length: nat, d: Description, fuel: nat)
    requires r.Valid() && fuel >= 2 && r.pos == r.futSize == 52 && r.description == Some(d) && d.Described?
    requires r.totalSize == |file| == CAF_HEAD + n < U64 && !r.ssnd
    requires BeValue(file[52..56]) == ID_DATA && BeValue(file[56..64]) == length
    requires length == if n == 0 || n > U32_MAX then U64_MAX else n
    ensures CafConclude(CafWalk(file, r, 0, fuel)) == CafHeard(n, d)
  {
    var r1 := DataIterated(file, r, fuel, length);
    if n == 0 || n > U32_MAX {
      UnknownPassed(file, r, r1, n, fuel);
    } else {
      KnownPassed(file, r, r1, n, fuel);
    }
    CafPlayed(CafWalk(file, r, 0, fuel), n, d);
  }

  /** The whole walk, and its outcome. */
  lemma CafFound(file: seq<byte>, buf: seq<byte>, n: nat, length: nat, d: Description, fuel: nat)
    requires |buf| == P_READBUF_SIZE && |file| == CAF_HEAD + n < U64 && fuel >= 3 && buf[..12] == file[..12]
    requires BeValue(file[8..12]) == ID_DESC && BeValue(file[12..20]) == 32
    requires CafDescription(file[20..52]) == d && d.Described?
    requires BeValue(file[52..56]) == ID_DATA && BeValue(file[56..64]) == length
    requires length == if n == 0 || n > U32_MAX then U64_MAX else n
    ensures PlayCaf(file, buf, fuel) == CafHeard(n, d)
  {
    var r := DescPassed(file, buf, d, fuel);
    DataPassed(file, r, n, length, d, fuel - 1);
  }

  /** CAF files keep format, number of channels and rate exactly when the rate is at least 2 and below
      131072 and the data are not one, two or three bytes long. */
  lemma CafFileRoundTrip(file: seq<byte>, buf: seq<byte>, data: seq<byte>, format: int, channels: int, speed: int,
                         fuel: nat)
    requires Rates(channels, speed) && |buf| == P_READBUF_SIZE
    requires fuel >= 3 && |file| < U64 && |data| + CAF_HEAD == |file|
    requires var w := HeadFor(CafFile, |data|, format, channels, speed);
      w.Head? && w.header.Valid() && file[..CAF_HEAD] == w.header.Packed() && buf[..12] == file[..12]
    ensures PlayCaf(file, buf, fuel) == Ends(Plays(format, channels, speed, CafLength(|data|), CAF_HEAD))
      <==> 2 <= speed < 131072 && !(1 <= |data| <= 3)
  {
    var h := CafHead(|data|, format, channels, speed);
    CafIsLaidOut(file, h, data);
    CafRateRoundTrip(speed);
    CafRead(file[20..52], h, format);
    var d := CafDescription(file[20..52]);
    CafNumbers(file, |data|, h);
    CafFound(file, buf, |data|, h.length, d, fuel);
  }
}
