/** A file written as a list of chunks, and the walk over it. */
module ChunkList {
  import opened Bytes
  import opened SampleRate
  import opened ChunkWalker

  datatype Chunk = Chunk(id: nat, data: seq<byte>) {
    predicate Valid() {
      id < U32 && 0 < |data| < U32
    }
  }

  function Number4(kind: Kind, x: nat): (r: seq<byte>)
    ensures |r| == 4
  {
    if kind == Wave then Le(x, 4) else Be(x, 4)
  }

  lemma Number4RoundTrip(kind: Kind, x: nat)
    requires x < U32
    ensures Number(kind, Number4(kind, x)) == x && BeValue(Be(x, 4)) == x
  {
    assert Pow256(4) == U32;
    LeRoundTrip(x, 4);
    BeRoundTrip(x, 4);
  }

  /** A chunk on file: identifier, size, data, and a byte of padding after an odd number of them. */
  function ChunkBytes(kind: Kind, c: Chunk): (r: seq<byte>)
    ensures |r| == 8 + |c.data| + |c.data| % 2
  {
    Be(c.id, 4) + Number4(kind, |c.data|) + c.data + if |c.data| % 2 == 1 then [0] else []
  }

  function Serial(kind: Kind, chunks: seq<Chunk>): seq<byte> {
    if chunks == [] then [] else ChunkBytes(kind, chunks[0]) + Serial(kind, chunks[1..])
  }

  /** The headers of a list of chunks that starts at offset `at`. */
  function HeadersOf(chunks: seq<Chunk>, at: nat): (r: seq<Header>)
    ensures |r| == |chunks|
  {
    if chunks == [] then []
    else
      var size := |chunks[0].data|;
      [Header(at, at, false, chunks[0].id, size)] + HeadersOf(chunks[1..], at + 8 + size + size % 2)
  }

  /** `file` continues with these chunks at offset `at`, up to its end. */
  ghost predicate Continues(kind: Kind, file: seq<byte>, at: nat, chunks: seq<Chunk>) {
    at <= |file| && file[at..] == Serial(kind, chunks) && forall c :: c in chunks ==> c.Valid()
  }

  lemma ContinuesRest(kind: Kind, file: seq<byte>, at: nat, chunks: seq<Chunk>)
    requires Continues(kind, file, at, chunks) && chunks != []
    ensures var size := |chunks[0].data|;
      Continues(kind, file, at + 8 + size + size % 2, chunks[1..])
  {
    var next := at + |ChunkBytes(kind, chunks[0])|;
    assert file[next..] == file[at..][|ChunkBytes(kind, chunks[0])|..];
  }

  /** The eight bytes at the start of a chunk. */
  lemma HeaderBytes(kind: Kind, file: seq<byte>, at: nat, chunks: seq<Chunk>)
    requires Continues(kind, file, at, chunks) && chunks != []
    ensures var c := chunks[0];
      && c.Valid() && at + 8 + |c.data| <= |file|
      && BeValue(Available(file, at, 8)[..4]) == c.id && Number(kind, Available(file, at, 8)[4..8]) == |c.data|
  {
    var c := chunks[0];
    var bytes := ChunkBytes(kind, c);
    assert c in chunks;
    Number4RoundTrip(kind, |c.data|);
    Number4RoundTrip(kind, c.id);
    assert bytes <= file[at..];
    assert file[at..at + 8] == file[at..][..8] == bytes[..8];
    assert bytes[..8][..4] == Be(c.id, 4) && bytes[..8][4..8] == Number4(kind, |c.data|);
  }

  /** The iterator delivers the first chunk of the list. */
  lemma IterateChunk(file: seq<byte>, r: Reader, chunks: seq<Chunk>)
    requires r.Valid() && r.pos == r.futSize && r.totalSize == |file| && chunks != []
    requires Continues(r.kind, file, r.pos, chunks)
    ensures var size := |chunks[0].data|; var it := Iterate(file, r);
      && it.More? && it.reader == ReadHeader(file, r)
      && it.reader.chunkId == chunks[0].id && it.reader.chunkSize == size
      && it.reader.pos == it.reader.curSize == r.pos + 8 && it.reader.futSize == r.pos + 8 + size + size % 2
      && it.reader.headers == r.headers + [Header(r.pos, r.pos, false, chunks[0].id, size)]
  {
    HeaderBytes(r.kind, file, r.pos, chunks);
  }

  /** With all its data in the file, a chunk is read, and the walk goes on behind it or its handler ends it. */
  lemma VisitChunk(file: seq<byte>, r: Reader)
    requires r.Valid() && r.cpos == 0 && r.pos == r.curSize && r.pos + r.chunkSize <= |file| && r.totalSize == |file|
    requires r.futSize == r.curSize + r.chunkSize + r.chunkSize % 2 <= |file|
    ensures var v := Visit(file, r);
      && v.reader.headers == r.headers && v.reader.kind == r.kind
      && (v.More? ==> v.reader.futSize == r.futSize && (v.reader.pos == r.futSize || r.futSize == |file|))
      && (v.Done? ==> v.stop.Refused?)
  {
    var e := Lookup(r.kind, r.chunkId);
    if e.Entry? && r.chunkSize >= e.minSize && e.mode != ReadNone {
      assert ReadLength(e, r.chunkSize) <= r.chunkSize;
    }
  }

  /** One pass over the loop: the first chunk is visited, and the walk stands before the others. */
  lemma StepOverChunk(file: seq<byte>, r: Reader, chunks: seq<Chunk>)
    requires r.Valid() && r.totalSize == |file| && Continues(r.kind, file, r.futSize, chunks) && chunks != []
    requires r.pos == r.futSize || r.futSize == |file|
    ensures Iterate(file, r).More?
    ensures var v := Visit(file, Iterate(file, r).reader); var size := |chunks[0].data|;
      && v.reader.headers == r.headers + [Header(r.futSize, r.futSize, false, chunks[0].id, size)]
      && v.reader.kind == r.kind
      && (v.Done? ==> v.stop.Refused?)
      && (v.More? ==> v.reader.futSize == r.futSize + 8 + size + size % 2)
      && (v.More? ==> Continues(r.kind, file, v.reader.futSize, chunks[1..]))
      && (v.More? ==> v.reader.pos == v.reader.futSize || v.reader.futSize == |file|)
  {
    HeaderBytes(r.kind, file, r.futSize, chunks);
    IterateChunk(file, r, chunks);
    ContinuesRest(r.kind, file, r.pos, chunks);
    VisitChunk(file, Iterate(file, r).reader);
  }

  lemma WalkUnfolds(file: seq<byte>, r: Reader)
    requires r.Valid() && Iterate(file, r).More?
    ensures var v := Visit(file, Iterate(file, r).reader);
      Walk(file, r) == if v.Done? then v else Walk(file, v.reader)
  {
  }

  /** Behind the headers in `before`, `all` goes on with those of `expected`, or with the first of them. */
  predicate Visited(before: seq<Header>, expected: seq<Header>, all: seq<Header>, whole: bool) {
    && before <= all && all[|before|..] <= expected
    && (whole ==> all[|before|..] == expected)
  }

  lemma VisitedBehind(before: seq<Header>, header: Header, expected: seq<Header>, all: seq<Header>, whole: bool)
    requires Visited(before + [header], expected, all, whole)
    ensures Visited(before, [header] + expected, all, whole)
  {
    assert all[|before|] == header;
    assert all[|before|..] == [header] + all[|before| + 1..];
  }

  ghost predicate WalkVisits(file: seq<byte>, r: Reader, chunks: seq<Chunk>)
    requires r.Valid()
  {
    var d := Walk(file, r);
    && (d.stop.Exhausted? || d.stop.Refused?)
    && Visited(r.headers, HeadersOf(chunks, r.futSize), d.reader.headers, d.stop.Exhausted?)
  }

  /** The first chunk, handled as `v`, before the others; `d` is the whole walk. */
  lemma VisitedFirst(before: seq<Header>, header: Header, rest: seq<Header>, v: Iteration, d: Iteration)
    requires d.Done? && v.reader.headers == before + [header] && (v.Done? ==> d == v && d.stop.Refused?)
    requires v.More? ==> Visited(v.reader.headers, rest, d.reader.headers, d.stop.Exhausted?)
    ensures Visited(before, [header] + rest, d.reader.headers, d.stop.Exhausted?)
  {
    if v.Done? {
      assert d.reader.headers[|before| + 1..] == [];
    }
    VisitedBehind(before, header, rest, d.reader.headers, d.stop.Exhausted?);
  }

  /** The walk after one pass over the loop. */
  lemma WalkStep(file: seq<byte>, r: Reader, chunks: seq<Chunk>) returns (v: Iteration, header: Header)
    requires r.Valid() && r.totalSize == |file| && Continues(r.kind, file, r.futSize, chunks) && chunks != []
    requires r.pos == r.futSize || r.futSize == |file|
    ensures v.reader.Valid() && Walk(file, r) == if v.Done? then v else Walk(file, v.reader)
    ensures v.reader.headers == r.headers + [header] && (v.Done? ==> v.stop.Refused?)
    ensures HeadersOf(chunks, r.futSize) == [header] + HeadersOf(chunks, r.futSize)[1..]
    ensures v.More? ==> v.reader.kind == r.kind && v.reader.totalSize == r.totalSize
    ensures v.More? ==> HeadersOf(chunks, r.futSize)[1..] == HeadersOf(chunks[1..], v.reader.futSize)
    ensures v.More? ==> Continues(r.kind, file, v.reader.futSize, chunks[1..])
    ensures v.More? ==> v.reader.pos == v.reader.futSize || v.reader.futSize == |file|
  {
    StepOverChunk(file, r, chunks);
    WalkUnfolds(file, r);
    v := Visit(file, Iterate(file, r).reader);
    header := Header(r.futSize, r.futSize, false, chunks[0].id, |chunks[0].data|);
  }

  /** On a file that is a list of non-empty chunks the walk visits the chunks in order: all of them,
      or as many as it takes until a handler refuses one. Nothing else can end it. */
  lemma {:induction false} WalkVisitsChunks(file: seq<byte>, r: Reader, chunks: seq<Chunk>)
    requires r.Valid() && r.totalSize == |file| && Continues(r.kind, file, r.futSize, chunks)
    requires r.pos == r.futSize || r.futSize == |file|
    ensures WalkVisits(file, r, chunks)
    decreases |chunks|
  {
    if chunks == [] {
      assert r.futSize == |file|;
      assert r.headers[|r.headers|..] == [];
    } else {
      var v, header := WalkStep(file, r, chunks);
      if v.More? {
        WalkVisitsChunks(file, v.reader, chunks[1..]);
      }
      VisitedFirst(r.headers, header, HeadersOf(chunks, r.futSize)[1..], v, Walk(file, r));
    }
  }

  /** A complete file: the form header with the size of what follows it, and the chunks. */
  function FormFile(kind: Kind, form: seq<byte>, kindName: seq<byte>, chunks: seq<Chunk>): seq<byte> {
    form + Number4(kind, 4 + |Serial(kind, chunks)|) + kindName + Serial(kind, chunks)
  }

  /** The whole walk over such a file, from the form header on. */
  lemma FormFileVisited(kind: Kind, form: seq<byte>, kindName: seq<byte>, chunks: seq<Chunk>, buf: seq<byte>,
                        statOk: bool)
    requires |form| == |kindName| == 4 && |Serial(kind, chunks)| + 12 < U32 && forall c :: c in chunks ==> c.Valid()
    requires |buf| == P_READBUF_SIZE && buf[..12] == FormFile(kind, form, kindName, chunks)[..12]
    ensures var d := Walk(FormFile(kind, form, kindName, chunks),
                          InitReader(kind, FormFile(kind, form, kindName, chunks), buf, statOk));
      && (d.stop.Exhausted? || d.stop.Refused?)
      && d.reader.headers <= HeadersOf(chunks, 12)
      && (d.stop.Exhausted? ==> d.reader.headers == HeadersOf(chunks, 12))
  {
    var file := FormFile(kind, form, kindName, chunks);
    var size := 4 + |Serial(kind, chunks)|;
    Number4RoundTrip(kind, size);
    assert buf[4..8] == buf[..12][4..8] == file[..12][4..8] == Number4(kind, size);
    var r := InitReader(kind, file, buf, statOk);
    assert file[12..] == Serial(kind, chunks);
    WalkVisitsChunks(file, r, chunks);
    var d := Walk(file, r);
    assert d.reader.headers[0..] == d.reader.headers;
  }
}
