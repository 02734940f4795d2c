/** The decoder of Microsoft's IMA ADPCM blocks, with four or three bits a sample. */
module MsIma {
  import opened Bytes
  import opened Adpcm
  import opened Weave
  import opened Rounds
  import opened ImaDecoder
  import opened ImaBlocks

  /** The samples there is room for, by the size of a block in bytes. */
  function OutSize(layout: Layout, bsize: nat): nat {
    if layout.Four? then 2 * bsize else (bsize * 16 / 3 + 2) / 2
  }

  /** The last header that is read of a block of which `l` bytes are there. */
  function LastHeader(l: nat, c: nat): nat
    requires 0 < l && 0 < c
  {
    if (l - 1) / 4 < c - 1 then (l - 1) / 4 else c - 1
  }

  /** Headers are read, three bytes of each, as long as the bytes that are there have not been passed. */
  predicate HeaderWanted(l: nat, c: nat, ch: nat) {
    ch < c && 4 * ch < l
  }

  /** The headers are read inside the block, whose size the file dictates, exactly when the last of them ends
      in it; of a block read in full, exactly when it ends behind a word or a byte before, or reaches behind
      the third byte of the last header. */
  lemma HeadersInside(bsize: nat, l: nat, c: nat)
    requires 0 < c && l <= bsize
    ensures (forall ch: nat :: HeaderWanted(l, c, ch) ==> 4 * ch + 3 <= bsize)
      <==> l == 0 || 4 * LastHeader(l, c) + 3 <= bsize
    ensures l == bsize ==>
      ((l == 0 || 4 * LastHeader(l, c) + 3 <= bsize) <==> bsize % 4 == 0 || bsize % 4 == 3 || bsize + 1 >= 4 * c)
  {
    if l > 0 {
      assert HeaderWanted(l, c, LastHeader(l, c));
    }
  }

  /** A stereo block of five bytes: its second header is read from outside. */
  lemma HeaderOutside()
    ensures HeaderWanted(5, 2, 1) && 4 * 1 + 3 > 5
  {
  }

  // ---------------------------------------------------------------- headers

  method ReadMsHeader(buf: seq<byte>, len: nat, ghost ch: nat) returns (s: State, ghost far: nat)
    requires len == 4 * ch && len + 2 < |buf|
    ensures s == MsHeader(buf, ch) && far == len + 3
  {
    var word := LeInt(buf[len..], 2);
    assert buf[len..][..2] == buf[4 * ch..4 * ch + 2];
    var index: int := if buf[len + 2] >= 128 then buf[len + 2] as int - 256 else buf[len + 2] as int;
    if index > 88 {
      index := 88;
    }
    if index < 0 {
      index := 0;
    }
    s, far := State(Int16(word), index), len + 3;
  }

  /** The first `i` channels have their first sample. */
  ghost predicate Begun(out: seq<int>, buf: seq<byte>, c: nat, i: nat, done: seq<seq<int>>) {
    Filled(out, c, done) && forall ch: nat :: ch < c ==> done[ch] == if ch < i then [MsHeader(buf, ch).pred] else []
  }

  lemma BegunMore(before: seq<int>, out: seq<int>, buf: seq<byte>, c: nat, i: nat, done: seq<seq<int>>)
    returns (done': seq<seq<int>>)
    requires Begun(before, buf, c, i, done) && i < c && i < |before| && out == before[i := MsHeader(buf, i).pred]
    ensures Begun(out, buf, c, i + 1, done')
  {
    var part := [MsHeader(buf, i).pred];
    assert done[i] == [] && Slot(c, 0, i) == i;
    assert part[..0] == [];
    assert Woven(before, i, c, part) == Woven(before, i, c, part[..0])[i := part[0]];
    done' := done[i := done[i] + part];
    FilledMore(before, c, i, done, part, out, done');
  }

  /** The headers of the channels; the first samples are played. The bytes below `far` are read. */
  method MsHeaders(out: array<int>, buf: seq<byte>, l: nat, c: nat)
    returns (i: nat, states: seq<State>, ghost far: nat, ghost done: seq<seq<int>>)
    requires c > 0 && l + 2 <= |buf| && l <= 4 * out.Length
    modifies out
    ensures i == |states| <= c && (i < c ==> 4 * i >= l) && (i > 0 ==> 4 * (i - 1) < l)
    ensures far == if l == 0 then 0 else 4 * LastHeader(l, c) + 3
    ensures (forall ch: nat :: ch < i ==> states[ch] == MsHeader(buf, ch)) && Begun(out[..], buf, c, i, done)
  {
    i, states, far, done := 0, [], 0, seq(c, _ => []);
    var len := 0;
    while i < c
      invariant len == 4 * i && i == |states| <= c && (i > 0 ==> 4 * (i - 1) < l)
      invariant far == if i == 0 then 0 else 4 * (i - 1) + 3
      invariant forall ch: nat :: ch < i ==> states[ch] == MsHeader(buf, ch)
      invariant Begun(out[..], buf, c, i, done)
    {
      if len >= l {
        return;
      }
      var s;
      s, far := ReadMsHeader(buf, len, i);
      ghost var before := out[..];
      out[i] := s.pred;
      done := BegunMore(before, out[..], buf, c, i, done);
      states := states + [s];
      i, len := i + 1, len + 4;
    }
  }

  // ---------------------------------------------------------------- rounds

  /** The state of every channel in round `k`, before channel `i`. */
  ghost predicate StatesAt(layout: Layout, buf: seq<byte>, c: nat, k: nat, i: nat, states: seq<State>) {
    |states| == c && forall ch: nat :: ch < c ==> states[ch] == MsState(layout, buf, c, ch, if ch < i then k + 1 else k)
  }

  /** Room for one part more. */
  lemma MsRoom(layout: Layout, c: nat, k: nat, i: nat, bsize: nat)
    requires i < c && 4 * c + layout.Bytes() * Mul(c, k) + (if layout.Four? then 4 * i + 4 else 12 * c) <= bsize
    ensures Slot(c, 1 + layout.Size() * k, i) + Mul(c, layout.Size() - 1) < OutSize(layout, bsize)
  {
    var size := layout.Size();
    MulSum(c, 1 + size * k, size - 1);
    assert 1 + size * k + (size - 1) == size * (k + 1) by {
      if layout.Four? {
      }
    }
    MulScale(c, size, k + 1);
  }

  /** The codes of a part, and the samples in their places. */
  lemma MsWritten(layout: Layout, before: seq<int>, first: nat, buf: seq<byte>, c: nat, ch: nat, k: nat,
                  codes: seq<int>)
    requires codes == RoundCodes(layout, buf, c, ch, k) && |codes| == layout.Size()
    requires first + Mul(c, layout.Size() - 1) < |before|
    ensures MsPlan(layout, buf, c).part(ch, k) == MsPart(layout, buf, c, ch, k)
    ensures |MsPart(layout, buf, c, ch, k)| == layout.Size()
    ensures Written(layout.Codec(), before, first, c, MsState(layout, buf, c, ch, k), codes)
      == Woven(before, first, c, MsPart(layout, buf, c, ch, k))
    ensures MsState(layout, buf, c, ch, k + 1) == After(layout.Codec(), MsState(layout, buf, c, ch, k), codes)
  {
  }

  lemma StatesMore(layout: Layout, buf: seq<byte>, c: nat, k: nat, i: nat, states: seq<State>, r: State)
    requires StatesAt(layout, buf, c, k, i, states) && i < c && r == MsState(layout, buf, c, i, k + 1)
    ensures StatesAt(layout, buf, c, k, i + 1, states[i := r])
  {
  }

  /** A part has been decoded into its places. */
  lemma PartPlayed(layout: Layout, out: seq<int>, before: seq<int>, buf: seq<byte>, c: nat, k: nat, i: nat, first: nat,
                   states: seq<State>, done: seq<seq<int>>, codes: seq<int>, r: State) returns (done': seq<seq<int>>)
    requires i < c && StatesAt(layout, buf, c, k, i, states) && Progress(MsPlan(layout, buf, c), before, c, k, i, done)
    requires codes == RoundCodes(layout, buf, c, i, k) && |codes| == layout.Size()
    requires first == Slot(c, 1 + layout.Size() * k, i) && first + Mul(c, layout.Size() - 1) < |before|
    requires Decoded(layout.Codec(), out, first, c, before, states[i], codes, r)
    ensures StatesAt(layout, buf, c, k, i + 1, states[i := r])
    ensures Progress(MsPlan(layout, buf, c), out, c, k, i + 1, done')
  {
    MsWritten(layout, before, first, buf, c, i, k, codes);
    done' := PartDone(MsPlan(layout, buf, c), out, before, c, k, i, done, MsPart(layout, buf, c, i, k));
    StatesMore(layout, buf, c, k, i, states, r);
  }

  lemma FourCodes(buf: seq<byte>, c: nat, i: nat, k: nat, len: nat)
    requires len == 4 * c + 4 * (Mul(c, k) + i) && len + 4 <= |buf|
    ensures Codes(Ima4, buf[len..len + 4]) == RoundCodes(Four, buf, c, i, k) && |Codes(Ima4, buf[len..len + 4])| == 8
  {
    CodesLength(Ima4, buf[len..len + 4]);
  }

  /** Four bytes of one channel. */
  method FourOne(out: array<int>, buf: seq<byte>, bsize: nat, c: nat, k: nat, i: nat, len: nat, olen: nat,
                 states: seq<State>, ghost done: seq<seq<int>>)
    returns (states': seq<State>, ghost done': seq<seq<int>>)
    requires i < c && StatesAt(Four, buf, c, k, i, states) && Progress(MsPlan(Four, buf, c), out[..], c, k, i, done)
    requires len == 4 * c + 4 * (Mul(c, k) + i) && len + 4 <= bsize <= |buf|
    requires out.Length == OutSize(Four, bsize) && olen == Mul(c, 1 + 8 * k)
    modifies out
    ensures StatesAt(Four, buf, c, k, i + 1, states') && Progress(MsPlan(Four, buf, c), out[..], c, k, i + 1, done')
  {
    MsRoom(Four, c, k, i, bsize);
    ghost var before, codes := out[..], RoundCodes(Four, buf, c, i, k);
    FourCodes(buf, c, i, k, len);
    var r := DecodeIma(out, olen + i, buf[len..len + 4], states[i], c);
    done' := PartPlayed(Four, out[..], before, buf, c, k, i, olen + i, states, done, codes, r);
    states' := states[i := r];
  }

  /** Four bytes of every channel, as far as there are. */
  method FourRound(out: array<int>, buf: seq<byte>, bsize: nat, l: nat, c: nat, k: nat, start: nat, olen: nat,
                   states0: seq<State>, ghost done0: seq<seq<int>>)
    returns (len: nat, complete: bool, ghost i: nat, states: seq<State>, ghost done: seq<seq<int>>)
    requires StatesAt(Four, buf, c, k, 0, states0) && Progress(MsPlan(Four, buf, c), out[..], c, k, 0, done0)
    requires start == 4 * c + 4 * Mul(c, k) < l <= bsize <= |buf|
    requires out.Length == OutSize(Four, bsize) && olen == Mul(c, 1 + 8 * k)
    modifies out
    ensures StatesAt(Four, buf, c, k, i, states) && Progress(MsPlan(Four, buf, c), out[..], c, k, i, done)
    ensures len == 4 * c + 4 * (Mul(c, k) + i) <= l && if complete then i == c else i < c && len + 4 > l
  {
    len, i, states, done := start, 0, states0, done0;
    for j := 0 to c
      invariant i == j && len == 4 * c + 4 * (Mul(c, k) + j) <= l
      invariant StatesAt(Four, buf, c, k, j, states) && Progress(MsPlan(Four, buf, c), out[..], c, k, j, done)
    {
      if len + 4 > l {
        return len, false, i, states, done;
      }
      states, done := FourOne(out, buf, bsize, c, k, j, len, olen, states, done);
      len, i := len + 4, i + 1;
    }
    complete := true;
  }

  lemma GatheredAt(buf: seq<byte>, c: nat, len: nat, i: nat, j: nat)
    requires i < c && len + 12 * c <= |buf| && j < 12
    ensures var at := len + j % 4 + j / 4 * (c * 4) + i * 4; at < |buf| && Gathered(buf, c, len, i)[j] == buf[at]
  {
    var b := len + 4 * i;
    var words := [buf[b..b + 4], buf[b + 4 * c..b + 4 * c + 4], buf[b + 8 * c..b + 8 * c + 4]];
    if j < 4 {
      assert Gathered(buf, c, len, i)[j] == words[0][j];
    } else if j < 8 {
      assert j / 4 == 1 && Gathered(buf, c, len, i)[j] == words[1][j - 4];
    } else {
      assert j / 4 == 2 && Gathered(buf, c, len, i)[j] == words[2][j - 8];
    }
  }

  /** Twelve bytes of a channel, from three groups of words. */
  method Gather(buf: seq<byte>, c: nat, len: nat, i: nat) returns (rbuf: seq<byte>)
    requires i < c && len + 12 * c <= |buf|
    ensures rbuf == Gathered(buf, c, len, i)
  {
    rbuf := [];
    ghost var whole := Gathered(buf, c, len, i);
    for j := 0 to 12
      invariant rbuf == whole[..j]
    {
      GatheredAt(buf, c, len, i, j);
      rbuf := rbuf + [buf[len + j % 4 + j / 4 * (c * 4) + i * 4]];
      assert whole[..j + 1] == whole[..j] + [whole[j]];
    }
    assert whole[..12] == whole;
  }

  method ThreeDecode(out: array<int>, buf: seq<byte>, c: nat, ghost k: nat, i: nat, len: nat, first: nat, s: State)
    returns (r: State)
    requires i < c && len == 4 * c + 12 * Mul(c, k) && len + 12 * c <= |buf|
    requires InRange(Ima3, s) && first + Mul(c, 31) < out.Length
    modifies out
    ensures var codes := RoundCodes(Three, buf, c, i, k);
      |codes| == 32 && Decoded(Ima3, out[..], first, c, old(out[..]), s, codes, r)
  {
    var rbuf := Gather(buf, c, len, i);
    assert RoundCodes(Three, buf, c, i, k) == Codes3(rbuf, 4);
    r := DecodeIma3(out, first, rbuf, s, c);
  }

  method ThreeOne(out: array<int>, buf: seq<byte>, c: nat, k: nat, i: nat, len: nat, olen: nat,
                  states: seq<State>, ghost done: seq<seq<int>>)
    returns (states': seq<State>, ghost done': seq<seq<int>>)
    requires i < c && StatesAt(Three, buf, c, k, i, states) && Progress(MsPlan(Three, buf, c), out[..], c, k, i, done)
    requires len == 4 * c + 12 * Mul(c, k) && len + 12 * c <= |buf|
    requires olen == Mul(c, 1 + 32 * k) && Slot(c, 1 + 32 * k, i) + Mul(c, 31) < out.Length
    modifies out
    ensures StatesAt(Three, buf, c, k, i + 1, states') && Progress(MsPlan(Three, buf, c), out[..], c, k, i + 1, done')
  {
    var first := olen + i;
    assert first == Slot(c, 1 + 32 * k, i) && InRange(Ima3, states[i]);
    ghost var before, codes := out[..], RoundCodes(Three, buf, c, i, k);
    var r := ThreeDecode(out, buf, c, k, i, len, first, states[i]);
    done' := PartPlayed(Three, out[..], before, buf, c, k, i, first, states, done, codes, r);
    states' := states[i := r];
  }

  method ThreeRound(out: array<int>, buf: seq<byte>, bsize: nat, c: nat, k: nat, len: nat, olen: nat,
                    states0: seq<State>, ghost done0: seq<seq<int>>)
    returns (states: seq<State>, ghost done: seq<seq<int>>)
    requires StatesAt(Three, buf, c, k, 0, states0) && Progress(MsPlan(Three, buf, c), out[..], c, k, 0, done0)
    requires len == 4 * c + 12 * Mul(c, k) && len + 12 * c <= bsize <= |buf|
    requires out.Length == OutSize(Three, bsize) && olen == Mul(c, 1 + 32 * k)
    modifies out
    ensures StatesAt(Three, buf, c, k, c, states) && Progress(MsPlan(Three, buf, c), out[..], c, k, c, done)
  {
    states, done := states0, done0;
    for i := 0 to c
      invariant StatesAt(Three, buf, c, k, i, states) && Progress(MsPlan(Three, buf, c), out[..], c, k, i, done)
    {
      MsRoom(Three, c, k, i, bsize);
      states, done := ThreeOne(out, buf, c, k, i, len, olen, states, done);
    }
  }

  // ---------------------------------------------------------------- blocks

  /** Rounds that are complete. */
  function Complete(layout: Layout, l: nat, c: nat): nat
    requires c > 0
  {
    if l < 4 * c then 0 else TimeOf(c, (l - 4 * c) / layout.Bytes())
  }

  lemma CompleteIs(layout: Layout, l: nat, c: nat, k: nat, i: nat)
    requires i < c && (k > 0 ==> 4 * c + layout.Bytes() * Mul(c, k) <= l)
    requires l < 4 * c + layout.Bytes() * (Mul(c, k) + i + 1)
    ensures Complete(layout, l, c) == k
  {
    if l >= 4 * c {
      SlotSplits(c, k, (l - 4 * c) / layout.Bytes() - Mul(c, k));
    }
  }

  ghost predicate HeadPlayed(out: seq<int>, buf: seq<byte>, ch: nat) {
    ch < |out| && out[ch] == MsHeader(buf, ch).pred
  }

  /** What is decoded of a block of which `l` bytes are there. */
  ghost predicate BlockDecoded(layout: Layout, out: seq<int>, buf: seq<byte>, l: nat, c: nat, olen: nat)
    requires c > 0
  {
    if l <= 4 * (c - 1) then
      4 * olen >= l > 4 * (olen - 1) && forall ch: nat :: ch < olen ==> HeadPlayed(out, buf, ch)
    else
      var k := Complete(layout, l, c); var plan := MsPlan(layout, buf, c);
      olen == Mul(c, plan.Length(k)) && Tiled(out, c, plan.Length(k), plan.Streams(c, k))
  }

  lemma HeadersOnly(layout: Layout, out: seq<int>, buf: seq<byte>, l: nat, c: nat, i: nat, done: seq<seq<int>>)
    requires i < c && Begun(out, buf, c, i, done) && 4 * i >= l && (i > 0 ==> 4 * (i - 1) < l)
    ensures BlockDecoded(layout, out, buf, l, c, i)
  {
    forall ch: nat | ch < i ensures HeadPlayed(out, buf, ch) {
      assert Holds(out, c, ch, done[ch]) && Slot(c, 0, ch) == ch;
      assert out[Slot(c, 0, ch)] == done[ch][0];
    }
  }

  /** With all headers read, the rounds begin. */
  lemma RoundsBegin(layout: Layout, out: seq<int>, buf: seq<byte>, c: nat, states: seq<State>, done: seq<seq<int>>)
    requires |states| == c && (forall ch: nat :: ch < c ==> states[ch] == MsHeader(buf, ch))
    requires Begun(out, buf, c, c, done)
    ensures StatesAt(layout, buf, c, 0, 0, states) && Progress(MsPlan(layout, buf, c), out, c, 0, 0, done)
  {
  }

  /** The next round, if there is one. */
  lemma RoundEnds(layout: Layout, out: seq<int>, buf: seq<byte>, c: nat, k: nat, states: seq<State>,
                  done: seq<seq<int>>)
    requires StatesAt(layout, buf, c, k, c, states) && Progress(MsPlan(layout, buf, c), out, c, k, c, done)
    ensures StatesAt(layout, buf, c, k + 1, 0, states) && Progress(MsPlan(layout, buf, c), out, c, k + 1, 0, done)
    ensures Mul(c, 1 + layout.Size() * (k + 1)) == Mul(c, 1 + layout.Size() * k) + layout.Size() * c
  {
    RoundDone(MsPlan(layout, buf, c), out, c, k, done);
    var size := layout.Size();
    MulSum(c, 1 + size * k, size);
    MulIs(c, size);
    assert 1 + size * (k + 1) == 1 + size * k + size;
  }

  lemma BlockEnds(layout: Layout, out: seq<int>, buf: seq<byte>, l: nat, c: nat, k: nat, i: nat, j: nat,
                  done: seq<seq<int>>)
    requires i < c && j < c && l > 4 * (c - 1) && Progress(MsPlan(layout, buf, c), out, c, k, i, done)
    requires (k > 0 ==> 4 * c + layout.Bytes() * Mul(c, k) <= l) && l < 4 * c + layout.Bytes() * (Mul(c, k) + j + 1)
    ensures BlockDecoded(layout, out, buf, l, c, Mul(c, 1 + layout.Size() * k))
  {
    CompleteIs(layout, l, c, k, j);
    MsBounded(layout, buf, c);
    Finished(MsPlan(layout, buf, c), out, c, k, i, done);
  }

  /** For every number of channels, block size and length, also of a last block that is cut short, all that
      is written stays inside the output. What is returned is every sample of the complete rounds once: the
      first samples of the channels, and then sample `s` is sample `s / c` of channel `s % c`. The block is
      the first `bsize` bytes of `buf`, and a header that reaches out of it is read from what lies behind;
      `far` tells how far the headers reach, the rounds are read inside the `l` bytes that are there. */
  method DecodeMsIma(layout: Layout, out: array<int>, buf: seq<byte>, bsize: nat, l: nat, c: nat)
    returns (olen: nat, ghost far: nat)
    requires c > 0 && l <= bsize && bsize + 2 <= |buf| && out.Length == OutSize(layout, bsize)
    modifies out
    ensures BlockDecoded(layout, out[..], buf, l, c, olen)
    ensures far <= bsize <==> l == 0 || 4 * LastHeader(l, c) + 3 <= bsize
  {
    var i, states;
    ghost var done;
    i, states, far, done := MsHeaders(out, buf, l, c);
    if i < c {
      HeadersOnly(layout, out[..], buf, l, c, i, done);
      return i, far;
    }
    RoundsBegin(layout, out[..], buf, c, states, done);
    if layout.Four? {
      olen := FourRounds(out, buf, bsize, l, c, states, done);
    } else {
      olen := ThreeRounds(out, buf, bsize, l, c, states, done);
    }
  }

  method FourRounds(out: array<int>, buf: seq<byte>, bsize: nat, l: nat, c: nat, states0: seq<State>,
                    ghost done0: seq<seq<int>>)
    returns (olen: nat)
    requires c > 0 && 4 * (c - 1) < l <= bsize <= |buf| && out.Length == OutSize(Four, bsize)
    requires StatesAt(Four, buf, c, 0, 0, states0) && Progress(MsPlan(Four, buf, c), out[..], c, 0, 0, done0)
    modifies out
    ensures BlockDecoded(Four, out[..], buf, l, c, olen)
  {
    var states := states0;
    ghost var i, done := 0, done0;
    var len, k := 4 * c, 0;
    olen := c;
    while len < l
      invariant len == 4 * c + 4 * Mul(c, k) && (k > 0 ==> len <= l) && olen == Mul(c, 1 + 8 * k)
      invariant StatesAt(Four, buf, c, k, 0, states) && Progress(MsPlan(Four, buf, c), out[..], c, k, 0, done)
      decreases l - len
    {
      var complete;
      len, complete, i, states, done := FourRound(out, buf, bsize, l, c, k, len, olen, states, done);
      if !complete {
        BlockEnds(Four, out[..], buf, l, c, k, i, i, done);
        return;
      }
      RoundEnds(Four, out[..], buf, c, k, states, done);
      olen := olen + 8 * c;
      k := k + 1;
    }
    BlockEnds(Four, out[..], buf, l, c, k, 0, 0, done);
  }

  method ThreeRounds(out: array<int>, buf: seq<byte>, bsize: nat, l: nat, c: nat, states0: seq<State>,
                     ghost done0: seq<seq<int>>)
    returns (olen: nat)
    requires c > 0 && 4 * (c - 1) < l <= bsize <= |buf| && out.Length == OutSize(Three, bsize)
    requires StatesAt(Three, buf, c, 0, 0, states0) && Progress(MsPlan(Three, buf, c), out[..], c, 0, 0, done0)
    modifies out
    ensures BlockDecoded(Three, out[..], buf, l, c, olen)
  {
    var states := states0;
    ghost var done := done0;
    var len, k := 4 * c, 0;
    olen := c;
    while len < l
      invariant len == 4 * c + 12 * Mul(c, k) && (k > 0 ==> len <= l) && olen == Mul(c, 1 + 32 * k)
      invariant StatesAt(Three, buf, c, k, 0, states) && Progress(MsPlan(Three, buf, c), out[..], c, k, 0, done)
      decreases l - len
    {
      if len + 12 * c > l {
        BlockEnds(Three, out[..], buf, l, c, k, 0, c - 1, done);
        return;
      }
      states, done := ThreeRound(out, buf, bsize, c, k, len, olen, states, done);
      RoundEnds(Three, out[..], buf, c, k, states, done);
      len := len + 12 * c;
      olen := olen + 32 * c;
      k := k + 1;
    }
    BlockEnds(Three, out[..], buf, l, c, k, 0, 0, done);
  }
}
