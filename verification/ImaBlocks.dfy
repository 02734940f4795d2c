/** IMA ADPCM of several channels in blocks: the Apple layout, whose packets of 34 bytes stand for 64
    samples each, and the Microsoft layouts of four and three bits a sample. Lengths of output are in
    samples. */
module ImaBlocks {
  import opened Bytes
  import opened Adpcm
  import opened Weave
  import opened Rounds
  import opened ImaDecoder

  const MAC_IMA_BLKLEN: nat := 34

  /** A 16-bit number with its sign. */
  function Int16(x: nat): (r: int)
    ensures -32768 <= r <= 32767
  {
    if x % 65536 >= 32768 then x % 65536 - 65536 else x % 65536
  }

  // ---------------------------------------------------------------- Apple

  /** The header of a packet. */
  function MacState(buf: seq<byte>, p: nat): (s: State)
    requires 34 * p + 34 <= |buf|
    ensures InRange(Ima4, s)
  {
    var high, low := buf[34 * p] as nat, buf[34 * p + 1] as nat;
    State(Int16(256 * high + low / 128 * 128), if low % 128 > 88 then 88 else low % 128)
  }

  /** The samples of a packet, if it is complete. */
  function MacPacket(buf: seq<byte>, p: nat): seq<int> {
    if 34 * p + 34 <= |buf| then Samples(Ima4, MacState(buf, p), Codes(Ima4, buf[34 * p + 2..34 * p + 34])) else []
  }

  lemma PacketLength(buf: seq<byte>, p: nat)
    ensures |MacPacket(buf, p)| == if 34 * p + 34 <= |buf| then 64 else 0
  {
    if 34 * p + 34 <= |buf| {
      CodesLength(Ima4, buf[34 * p + 2..34 * p + 34]);
    }
  }

  /** In round `k` channel `ch` has packet `c * k + ch`. */
  function MacPlan(buf: seq<byte>, c: nat): Plan {
    Plan(ch => [], (ch: nat, k: nat) => MacPacket(buf, Mul(c, k) + ch), 0, 64)
  }

  lemma MacBounded(buf: seq<byte>, c: nat)
    ensures MacPlan(buf, c).Bounded()
  {
    forall ch: nat, k: nat ensures |MacPlan(buf, c).part(ch, k)| <= 64 {
      PacketLength(buf, Mul(c, k) + ch);
    }
  }

  /** A place before the end of the last round is in a round before it. */
  lemma RoundInside(c: nat, k: nat, i: nat, m: nat)
    requires i < c && Mul(c, k) + i < Mul(c, m)
    ensures Mul(c, k + 1) <= Mul(c, m)
  {
    if k >= m {
      MulSum(c, m, k - m);
    } else {
      MulSum(c, k + 1, m - k - 1);
    }
  }

  /** Room for one packet more. */
  lemma MacRoom(c: nat, k: nat, i: nat, m: nat, l: nat, length: nat)
    requires i < c && 34 * (Mul(c, k) + i) + 34 <= l <= 34 * Mul(c, m) && length == 68 * Mul(c, m)
    ensures Slot(c, 64 * k, i) + Mul(c, 63) < length
  {
    RoundInside(c, k, i, m);
    PartEnds(c, 64, 64 * k, i, k + 1);
  }

  /** The last sample of a part of `size` samples, in a round of equal parts. */
  lemma PartEnds(c: nat, size: nat, t0: nat, i: nat, rounds: nat)
    requires i < c && size > 0 && t0 + size == size * rounds
    ensures Slot(c, t0, i) + Mul(c, size - 1) == size * Mul(c, rounds) - c + i
  {
    MulSum(c, t0, size - 1);
    MulScale(c, size, rounds);
    assert Mul(c, size * rounds) == Mul(c, size * rounds - 1) + c;
  }

  /** The header of a packet, as it is read. */
  method ReadMacHeader(buf: seq<byte>, len: nat, ghost p: nat) returns (s: State)
    requires len == 34 * p && len + MAC_IMA_BLKLEN <= |buf|
    ensures s == MacState(buf, p)
  {
    var low := buf[len + 1] as nat;
    var pred, index := Int16(buf[len] as nat * 256 + low / 128 * 128), low % 128;
    if index > 88 {
      index := 88;
    }
    s := State(pred, index);
  }

  lemma MacWritten(out: seq<int>, before: seq<int>, first: nat, c: nat, buf: seq<byte>, p: nat, packet: seq<byte>,
                   r: State)
    requires 34 * p + 34 <= |buf| && packet == buf[34 * p + 2..34 * p + 34] && first + Mul(c, 63) < |before|
    requires Decoded(Ima4, out, first, c, before, MacState(buf, p), Codes(Ima4, packet), r)
    ensures |MacPacket(buf, p)| == 64 && out == Woven(before, first, c, MacPacket(buf, p))
  {
    CodesLength(Ima4, packet);
  }

  /** One packet: its header, and its samples into their places. */
  method MacDecode(out: array<int>, buf: seq<byte>, c: nat, len: nat, first: nat, ghost p: nat)
    requires len == 34 * p && len + MAC_IMA_BLKLEN <= |buf| && first + Mul(c, 63) < out.Length
    modifies out
    ensures |MacPacket(buf, p)| == 64 && out[..] == Woven(old(out[..]), first, c, MacPacket(buf, p))
  {
    ghost var before := out[..];
    var s := ReadMacHeader(buf, len, p);
    var packet := buf[len + 2..len + MAC_IMA_BLKLEN];
    var r := DecodeIma(out, first, packet, s, c);
    MacWritten(out[..], before, first, c, buf, p, packet, r);
  }

  lemma MacPlanned(buf: seq<byte>, c: nat, k: nat, i: nat, p: nat)
    requires p == Mul(c, k) + i
    ensures MacPlan(buf, c).part(i, k) == MacPacket(buf, p)
  {
  }

  lemma MacLength(buf: seq<byte>, c: nat, k: nat)
    ensures MacPlan(buf, c).Length(k) == 64 * k && MacPlan(buf, c).size == 64
  {
  }

  lemma MacDone(out: seq<int>, before: seq<int>, buf: seq<byte>, c: nat, k: nat, i: nat, done: seq<seq<int>>, p: nat)
    returns (done': seq<seq<int>>)
    requires Progress(MacPlan(buf, c), before, c, k, i, done) && i < c && p == Mul(c, k) + i
    requires Slot(c, 64 * k, i) + Mul(c, 63) < |before| && |MacPacket(buf, p)| == 64
    requires out == Woven(before, Slot(c, 64 * k, i), c, MacPacket(buf, p))
    ensures Progress(MacPlan(buf, c), out, c, k, i + 1, done')
  {
    MacPlanned(buf, c, k, i, p);
    MacLength(buf, c, k);
    done' := PartDone(MacPlan(buf, c), out, before, c, k, i, done, MacPacket(buf, p));
  }

  /** One packet into the places of its channel. */
  method MacOne(out: array<int>, buf: seq<byte>, c: nat, k: nat, i: nat, len: nat, olen: nat, ghost done: seq<seq<int>>)
    returns (ghost done': seq<seq<int>>)
    requires Progress(MacPlan(buf, c), out[..], c, k, i, done) && i < c
    requires len == 34 * (Mul(c, k) + i) && len + MAC_IMA_BLKLEN <= |buf|
    requires olen == Mul(c, 64 * k) && Slot(c, 64 * k, i) + Mul(c, 63) < out.Length
    modifies out
    ensures Progress(MacPlan(buf, c), out[..], c, k, i + 1, done')
  {
    ghost var before, p := out[..], Mul(c, k) + i;
    MacDecode(out, buf, c, len, olen + i, p);
    done' := MacDone(out[..], before, buf, c, k, i, done, p);
  }

  /** A packet of every channel, as far as there is one. */
  method MacRound(out: array<int>, buf: seq<byte>, c: nat, k: nat, start: nat, olen: nat, ghost m: nat,
                  ghost done0: seq<seq<int>>)
    returns (len: nat, complete: bool, ghost i: nat, ghost done: seq<seq<int>>)
    requires c > 0 && start == 34 * Mul(c, k) < |buf| <= 34 * Mul(c, m)
    requires olen == Mul(c, 64 * k) && out.Length == 68 * Mul(c, m)
    requires Progress(MacPlan(buf, c), out[..], c, k, 0, done0)
    modifies out
    ensures len == 34 * (Mul(c, k) + i) <= |buf| && i <= c && Progress(MacPlan(buf, c), out[..], c, k, i, done)
    ensures if complete then i == c else i < c && len + MAC_IMA_BLKLEN > |buf|
  {
    len, i, done := start, 0, done0;
    for j := 0 to c
      invariant i == j && len == 34 * (Mul(c, k) + j) <= |buf|
      invariant Progress(MacPlan(buf, c), out[..], c, k, j, done)
    {
      if len + MAC_IMA_BLKLEN > |buf| {
        return len, false, i, done;
      }
      MacRoom(c, k, j, m, |buf|, out.Length);
      done := MacOne(out, buf, c, k, j, len, olen, done);
      len, i := len + MAC_IMA_BLKLEN, i + 1;
    }
    complete := true;
  }

  /** Rounds that are complete, by the length of the input. */
  lemma MacRounds(c: nat, k: nat, i: nat, l: nat)
    requires i < c && 34 * Mul(c, k) <= l < 34 * (Mul(c, k) + i) + 34
    ensures l / MAC_IMA_BLKLEN / c == k
  {
    SlotSplits(c, k, l / 34 - Mul(c, k));
  }

  lemma MacBlocks(bsize: nat, c: nat) returns (m: nat)
    requires c > 0 && bsize % MAC_IMA_BLKLEN == 0 && bsize / MAC_IMA_BLKLEN % c == 0
    ensures bsize == 34 * Mul(c, m)
  {
    m := bsize / MAC_IMA_BLKLEN / c;
    MulIs(c, m);
  }

  /** The complete rounds, when what follows them is no packet of every channel. */
  lemma MacEnds(buf: seq<byte>, out: seq<int>, c: nat, k: nat, i: nat, done: seq<seq<int>>)
    requires i < c && 34 * Mul(c, k) <= |buf| < 34 * (Mul(c, k) + i) + 34
    requires Progress(MacPlan(buf, c), out, c, k, i, done)
    ensures var rounds := |buf| / MAC_IMA_BLKLEN / c;
      k == rounds && Tiled(out, c, 64 * rounds, MacPlan(buf, c).Streams(c, rounds))
  {
    MacRounds(c, k, i, |buf|);
    MacBounded(buf, c);
    MacLength(buf, c, k);
    Finished(MacPlan(buf, c), out, c, k, i, done);
  }

  lemma MacNext(c: nat, k: nat)
    ensures Mul(c, 64 * (k + 1)) == Mul(c, 64 * k) + 64 * c && Mul(c, k + 1) == Mul(c, k) + c
  {
    MulMore(c, 64 * k, 64);
    assert 64 * (k + 1) == 64 * k + 64;
  }

  /** For every number of channels, also of a last block that is cut short, all that is written stays inside
      the output, and what is returned is every sample of the complete rounds once: sample `s` is sample
      `s / c` of channel `s % c`. */
  method DecodeMacIma(out: array<int>, buf: seq<byte>, bsize: nat, c: nat) returns (olen: nat)
    requires c > 0 && bsize % MAC_IMA_BLKLEN == 0 && bsize / MAC_IMA_BLKLEN % c == 0
    requires |buf| <= bsize && out.Length == 2 * bsize
    modifies out
    ensures var rounds := |buf| / MAC_IMA_BLKLEN / c;
      olen == Mul(c, 64 * rounds) && Tiled(out[..], c, 64 * rounds, MacPlan(buf, c).Streams(c, rounds))
  {
    ghost var m := MacBlocks(bsize, c);
    var len, k := 0, 0;
    olen := 0;
    ghost var i, done := 0, seq(c, _ => []);
    while len < |buf|
      invariant len == 34 * Mul(c, k) <= |buf| && olen == Mul(c, 64 * k)
      invariant Progress(MacPlan(buf, c), out[..], c, k, 0, done)
      decreases |buf| - len
    {
      var complete;
      len, complete, i, done := MacRound(out, buf, c, k, len, olen, m, done);
      if !complete {
        MacEnds(buf, out[..], c, k, i, done);
        return;
      }
      RoundDone(MacPlan(buf, c), out[..], c, k, done);
      MacNext(c, k);
      olen := olen + 64 * c;
      k := k + 1;
    }
    MacEnds(buf, out[..], c, k, 0, done);
  }

  // ---------------------------------------------------------------- Microsoft

  /** Four bits a sample, four bytes of a channel at a time; or three bits, twelve bytes at a time. */
  datatype Layout = Four | Three {
    function Codec(): Codec {
      if Four? then Ima4 else Ima3
    }

    /** Bytes of one channel's part in a round, and samples. */
    function Bytes(): (n: nat)
      ensures n > 0
    {
      if Four? then 4 else 12
    }

    function Size(): nat {
      if Four? then 8 else 32
    }
  }

  /** The state a channel starts from; the first sample is played. */
  function MsHeader(buf: seq<byte>, ch: nat): (s: State)
    ensures InRange(Ima4, s) && InRange(Ima3, s)
  {
    if 4 * ch + 2 < |buf| then
      var index := buf[4 * ch + 2] as nat;
      State(Int16(LeValue(buf[4 * ch..4 * ch + 2])), if index >= 128 then 0 else if index > 88 then 88 else index)
    else State(0, 0)
  }

  /** The twelve bytes of a channel, from three groups of words. */
  function Gathered(buf: seq<byte>, c: nat, at: nat, ch: nat): (r: seq<byte>)
    requires ch < c && at + 12 * c <= |buf|
    ensures |r| == 12
  {
    var b := at + 4 * ch;
    buf[b..b + 4] + buf[b + 4 * c..b + 4 * c + 4] + buf[b + 8 * c..b + 8 * c + 4]
  }

  /** The codes of a channel in a round, if they are there. */
  function RoundCodes(layout: Layout, buf: seq<byte>, c: nat, ch: nat, k: nat): seq<int> {
    var at := 4 * c + layout.Bytes() * Mul(c, k);
    if layout.Four? then
      if at + 4 * ch + 4 <= |buf| then Codes(Ima4, buf[at + 4 * ch..at + 4 * ch + 4]) else []
    else if ch < c && at + 12 * c <= |buf| then Codes3(Gathered(buf, c, at, ch), 4) else []
  }

  lemma RoundLength(layout: Layout, buf: seq<byte>, c: nat, ch: nat, k: nat)
    ensures |RoundCodes(layout, buf, c, ch, k)| <= layout.Size()
  {
    var at := 4 * c + layout.Bytes() * Mul(c, k);
    if layout.Four? && at + 4 * ch + 4 <= |buf| {
      CodesLength(Ima4, buf[at + 4 * ch..at + 4 * ch + 4]);
    }
  }

  function MsCodes(layout: Layout, buf: seq<byte>, c: nat, ch: nat): nat -> seq<int> {
    (k: nat) => RoundCodes(layout, buf, c, ch, k)
  }

  /** All codes before round `k`, one after the other. */
  function CodesBefore(codes: nat -> seq<int>, k: nat): seq<int> {
    if k == 0 then [] else CodesBefore(codes, k - 1) + codes(k - 1)
  }

  /** The state before round `k`. */
  function StateBefore(codec: Codec, s: State, codes: nat -> seq<int>, k: nat): (r: State)
    requires InRange(codec, s)
    ensures InRange(codec, r)
  {
    if k == 0 then s else After(codec, StateBefore(codec, s, codes, k - 1), codes(k - 1))
  }

  /** The state of a channel before round `k`. */
  function MsState(layout: Layout, buf: seq<byte>, c: nat, ch: nat, k: nat): (s: State)
    ensures InRange(layout.Codec(), s)
  {
    StateBefore(layout.Codec(), MsHeader(buf, ch), MsCodes(layout, buf, c, ch), k)
  }

  function MsPart(layout: Layout, buf: seq<byte>, c: nat, ch: nat, k: nat): seq<int> {
    Samples(layout.Codec(), MsState(layout, buf, c, ch, k), MsCodes(layout, buf, c, ch)(k))
  }

  function MsPlan(layout: Layout, buf: seq<byte>, c: nat): Plan {
    Plan((ch: nat) => [MsHeader(buf, ch).pred], (ch: nat, k: nat) => MsPart(layout, buf, c, ch, k), 1, layout.Size())
  }

  lemma MsBounded(layout: Layout, buf: seq<byte>, c: nat)
    ensures MsPlan(layout, buf, c).Bounded()
  {
    forall ch: nat, k: nat ensures |MsPlan(layout, buf, c).part(ch, k)| <= layout.Size() {
      RoundLength(layout, buf, c, ch, k);
    }
  }

  /** A stream that is its first sample and one decoding of all codes before round `k`. */
  ghost predicate DecodedOnce(codec: Codec, s: State, codes: nat -> seq<int>, plan: Plan, ch: nat, k: nat)
    requires InRange(codec, s)
  {
    && plan.Stream(ch, k) == [s.pred] + Samples(codec, s, CodesBefore(codes, k))
    && StateBefore(codec, s, codes, k) == After(codec, s, CodesBefore(codes, k))
  }

  lemma DecodedOn(codec: Codec, s: State, codes: nat -> seq<int>, plan: Plan, ch: nat, k: nat)
    requires InRange(codec, s) && DecodedOnce(codec, s, codes, plan, ch, k)
    requires plan.part(ch, k) == Samples(codec, StateBefore(codec, s, codes, k), codes(k))
    ensures DecodedOnce(codec, s, codes, plan, ch, k + 1)
  {
    PartHeard(codec, s, CodesBefore(codes, k), codes(k), plan.Stream(ch, k), plan.part(ch, k));
  }

  lemma {:induction false} OneDecoding(codec: Codec, s: State, codes: nat -> seq<int>, plan: Plan, ch: nat, k: nat)
    requires InRange(codec, s) && plan.head(ch) == [s.pred]
    requires forall j :: plan.part(ch, j) == Samples(codec, StateBefore(codec, s, codes, j), codes(j))
    ensures DecodedOnce(codec, s, codes, plan, ch, k)
  {
    if k == 0 {
      assert Samples(codec, s, []) == [] && [s.pred] + [] == [s.pred];
    } else {
      OneDecoding(codec, s, codes, plan, ch, k - 1);
      DecodedOn(codec, s, codes, plan, ch, k - 1);
    }
  }

  lemma PartHeard(codec: Codec, s: State, codes: seq<int>, more: seq<int>, stream: seq<int>, part: seq<int>)
    requires InRange(codec, s) && stream == [s.pred] + Samples(codec, s, codes)
    requires part == Samples(codec, After(codec, s, codes), more)
    ensures stream + part == [s.pred] + Samples(codec, s, codes + more)
    ensures After(codec, s, codes + more) == After(codec, After(codec, s, codes), more)
  {
    Resumed(codec, s, codes, more);
    Regroup([s.pred], Samples(codec, s, codes), part);
  }

  /** The rounds cannot be heard: a channel's stream is its first sample and one decoding of all its codes. */
  lemma MsOneDecoding(layout: Layout, buf: seq<byte>, c: nat, ch: nat, k: nat)
    ensures var s, codes := MsHeader(buf, ch), CodesBefore(MsCodes(layout, buf, c, ch), k);
      MsPlan(layout, buf, c).Stream(ch, k) == [s.pred] + Samples(layout.Codec(), s, codes)
  {
    OneDecoding(layout.Codec(), MsHeader(buf, ch), MsCodes(layout, buf, c, ch), MsPlan(layout, buf, c), ch, k);
  }
}
