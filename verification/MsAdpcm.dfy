/** Microsoft ADPCM, decoded by the player and, in other code of the same kind, for the test sounds. The
    decoders differ in how they limit the coefficients, where they stop and what they do with a sample; the
    steps that are written alike in both are written once here. What they play is defined channel by channel.
    `buf` is the memory from the start of a block on; what lies behind the block is in it.
    Integers are unbounded here; the claims are about blocks on which no `int` of the original overflows. */
module MsAdpcm {
  import opened Bytes
  import opened Adpcm
  import opened Weave
  import opened ImaBlocks

  const ADAPTION: seq<int> := [230, 230, 230, 230, 307, 409, 512, 614, 768, 614, 512, 409, 307, 230, 230, 230]

  datatype Coeff = Coeff(coeff1: int, coeff2: int)

  /** What the `fmt ` chunk says; there is room for 32 pairs of coefficients, and a 33rd pair stands for
      what lies behind them. */
  datatype Format = Format(channels: nat, samplesPerBlock: nat, numCoeff: nat, coeffs: seq<Coeff>) {
    predicate Valid() {
      channels > 0 && |coeffs| == 33 && numCoeff <= 32
    }

    /** Samples of a channel in a block: two are in its header. */
    function Count(): nat {
      if samplesPerBlock < 2 then 2 else samplesPerBlock
    }
  }

  datatype Channel = Channel(coeff: Coeff, delta: int, samp1: int, samp2: int)

  // ---------------------------------------------------------------- what is played

  /** A 16-bit number of a block. */
  function WordAt(buf: seq<byte>, at: nat): (r: int)
    requires at + 2 <= |buf|
    ensures -32768 <= r <= 32767
  {
    Int16(LeValue(buf[at..at + 2]))
  }

  /** The pair of coefficients a channel asks for; too large a number is taken down to the number of pairs. */
  function CoeffOf(f: Format, buf: seq<byte>, ch: nat): Coeff
    requires f.Valid() && ch < |buf|
  {
    if buf[ch] as nat > f.numCoeff then f.coeffs[f.numCoeff] else f.coeffs[buf[ch]]
  }

  /** The number of a pair behind the last one is asked for if and only if the table is full and a header
      names a number behind it; then it is the 33rd. */
  lemma CoeffsInside(f: Format, buf: seq<byte>, ch: nat)
    requires f.Valid() && ch < |buf|
    ensures (if buf[ch] as nat > f.numCoeff then f.numCoeff else buf[ch] as nat) < 32
      <==> f.numCoeff < 32 || buf[ch] < 32
  {
  }

  /** There is memory where the headers are looked for. */
  predicate Headers(f: Format, buf: seq<byte>) {
    f.Valid() && 7 * f.channels <= |buf|
  }

  function Begin(f: Format, buf: seq<byte>, ch: nat): Channel
    requires Headers(f, buf) && ch < f.channels
  {
    var c := f.channels;
    Channel(CoeffOf(f, buf, ch), WordAt(buf, c + 2 * ch), WordAt(buf, 3 * c + 2 * ch), WordAt(buf, 5 * c + 2 * ch))
  }

  /** Half byte number `j` behind the headers, the high half first. */
  function Nibble(c: nat, buf: seq<byte>, j: nat): (r: nat)
    ensures r < 16
  {
    if 7 * c + j / 2 >= |buf| then 0
    else if j % 2 == 0 then buf[7 * c + j / 2] as nat / 16 else buf[7 * c + j / 2] as nat % 16
  }

  function Predicted(ch: Channel): int {
    Quotient(ch.samp1 * ch.coeff.coeff1 + ch.samp2 * ch.coeff.coeff2, 256)
  }

  function Next(ch: Channel, nibble: nat): Channel
    requires nibble < 16
  {
    var signed := if nibble >= 8 then nibble as int - 16 else nibble;
    var adapted := Quotient(ch.delta * ADAPTION[nibble], 256);
    Channel(ch.coeff, if adapted < 16 then 16 else adapted,
            Clamp(Predicted(ch) + ch.delta * signed, -32768, 32767), ch.samp1)
  }

  /** A channel after `t` half bytes of its own. */
  function ChannelAfter(f: Format, buf: seq<byte>, ch: nat, t: nat): Channel
    requires Headers(f, buf) && ch < f.channels
  {
    if t == 0 then Begin(f, buf, ch)
    else Next(ChannelAfter(f, buf, ch, t - 1), Nibble(f.channels, buf, Slot(f.channels, t - 1, ch)))
  }

  /** Sample `t` of a channel. */
  function SampleOf(f: Format, buf: seq<byte>, ch: nat, t: nat): int
    requires Headers(f, buf) && ch < f.channels
  {
    if t == 0 then Begin(f, buf, ch).samp1
    else if t == 1 then Begin(f, buf, ch).samp2
    else ChannelAfter(f, buf, ch, t - 1).samp1
  }

  /** Sample `s` of the block, over all channels. */
  function SampleAt(f: Format, buf: seq<byte>, s: nat): int
    requires Headers(f, buf)
  {
    SlotOf(f.channels, s);
    SampleOf(f, buf, ChannelOf(f.channels, s), TimeOf(f.channels, s))
  }

  /** All samples are 16-bit numbers. */
  lemma {:induction false} SampleIs16Bit(f: Format, buf: seq<byte>, ch: nat, t: nat)
    requires Headers(f, buf) && ch < f.channels
    ensures -32768 <= SampleOf(f, buf, ch, t) <= 32767
  {
    if t >= 2 {
      var before := ChannelAfter(f, buf, ch, t - 2);
      assert ChannelAfter(f, buf, ch, t - 1) == Next(before, Nibble(f.channels, buf, Slot(f.channels, t - 2, ch)));
    }
  }

  // ---------------------------------------------------------------- the decoders

  /** A number cut to 16 bits. */
  function Short(x: int): (r: int)
    ensures -32768 <= r <= 32767
    ensures -32768 <= x <= 32767 ==> r == x
  {
    (x + 32768) % 65536 - 32768
  }

  /** A sample at a volume in percent; more than 100 is not refused. */
  function Scaled(x: int, gain: nat): int {
    Short(Quotient(x * gain, 100))
  }

  lemma FullGain(x: int)
    requires -32768 <= x <= 32767
    ensures Scaled(x, 100) == x
  {
    assert Quotient(x * 100, 100) == x;
  }

  /** The first `n` samples of the block are played, from `at` on. */
  ghost predicate Played(f: Format, buf: seq<byte>, gain: nat, out: seq<int>, at: nat, n: nat) {
    Headers(f, buf) && at + n <= |out| && forall s: nat :: s < n ==> out[at + s] == Scaled(SampleAt(f, buf, s), gain)
  }

  lemma PlayedOne(f: Format, buf: seq<byte>, gain: nat, before: seq<int>, out: seq<int>, at: nat, n: nat, t: nat,
                  ch: nat)
    requires Played(f, buf, gain, before, at, n) && ch < f.channels && n == Slot(f.channels, t, ch) && at + n < |before|
    requires out == before[at + n := Scaled(SampleOf(f, buf, ch, t), gain)]
    ensures Played(f, buf, gain, out, at, n + 1)
  {
    SlotSplits(f.channels, t, ch);
  }

  /** Every channel is as after `t` half bytes, those before `i` one further. */
  ghost predicate ChannelsAt(f: Format, buf: seq<byte>, t: nat, i: nat, chans: seq<Channel>) {
    && Headers(f, buf) && |chans| == f.channels
    && forall ch: nat :: ch < f.channels ==> chans[ch] == ChannelAfter(f, buf, ch, if ch < i then t + 1 else t)
  }

  /** The reading of half bytes: where in the byte, and which. */
  method GetNibble(c: nat, buf: seq<byte>, x: nat, nib: nat, ghost j: nat)
    returns (value: nat, x': nat, nib': nat, ghost far: nat)
    requires x == 7 * c + j / 2 < |buf| && nib == j % 2
    ensures value == Nibble(c, buf, j) && x' == 7 * c + (j + 1) / 2 && nib' == (j + 1) % 2 && far == x + 1
  {
    x', nib', far := x, nib, x + 1;
    if nib == 0 {
      value, nib' := buf[x] as nat / 16, 1;
    } else {
      nib' := nib - 1;
      value := buf[x + nib'] as nat % 16;
      x' := x + 1;
    }
  }

  /** `le_int` of two bytes, with a sign. */
  method Word(buf: seq<byte>, at: nat) returns (r: int)
    requires at + 2 <= |buf|
    ensures r == WordAt(buf, at)
  {
    var p := buf[at..];
    assert p[..2] == buf[at..at + 2];
    var v := LeInt(p, 2);
    r := Int16(v);
  }

  /** Sample `n` of the block, clamped, goes out. */
  method OutSample(f: Format, buf: seq<byte>, gain: nat, out: array<int>, at: nat, n: nat, x: int, ghost t: nat,
                   ghost ch: nat)
    returns (r: int)
    requires Played(f, buf, gain, out[..], at, n) && at + n < out.Length
    requires ch < f.channels && n == Slot(f.channels, t, ch)
    requires Clamp(x, -32768, 32767) == SampleOf(f, buf, ch, t)
    modifies out
    ensures out[..] == old(out[..])[at + n := Scaled(SampleOf(f, buf, ch, t), gain)]
    ensures Played(f, buf, gain, out[..], at, n + 1) && r == SampleOf(f, buf, ch, t)
  {
    r := x;
    if r > 32767 {
      r := 32767;
    } else if r < -32768 {
      r := -32768;
    }
    ghost var before := out[..];
    out[at + n] := Scaled(r, gain);
    PlayedOne(f, buf, gain, before, out[..], at, n, t, ch);
  }

  lemma Clamped(x: int)
    requires -32768 <= x <= 32767
    ensures Clamp(x, -32768, 32767) == x
  {
  }

  method ReadWords(buf: seq<byte>, c: nat, from: nat) returns (words: seq<int>)
    requires from + 2 * c <= |buf|
    ensures |words| == c && forall ch: nat :: ch < c ==> words[ch] == WordAt(buf, from + 2 * ch)
  {
    words := [];
    var x := from;
    for i := 0 to c
      invariant x == from + 2 * i && |words| == i
      invariant forall ch: nat :: ch < i ==> words[ch] == WordAt(buf, from + 2 * ch)
    {
      var d := Word(buf, x);
      words := words + [d];
      x := x + 2;
    }
  }

  /** The first or the second samples, which are played as they are. */
  method PlayWords(f: Format, buf: seq<byte>, gain: nat, out: array<int>, at: nat, t: nat, from: nat)
    returns (words: seq<int>)
    requires t < 2 && from == (3 + 2 * t) * f.channels
    requires Played(f, buf, gain, out[..], at, Mul(f.channels, t)) && at + Mul(f.channels, t) + f.channels <= out.Length
    modifies out
    ensures out[..at] == old(out[..at]) && Played(f, buf, gain, out[..], at, Mul(f.channels, t) + f.channels)
    ensures |words| == f.channels && forall ch: nat :: ch < f.channels ==> words[ch] == SampleOf(f, buf, ch, t)
  {
    words := [];
    var x := from;
    for i := 0 to f.channels
      invariant x == from + 2 * i && |words| == i && forall ch: nat :: ch < i ==> words[ch] == SampleOf(f, buf, ch, t)
      invariant Played(f, buf, gain, out[..], at, Mul(f.channels, t) + i) && out[..at] == old(out[..at])
    {
      var d := Word(buf, x);
      assert d == SampleOf(f, buf, i, t);
      Clamped(d);
      d := OutSample(f, buf, gain, out, at, Mul(f.channels, t) + i, d, t, i);
      words := words + [d];
      x := x + 2;
    }
  }

  /** The numbers of the pairs of coefficients; only the player limits them. */
  method ReadCoeffs(f: Format, buf: seq<byte>, limit: bool) returns (coeffs: seq<Coeff>)
    requires Headers(f, buf) && (limit || forall ch: nat :: ch < f.channels ==> buf[ch] as nat <= f.numCoeff)
    ensures |coeffs| == f.channels && forall ch: nat :: ch < f.channels ==> coeffs[ch] == CoeffOf(f, buf, ch)
  {
    coeffs := [];
    for i := 0 to f.channels
      invariant |coeffs| == i && forall ch: nat :: ch < i ==> coeffs[ch] == CoeffOf(f, buf, ch)
    {
      var predictor: nat := buf[i];
      if limit && predictor > f.numCoeff {
        predictor := f.numCoeff;
      }
      coeffs := coeffs + [f.coeffs[predictor]];
    }
  }

  /** The headers, with the first two samples of every channel. */
  method ReadHeaders(f: Format, buf: seq<byte>, gain: nat, out: array<int>, at: nat, limit: bool)
    returns (chans: seq<Channel>)
    requires Headers(f, buf) && at + 2 * f.channels <= out.Length
    requires limit || forall ch: nat :: ch < f.channels ==> buf[ch] as nat <= f.numCoeff
    modifies out
    ensures out[..at] == old(out[..at])
    ensures ChannelsAt(f, buf, 0, 0, chans) && Played(f, buf, gain, out[..], at, 2 * f.channels)
  {
    var c := f.channels;
    var coeffs := ReadCoeffs(f, buf, limit);
    var delta := ReadWords(buf, c, c);
    assert Mul(c, 0) == 0 && Mul(c, 1) == c;
    var samp1 := PlayWords(f, buf, gain, out, at, 0, 3 * c);
    var samp2 := PlayWords(f, buf, gain, out, at, 1, 5 * c);
    chans := seq(c, ch requires 0 <= ch < c => Channel(coeffs[ch], delta[ch], samp1[ch], samp2[ch]));
  }

  /** The samples of the block, and those that the player gets to when only `l` bytes are there: it looks at
      one byte more. */
  function Playable(f: Format, l: nat): nat {
    var all := Mul(f.channels, f.Count());
    var there := 2 * f.channels + if l < 7 * f.channels then 0 else 2 * (l - 7 * f.channels) + 2;
    if there < all then there else all
  }

  /** The half bytes of a whole block are there. */
  predicate Enough(f: Format, l: nat) {
    7 * f.channels + (Mul(f.channels, f.Count() - 2) + 1) / 2 <= l
  }

  /** The condition of the loop, counting bytes of output. */
  lemma LoopGoesOn(f: Format, t: nat)
    ensures 2 * Mul(f.channels, t + 2) < f.samplesPerBlock * 2 * f.channels
      <==> t + 2 < f.samplesPerBlock && f.channels > 0
  {
    var c, spb := f.channels, f.samplesPerBlock;
    MulIs(c, spb);
    assert spb * 2 * c == 2 * (c * spb);
    if t + 2 < spb {
      MulGrows(c, t + 2, spb);
    } else {
      MulSum(c, spb, t + 2 - spb);
    }
  }

  /** One half byte advances its channel. */
  lemma ChannelNext(f: Format, buf: seq<byte>, t: nat, i: nat, chans: seq<Channel>, next: Channel)
    requires ChannelsAt(f, buf, t, i, chans) && i < f.channels
    requires next == Next(chans[i], Nibble(f.channels, buf, Slot(f.channels, t, i)))
    ensures ChannelsAt(f, buf, t, i + 1, chans[i := next]) && next.samp1 == SampleOf(f, buf, i, t + 2)
  {
  }

  /** How far a decoder is: in turn `t`, before channel `i`; `n` samples are out, and `x` and `nib` tell the
      next half byte. */
  ghost predicate Decoding(f: Format, buf: seq<byte>, gain: nat, out: seq<int>, at: nat, t: nat, i: nat,
                           chans: seq<Channel>, n: nat, x: nat, nib: nat) {
    && f.channels > 0 && i <= f.channels && ChannelsAt(f, buf, t, i, chans)
    && n == 2 * f.channels + Slot(f.channels, t, i)
    && x == 7 * f.channels + Slot(f.channels, t, i) / 2 && nib == Slot(f.channels, t, i) % 2
    && Played(f, buf, gain, out, at, n)
  }

  lemma TurnDone(f: Format, buf: seq<byte>, gain: nat, out: seq<int>, at: nat, t: nat, chans: seq<Channel>, n: nat,
                 x: nat, nib: nat)
    requires Decoding(f, buf, gain, out, at, t, f.channels, chans, n, x, nib)
    ensures Decoding(f, buf, gain, out, at, t + 1, 0, chans, n, x, nib)
  {
  }

  lemma SampleSlot(c: nat, t: nat, i: nat)
    ensures 2 * c + Slot(c, t, i) == Slot(c, t + 2, i)
  {
    assert Mul(c, t + 2) == Mul(c, t + 1) + c;
  }

  /** The arithmetic of a sample, before it is clamped, and the next delta. */
  method NewSample(ch: Channel, errorDelta: nat) returns (newSamp: int, delta: int)
    requires errorDelta < 16
    ensures Next(ch, errorDelta) == Channel(ch.coeff, delta, Clamp(newSamp, -32768, 32767), ch.samp1)
  {
    var pred := Quotient(ch.samp1 * ch.coeff.coeff1 + ch.samp2 * ch.coeff.coeff2, 256);
    var iDelta: int := errorDelta;
    if iDelta / 8 % 2 == 1 {
      iDelta := iDelta - 16;
    }
    newSamp := pred + ch.delta * iDelta;
    delta := Quotient(ch.delta * ADAPTION[errorDelta], 256);
    if delta < 16 {
      delta := 16;
    }
  }

  /** The body of the loops over the channels. */
  method DecodeOne(f: Format, buf: seq<byte>, gain: nat, out: array<int>, at: nat, t: nat, i: nat,
                   chans: seq<Channel>, n: nat, x: nat, nib: nat)
    returns (chans': seq<Channel>, x': nat, nib': nat, ghost far: nat)
    requires Decoding(f, buf, gain, out[..], at, t, i, chans, n, x, nib)
    requires i < f.channels && x < |buf| && at + n < out.Length
    modifies out
    ensures out[..at] == old(out[..at]) && far == x + 1
    ensures Decoding(f, buf, gain, out[..], at, t, i + 1, chans', n + 1, x', nib')
  {
    var ch, errorDelta := chans[i], 0;
    errorDelta, x', nib', far := GetNibble(f.channels, buf, x, nib, Slot(f.channels, t, i));
    var newSamp, delta := NewSample(ch, errorDelta);
    ChannelNext(f, buf, t, i, chans, Next(ch, errorDelta));
    SampleSlot(f.channels, t, i);
    newSamp := OutSample(f, buf, gain, out, at, n, newSamp, t + 2, i);
    chans' := chans[i := Channel(ch.coeff, delta, newSamp, ch.samp1)];
  }

  // ---------------------------------------------------------------- the player

  /** Room for the next sample, when the player goes on. */
  lemma PlayerRoom(f: Format, l: nat, bsize: nat, t: nat, i: nat)
    requires i < f.channels && 7 * f.channels + Slot(f.channels, t, i) / 2 <= l <= bsize
    ensures 2 * f.channels + Slot(f.channels, t, i) < 2 * bsize
  {
  }

  /** How far the player reads when it plays `n` samples: the headers, and a half byte for every other sample. */
  function ReadsTo(f: Format, n: nat): nat
    requires n >= 2 * f.channels
  {
    7 * f.channels + (n - 2 * f.channels + 1) / 2
  }

  /** The player reads only inside a block of which `l` bytes have been read if and only if the headers fit,
      and the block has not been read in full or holds all the half bytes that its samples need. */
  lemma PlayerReadsInside(f: Format, bsize: nat, l: nat)
    requires l <= bsize && f.channels > 0
    ensures Playable(f, l) >= 2 * f.channels
    ensures ReadsTo(f, Playable(f, l)) <= bsize <==> 7 * f.channels <= bsize && (l < bsize || Enough(f, l))
  {
    AtLeastTwo(f);
    MulSum(f.channels, 2, f.Count() - 2);
    MulIs(f.channels, 2);
  }

  /** A mono block of 256 bytes that is to hold 501 samples is read one byte too far. */
  lemma PlayerReadsOutside(f: Format)
    requires f.channels == 1 && f.samplesPerBlock == 501
    ensures Playable(f, 256) >= 2 && ReadsTo(f, Playable(f, 256)) == 257
  {
    MulIs(1, 501);
  }

  /** What is written stays inside the output if and only if the block has a byte for every channel. */
  lemma PlayerWritesInside(f: Format, bsize: nat, l: nat)
    requires l <= bsize && f.channels > 0
    ensures Playable(f, l) <= 2 * bsize <==> f.channels <= bsize
  {
    AtLeastTwo(f);
  }

  /** Another sample counts. */
  lemma PlayerGoesOn(f: Format, l: nat, t: nat, i: nat)
    requires i < f.channels && t + 2 < f.samplesPerBlock && 7 * f.channels + Slot(f.channels, t, i) / 2 <= l
    ensures 2 * f.channels + Slot(f.channels, t, i) + 1 <= Playable(f, l)
  {
    SampleSlot(f.channels, t, i);
    MulGrows(f.channels, t + 2, f.Count());
  }

  /** Where the player stops. */
  lemma PlayerStops(f: Format, l: nat, t: nat, i: nat)
    requires 2 * f.channels + Slot(f.channels, t, i) <= Playable(f, l)
    requires (i == 0 && t + 2 >= f.samplesPerBlock) || 7 * f.channels + Slot(f.channels, t, i) / 2 > l
    ensures 2 * f.channels + Slot(f.channels, t, i) == Playable(f, l)
  {
    SampleSlot(f.channels, t, i);
    if i == 0 && t + 2 >= f.samplesPerBlock {
      MulSum(f.channels, f.Count(), t + 2 - f.Count());
    }
  }

  lemma AtLeastTwo(f: Format)
    ensures Mul(f.channels, f.Count()) >= 2 * f.channels
  {
    MulSum(f.channels, 2, f.Count() - 2);
    assert Mul(f.channels, 2) == Mul(f.channels, 1) + f.channels;
  }

  /** The player decodes a block of `bsize` bytes of which `l` have been read: all samples when the half
      bytes are there, otherwise as many as there are, with those of one byte more. It reads the bytes below
      `far`, those behind the block too, and writes one sample behind the other. */
  method DecodeMsAdpcm(f: Format, buf: seq<byte>, bsize: nat, l: nat, out: array<int>)
    returns (outp: nat, ghost far: nat)
    requires Headers(f, buf) && l <= bsize < |buf| && out.Length >= 2 * bsize && out.Length >= 2 * f.channels
    modifies out
    ensures outp == Playable(f, l) <= out.Length
    ensures forall s: nat :: s < outp ==> out[s] == SampleAt(f, buf, s)
    ensures far <= bsize <==> 7 * f.channels <= bsize && (l < bsize || Enough(f, l))
    ensures outp <= 2 * bsize <==> f.channels <= bsize
  {
    AtLeastTwo(f);
    PlayerReadsInside(f, bsize, l);
    PlayerWritesInside(f, bsize, l);
    var chans := ReadHeaders(f, buf, 100, out, 0, true);
    outp, far := PlayerLoop(f, buf, bsize, l, out, chans);
    PlayedInFull(f, buf, out[..], outp);
  }

  /** The samples behind those of the headers. */
  method PlayerLoop(f: Format, buf: seq<byte>, bsize: nat, l: nat, out: array<int>, chans0: seq<Channel>)
    returns (outp: nat, ghost far: nat)
    requires Decoding(f, buf, 100, out[..], 0, 0, 0, chans0, 2 * f.channels, 7 * f.channels, 0)
    requires l <= bsize < |buf| && out.Length >= 2 * bsize && Playable(f, l) >= 2 * f.channels
    modifies out
    ensures outp == Playable(f, l) && far == ReadsTo(f, outp) && Played(f, buf, 100, out[..], 0, outp)
  {
    var c, chans := f.channels, chans0;
    outp, far := 2 * c, 7 * c;
    var x, nib, t := 7 * c, 0, 0;
    LoopGoesOn(f, 0);
    assert Mul(c, 0) == 0 && Mul(c, 2) == 2 * c by { MulIs(c, 2); }
    while 2 * outp < f.samplesPerBlock * 2 * c
      invariant Decoding(f, buf, 100, out[..], 0, t, 0, chans, outp, x, nib) && outp == Mul(c, t + 2) <= Playable(f, l)
      invariant far == ReadsTo(f, outp)
      decreases f.samplesPerBlock - t
    {
      LoopGoesOn(f, t);
      var done;
      chans, outp, x, nib, far, done := PlayerTurn(f, buf, bsize, l, out, t, chans, outp, x, nib, far);
      if done {
        return;
      }
      t := t + 1;
    }
    LoopGoesOn(f, t);
    PlayerStops(f, l, t, 0);
  }

  lemma PlayedInFull(f: Format, buf: seq<byte>, out: seq<int>, n: nat)
    requires Played(f, buf, 100, out, 0, n)
    ensures n <= |out| && forall s: nat :: s < n ==> out[s] == SampleAt(f, buf, s)
  {
    forall s: nat | s < n ensures out[s] == SampleAt(f, buf, s) {
      assert out[0 + s] == Scaled(SampleAt(f, buf, s), 100);
      SlotOf(f.channels, s);
      SampleIs16Bit(f, buf, ChannelOf(f.channels, s), TimeOf(f.channels, s));
      FullGain(SampleAt(f, buf, s));
    }
  }

  /** One turn of all channels, or until the half bytes end. */
  method PlayerTurn(f: Format, buf: seq<byte>, bsize: nat, l: nat, out: array<int>, t: nat,
                    chans0: seq<Channel>, n0: nat, x0: nat, nib0: nat, ghost far0: nat)
    returns (chans: seq<Channel>, n: nat, x: nat, nib: nat, ghost far: nat, done: bool)
    requires Decoding(f, buf, 100, out[..], 0, t, 0, chans0, n0, x0, nib0) && far0 == ReadsTo(f, n0)
    requires t + 2 < f.samplesPerBlock && n0 <= Playable(f, l) && l <= bsize < |buf| && out.Length >= 2 * bsize
    modifies out
    ensures n <= Playable(f, l) && Played(f, buf, 100, out[..], 0, n) && n >= 2 * f.channels && far == ReadsTo(f, n)
    ensures if done then n == Playable(f, l)
            else Decoding(f, buf, 100, out[..], 0, t + 1, 0, chans, n, x, nib) && n == Mul(f.channels, t + 3)
  {
    chans, n, x, nib, far := chans0, n0, x0, nib0, far0;
    for i := 0 to f.channels
      invariant Decoding(f, buf, 100, out[..], 0, t, i, chans, n, x, nib) && n <= Playable(f, l) && far == ReadsTo(f, n)
    {
      if x > l {
        PlayerStops(f, l, t, i);
        return chans, n, x, nib, far, true;
      }
      PlayerRoom(f, l, bsize, t, i);
      PlayerGoesOn(f, l, t, i);
      chans, x, nib, far := DecodeOne(f, buf, 100, out, 0, t, i, chans, n, x, nib);
      n := n + 1;
    }
    TurnDone(f, buf, 100, out[..], 0, t, chans, n, x, nib);
    SampleSlot(f.channels, t + 1, 0);
    done := false;
  }

  // ---------------------------------------------------------------- the test sounds

  /** One block into the output behind what is there; there is no look at how much of it was read. */
  method UncompressBlock(f: Format, buf: seq<byte>, gain: nat, out: array<int>, at: nat) returns (n: nat)
    requires Headers(f, buf) && Enough(f, |buf|) && at + Mul(f.channels, f.Count()) <= out.Length
    requires forall ch: nat :: ch < f.channels ==> buf[ch] as nat < f.numCoeff
    modifies out
    ensures n == Mul(f.channels, f.Count()) && out[..at] == old(out[..at]) && Played(f, buf, gain, out[..], at, n)
  {
    AtLeastTwo(f);
    var c := f.channels;
    var chans := ReadHeaders(f, buf, gain, out, at, false);
    n := 2 * c;
    var x, nib, t := 7 * c, 0, 0;
    LoopGoesOn(f, 0);
    assert Mul(c, 0) == 0 && Mul(c, 2) == 2 * c by { MulIs(c, 2); }
    while 2 * n < f.samplesPerBlock * 2 * c
      invariant Decoding(f, buf, gain, out[..], at, t, 0, chans, n, x, nib) && n == Mul(c, t + 2) && t + 2 <= f.Count()
      invariant out[..at] == old(out[..at])
      decreases f.samplesPerBlock - t
    {
      LoopGoesOn(f, t);
      chans, n, x, nib := UncompressTurn(f, buf, gain, out, at, t, chans, n, x, nib);
      t := t + 1;
    }
    LoopGoesOn(f, t);
  }

  /** One turn of all channels. */
  method UncompressTurn(f: Format, buf: seq<byte>, gain: nat, out: array<int>, at: nat, t: nat,
                        chans0: seq<Channel>, n0: nat, x0: nat, nib0: nat)
    returns (chans: seq<Channel>, n: nat, x: nat, nib: nat)
    requires Decoding(f, buf, gain, out[..], at, t, 0, chans0, n0, x0, nib0) && t + 2 < f.samplesPerBlock
    requires Enough(f, |buf|) && at + Mul(f.channels, f.Count()) <= out.Length
    modifies out
    ensures out[..at] == old(out[..at])
    ensures Decoding(f, buf, gain, out[..], at, t + 1, 0, chans, n, x, nib) && n == Mul(f.channels, t + 3)
  {
    chans, n, x, nib := chans0, n0, x0, nib0;
    for i := 0 to f.channels
      invariant Decoding(f, buf, gain, out[..], at, t, i, chans, n, x, nib) && out[..at] == old(out[..at])
    {
      BlockRoom(f, |buf|, t, i);
      ghost var far;
      chans, x, nib, far := DecodeOne(f, buf, gain, out, at, t, i, chans, n, x, nib);
      n := n + 1;
    }
    TurnDone(f, buf, gain, out[..], at, t, chans, n, x, nib);
    SampleSlot(f.channels, t + 1, 0);
  }

  lemma BlockRoom(f: Format, size: nat, t: nat, i: nat)
    requires i < f.channels && t + 2 < f.samplesPerBlock && Enough(f, size)
    ensures 7 * f.channels + Slot(f.channels, t, i) / 2 < size
    ensures 2 * f.channels + Slot(f.channels, t, i) < Mul(f.channels, f.Count())
  {
    MulGrows(f.channels, t, f.Count() - 2);
    SampleSlot(f.channels, t, i);
    MulGrows(f.channels, t + 2, f.Count());
  }

  /** Block `b` of the data. */
  function BlockOf(data: seq<byte>, align: nat, b: nat): (r: seq<byte>)
    requires Mul(align, b + 1) <= |data|
    ensures |r| == align
  {
    data[Mul(align, b)..Mul(align, b) + align]
  }

  /** The blocks the test plays: a block is decoded while more than one is left. */
  function Blocks(n: nat, align: nat): nat
    requires align > 0
  {
    if n <= align then 0 else 1 + Blocks(n - align, align)
  }

  lemma {:induction false} BlocksFit(n: nat, align: nat, b: nat)
    requires align > 0
    ensures b < Blocks(n, align) <==> Mul(align, b + 1) < n
    decreases n
  {
    if n > align {
      if b > 0 {
        BlocksFit(n - align, align, b - 1);
        MulSum(align, 1, b);
      }
    } else {
      MulSum(align, 1, b);
    }
    assert Mul(align, 1) == align;
  }

  /** A block that both decoders can decode. */
  ghost predicate WellFormed(f: Format, block: seq<byte>) {
    Headers(f, block) && Enough(f, |block|) && forall ch: nat :: ch < f.channels ==> block[ch] as nat < f.numCoeff
  }

  /** Of such a block the player plays everything; the samples are 16-bit numbers, which full gain leaves as
      they are. */
  lemma BothPlayTheSame(f: Format, block: seq<byte>, l: nat, s: nat)
    requires Headers(f, block) && Enough(f, l)
    ensures Playable(f, l) == Mul(f.channels, f.Count())
    ensures Scaled(SampleAt(f, block, s), 100) == SampleAt(f, block, s) && -32768 <= SampleAt(f, block, s) <= 32767
  {
    var c := f.channels;
    MulSum(c, 2, f.Count() - 2);
    MulIs(c, 2);
    SlotOf(c, s);
    SampleIs16Bit(f, block, ChannelOf(c, s), TimeOf(c, s));
    FullGain(SampleAt(f, block, s));
  }

  /** The two decoders, each at work on the same well-formed block of `bsize` bytes: they play the same. */
  method DecodeBoth(f: Format, buf: seq<byte>, bsize: nat) returns (player: seq<int>, test: seq<int>)
    requires bsize < |buf| && WellFormed(f, buf[..bsize])
    ensures player == test && |player| == Mul(f.channels, f.Count())
    ensures forall s :: 0 <= s < |player| ==> player[s] == SampleAt(f, buf, s) && -32768 <= player[s] <= 32767
  {
    var count := f.channels * f.Count();
    MulIs(f.channels, f.Count());
    BothPlayTheSame(f, buf, bsize, 0);
    var out, out' := new int[2 * bsize](_ => 0), new int[count](_ => 0);
    var n, _ := DecodeMsAdpcm(f, buf, bsize, bsize, out);
    var m := UncompressBlock(f, buf, 100, out', 0);
    player, test := out[..n], out'[..m];
    forall s | 0 <= s < count ensures player[s] == test[s] == SampleAt(f, buf, s) && -32768 <= player[s] <= 32767 {
      BothPlayTheSame(f, buf, bsize, s);
      assert out'[0 + s] == Scaled(SampleAt(f, buf, s), 100);
    }
  }

  ghost predicate BlockPlayed(f: Format, data: seq<byte>, align: nat, gain: nat, out: seq<int>, b: nat) {
    Mul(align, b + 1) <= |data|
      && Played(f, BlockOf(data, align, b), gain, out, Mul(Mul(f.channels, f.Count()), b), Mul(f.channels, f.Count()))
  }

  lemma BlockStays(f: Format, data: seq<byte>, align: nat, gain: nat, before: seq<int>, out: seq<int>, b: nat, at: nat)
    requires BlockPlayed(f, data, align, gain, before, b)
    requires Mul(Mul(f.channels, f.Count()), b + 1) <= at <= |before| == |out|
    requires out[..at] == before[..at]
    ensures BlockPlayed(f, data, align, gain, out, b)
  {
    var from := Mul(Mul(f.channels, f.Count()), b);
    forall s: nat | s < Mul(f.channels, f.Count())
      ensures out[from + s] == Scaled(SampleAt(f, BlockOf(data, align, b), s), gain) {
      assert out[..at][from + s] == before[..at][from + s];
    }
  }

  /** The test sounds: every block but the last is decoded, each as the player would, behind the one before. */
  method UncompressWave(f: Format, data: seq<byte>, align: nat, gain: nat, out: array<int>) returns (outp: nat)
    requires align > 0 && Mul(Mul(f.channels, f.Count()), Blocks(|data|, align)) <= out.Length
    requires forall b: nat :: b < Blocks(|data|, align) && Mul(align, b + 1) <= |data| ==>
      WellFormed(f, BlockOf(data, align, b))
    modifies out
    ensures outp == Mul(Mul(f.channels, f.Count()), Blocks(|data|, align))
    ensures forall b: nat :: b < Blocks(|data|, align) ==> BlockPlayed(f, data, align, gain, out[..], b)
  {
    outp := 0;
    var dataleft: nat, ppp: nat := |data|, 0;
    ghost var b, all, per := 0, Blocks(|data|, align), Mul(f.channels, f.Count());
    while dataleft > align
      invariant dataleft + ppp == |data| && ppp == Mul(align, b) && b + Blocks(dataleft, align) == all
      invariant outp == Mul(per, b) && forall b': nat :: b' < b ==> BlockPlayed(f, data, align, gain, out[..], b')
      decreases dataleft
    {
      var buf := data[ppp..ppp + align];
      BlocksFit(|data|, align, b);
      assert buf == BlockOf(data, align, b);
      if b + 1 < all {
        MulGrows(per, b + 1, all);
      }
      ghost var before := out[..];
      var n := UncompressBlock(f, buf, gain, out, outp);
      forall b': nat | b' < b ensures BlockPlayed(f, data, align, gain, out[..], b') {
        if b' + 1 < b {
          MulGrows(per, b' + 1, b);
        }
        BlockStays(f, data, align, gain, before, out[..], b', outp);
      }
      assert BlockPlayed(f, data, align, gain, out[..], b);
      ppp, dataleft, outp, b := ppp + align, dataleft - align, outp + n, b + 1;
    }
  }
}
