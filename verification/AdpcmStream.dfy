/** Decoding a stream in whatever portions the system reads it: raw IMA ADPCM, Creative ADPCM, and
    Fibonacci and exponential delta. */
module AdpcmStream {
  import opened Basics
  import opened Bytes
  import opened Adpcm
  import opened Weave
  import opened ImaDecoder

  /** Where a Creative code lies in its byte: the sign bit, how far to move it down, its mask plus one. */
  datatype Field = Field(sign: nat, down: nat, span: nat)

  function Table(k: Codec): (t: seq<Field>)
    requires k.Creative()
    ensures |t| == Ratio(k) && forall j :: 0 <= j < |t| ==> t[j].sign > 0 && t[j].down > 0 && t[j].span > 0
  {
    match k
    case Creative2 => [Field(128, 64, 2), Field(32, 16, 2), Field(8, 4, 2), Field(2, 1, 2)]
    case Creative3 => [Field(128, 32, 4), Field(16, 4, 4), Field(2, 1, 2)]
    case Creative4 => [Field(128, 16, 8), Field(8, 1, 8)]
  }

  lemma TopBit(q: nat)
    ensures q % 4 == 2 * (q / 2 % 2) + q % 2 && q % 8 == 4 * (q / 4 % 2) + q % 4 && q % 16 == 8 * (q / 8 % 2) + q % 8
  {
    assert q == 4 * (q / 2 / 2) + (2 * (q / 2 % 2) + q % 2);
    assert q == 8 * (q / 4 / 2) + (4 * (q / 4 % 2) + q % 4);
    assert q == 16 * (q / 8 / 2) + (8 * (q / 8 % 2) + q % 8);
  }

  /** The sign bit lies on top of the value. */
  lemma SignOnTop(q: nat, span: nat, sign: int)
    requires span == 2 || span == 4 || span == 8
    requires sign == if q / span % 2 == 1 then -1 else 1
    ensures Signed(q % (2 * span), span) == sign * (q % span)
  {
    TopBit(q);
    if span == 2 {
    } else if span == 4 {
    } else {
    }
  }

  /** The sign and the value that the table picks are the code. */
  lemma TableCodes(k: Codec, b: byte, j: nat, sign: int)
    requires k.Creative() && j < Ratio(k)
    requires sign == if b as int / Table(k)[j].sign % 2 == 1 then -1 else 1
    ensures ByteCodes(k, b)[j] == sign * (b as int / Table(k)[j].down % Table(k)[j].span)
  {
    var x, f := b as nat, Table(k)[j];
    Downwards(x);
    assert x / f.sign == x / f.down / f.span;
    SignOnTop(x / f.down, f.span, sign);
  }

  lemma Downwards(x: nat)
    ensures x / 128 == x / 64 / 2 == x / 32 / 4 == x / 16 / 8
    ensures x / 32 == x / 16 / 2 && x / 16 == x / 4 / 4 && x / 8 == x / 4 / 2
    ensures x / 1 == x
  {
  }

  lemma DoubledSign(sign: int, value: nat, times: nat)
    requires sign == 1 || sign == -1
    ensures sign * Doubled(value, times) == Doubled(sign * value, times)
  {
  }

  /** The first sample, and the table of steps, of a decoder that has just been set up. */
  function Start(k: Codec, first: byte): (s: State)
    requires !k.Ima3?
    ensures InRange(k, s)
  {
    if k == Ima4 then State(0, 0) else State(first as int, Shift(k))
  }

  /** The codes of the first `i` halves of bytes. */
  function HalfCodes(k: Codec, buf: seq<byte>, i: nat): seq<int>
    requires (k == Fibonacci || k == Exponential) && i <= 2 * |buf|
  {
    if i % 2 == 0 then Codes(k, buf[..i / 2]) else Codes(k, buf[..i / 2]) + [ByteCodes(k, buf[i / 2])[0]]
  }

  lemma NextHalf(k: Codec, buf: seq<byte>, i: nat)
    requires (k == Fibonacci || k == Exponential) && i < 2 * |buf|
    ensures HalfCodes(k, buf, i + 1) == HalfCodes(k, buf, i) + [ByteCodes(k, buf[i / 2])[i % 2]]
  {
    if i % 2 == 0 {
      assert (i + 1) / 2 == i / 2;
    } else {
      assert (i + 1) / 2 == i / 2 + 1;
      SecondHalf(k, buf, i / 2);
    }
  }

  lemma SecondHalf(k: Codec, buf: seq<byte>, n: nat)
    requires (k == Fibonacci || k == Exponential) && n < |buf|
    ensures Codes(k, buf[..n + 1]) == Codes(k, buf[..n]) + [ByteCodes(k, buf[n])[0]] + [ByteCodes(k, buf[n])[1]]
  {
    var codes := ByteCodes(k, buf[n]);
    CodesOneMore(k, buf[..n], buf[n]);
    assert buf[..n + 1] == buf[..n] + [buf[n]] && codes == [codes[0]] + [codes[1]];
    Regroup(Codes(k, buf[..n]), [codes[0]], [codes[1]]);
  }

  class Decoder {
    const codec: Codec
    const outbuf: array<int>
    var pred: int
    var step: int

    ghost predicate Valid()
      reads this
    {
      !codec.Ima3? && InRange(codec, Current())
    }

    ghost function Current(): State
      reads this
    {
      State(pred, step)
    }

    /** `bsize` is the most that is read at a time; the output buffer is as large as its samples. */
    constructor (codec: Codec, first: byte, bsize: nat)
      requires !codec.Ima3?
      ensures Valid() && Current() == Start(codec, first) && this.codec == codec
      ensures fresh(outbuf) && outbuf.Length == Ratio(codec) * bsize
    {
      this.codec := codec;
      pred := if codec == Ima4 then 0 else first;
      step := if codec == Ima4 then 0 else Shift(codec);
      outbuf := new int[Ratio(codec) * bsize](_ => 0);
    }

    /** What a decoding of `bytes` must do. */
    twostate predicate Decoded(bytes: seq<byte>, outl: nat)
      requires old(Valid())
      reads this, outbuf
    {
      && Valid()
      && outl == Ratio(codec) * |bytes| <= outbuf.Length
      && outbuf[..outl] == Samples(codec, old(Current()), Codes(codec, bytes))
      && Current() == After(codec, old(Current()), Codes(codec, bytes))
    }

    method Emit(n: nat, x: int)
      requires n < outbuf.Length
      modifies outbuf
      ensures outbuf[..n + 1] == old(outbuf[..n]) + [x]
    {
      outbuf[n] := x;
    }

    /** The samples of one byte of Creative ADPCM go to the place `n` of the output. */
    method CreativeByte(b: byte, n: nat, s: State) returns (r: State)
      requires codec.Creative() && InRange(codec, s) && n + Ratio(codec) <= outbuf.Length
      modifies outbuf
      ensures outbuf[..n + Ratio(codec)] == old(outbuf[..n]) + Samples(codec, s, ByteCodes(codec, b))
      ensures InRange(codec, r) && r == After(codec, s, ByteCodes(codec, b))
    {
      r := s;
      var table, limit, shift := Table(codec), Limit(codec), Shift(codec);
      ghost var codes, before := ByteCodes(codec, b), outbuf[..n];
      for j := 0 to Ratio(codec)
        invariant InRange(codec, r) && r == After(codec, s, codes[..j])
        invariant outbuf[..n + j] == before + Samples(codec, s, codes[..j])
      {
        var sign := if b as int / table[j].sign % 2 == 1 then -1 else 1;
        var value := b as int / table[j].down % table[j].span;
        MoreSamples(codec, s, codes, j, before);
        TableCodes(codec, b, j, sign);
        r := CreativeSample(r, sign, value, limit, shift, codes[j]);
        Emit(n + j, r.pred);
      }
      assert codes[..Ratio(codec)] == codes;
    }

    /** The body of the innermost loop. */
    method CreativeSample(s: State, sign: int, value: nat, limit: nat, shift: nat, ghost code: int) returns (r: State)
      requires codec.Creative() && limit == Limit(codec) && shift == Shift(codec) && InRange(codec, s)
      requires (sign == 1 || sign == -1) && code == sign * value
      ensures InRange(codec, r) && r == Step(codec, s, code)
    {
      var step: nat := s.step;
      DoubledSign(sign, value, step);
      var pred := s.pred + sign * Doubled(value, step);
      if pred > 255 {
        pred := 255;
      } else if pred < 0 {
        pred := 0;
      }
      if value >= limit && step < 3 + shift {
        step := step + 1;
      }
      if value == 0 && step > shift {
        step := step - 1;
      }
      r := State(pred, step);
    }

    /** Half of a byte, the high one first. */
    method Nibble(b: byte, i: nat) returns (d: nat)
      requires codec == Fibonacci || codec == Exponential
      ensures d < 16 && d == ByteCodes(codec, b)[i % 2]
    {
      d := b;
      if i % 2 == 1 {
        d := d % 16;
      } else {
        d := d / 16;
      }
    }

    /** The same for the delta codes; there is one loop over the halves of all bytes. */
    method FibHalf(b: byte, i: nat, s: State, table: seq<int>) returns (r: State)
      requires (codec == Fibonacci && table == FIBONACCI) || (codec == Exponential && table == EXPONENTIAL)
      requires InRange(codec, s) && i < outbuf.Length
      modifies outbuf
      ensures InRange(codec, r) && r == Step(codec, s, ByteCodes(codec, b)[i % 2])
      ensures outbuf[..i + 1] == old(outbuf[..i]) + [r.pred]
    {
      var d := Nibble(b, i);
      var x := s.pred + table[d];
      if x > 255 {
        x := 255;
      }
      if x < 0 {
        x := 0;
      }
      outbuf[i] := x;
      r := State(x, s.step);
    }

    /** One channel, as far as one can tell. */
    method DecodeRawIma(buf: seq<byte>) returns (outl: nat)
      requires Valid() && codec == Ima4 && 2 * |buf| <= outbuf.Length
      modifies this, outbuf
      ensures Decoded(buf, outl)
    {
      var s := State(pred, step);
      ghost var samples := Samples(Ima4, s, Codes(Ima4, buf));
      CodesLength(Ima4, buf);
      WovenAlone(outbuf[..], samples);
      s := DecodeIma(outbuf, 0, buf, s, 1);
      pred, step := s.pred, s.step;
      outl := 2 * |buf|;
    }

    /** `n` samples of `bytes` have been written, and the state is `s`. */
    ghost predicate Wrote(start: State, bytes: seq<byte>, s: State, n: nat)
      requires codec.Creative() && InRange(codec, start)
      reads outbuf
    {
      && InRange(codec, s) && s == After(codec, start, Codes(codec, bytes))
      && n <= outbuf.Length && outbuf[..n] == Samples(codec, start, Codes(codec, bytes))
    }

    method CreativeNext(b: byte, n: nat, s: State, ghost start: State, ghost bytes: seq<byte>) returns (r: State)
      requires codec.Creative() && InRange(codec, start)
      requires Wrote(start, bytes, s, n) && n + Ratio(codec) <= outbuf.Length
      modifies outbuf
      ensures Wrote(start, bytes + [b], r, n + Ratio(codec))
    {
      CodesOneMore(codec, bytes, b);
      Resumed(codec, start, Codes(codec, bytes), ByteCodes(codec, b));
      r := CreativeByte(b, n, s);
    }

    method DecodeCr(buf: seq<byte>) returns (outl: nat)
      requires Valid() && codec.Creative() && Ratio(codec) * |buf| <= outbuf.Length
      modifies this, outbuf
      ensures Decoded(buf, outl)
    {
      var s, n, ratio := State(pred, step), 0, Ratio(codec);
      ghost var start := s;
      for i := 0 to |buf|
        invariant n == ratio * i && Wrote(start, buf[..i], s, n)
      {
        RoomForOne(ratio, i, |buf|);
        assert buf[..i + 1] == buf[..i] + [buf[i]];
        s := CreativeNext(buf[i], n, s, start, buf[..i]);
        n := n + ratio;
      }
      assert buf[..|buf|] == buf;
      pred, step := s.pred, s.step;
      outl := n;
    }

    method DecodeFib(buf: seq<byte>) returns (outl: nat)
      requires Valid() && (codec == Fibonacci || codec == Exponential) && 2 * |buf| <= outbuf.Length
      modifies this, outbuf
      ensures Decoded(buf, outl)
    {
      var s, table := State(pred, step), if codec == Exponential then EXPONENTIAL else FIBONACCI;
      ghost var start := s;
      for i := 0 to 2 * |buf|
        invariant InRange(codec, s) && s == After(codec, start, HalfCodes(codec, buf, i))
        invariant outbuf[..i] == Samples(codec, start, HalfCodes(codec, buf, i))
      {
        NextHalf(codec, buf, i);
        OneMore(codec, start, HalfCodes(codec, buf, i), ByteCodes(codec, buf[i / 2])[i % 2]);
        s := FibHalf(buf[i / 2], i, s, table);
      }
      assert buf[..|buf|] == buf && HalfCodes(codec, buf, 2 * |buf|) == Codes(codec, buf);
      pred, step := s.pred, s.step;
      outl := 2 * |buf|;
    }

    /** The decoder that was set up. */
    method Decode(buf: seq<byte>) returns (outl: nat)
      requires Valid() && Ratio(codec) * |buf| <= outbuf.Length
      modifies this, outbuf
      ensures Decoded(buf, outl)
    {
      match codec
      case Ima4 => outl := DecodeRawIma(buf);
      case Fibonacci => outl := DecodeFib(buf);
      case Exponential => outl := DecodeFib(buf);
      case Creative2 => outl := DecodeCr(buf);
      case Creative3 => outl := DecodeCr(buf);
      case Creative4 => outl := DecodeCr(buf);
    }
  }

  lemma RoomForOne(ratio: nat, i: nat, n: nat)
    requires i < n
    ensures ratio * i + ratio <= ratio * n && ratio * (i + 1) == ratio * i + ratio
  {
    OneByteMore(ratio, i + 1);
    Grows(ratio, i + 1, n);
  }

  lemma {:induction false} Grows(ratio: nat, i: nat, n: nat)
    requires i <= n
    ensures ratio * i <= ratio * n
    decreases n - i
  {
    if i < n {
      Grows(ratio, i + 1, n);
    }
  }

  /** The loop of `play`: read, decode, write, until the size of the sound or the end of the file is
      reached or a read fails. Read number `n` delivers `sizes(n)` bytes at most, none when it fails.
      What is written is one decoding of all that was read. */
  method Play(dec: Decoder, file: seq<byte>, filesize: nat, bsize: nat, sizes: nat -> nat)
    returns (written: seq<int>, datamark: nat)
    requires dec.Valid() && bsize > 0 && dec.outbuf.Length == Ratio(dec.codec) * bsize
    modifies dec, dec.outbuf
    ensures datamark <= Min(filesize, |file|) && dec.Valid()
    ensures written == Samples(dec.codec, old(dec.Current()), Codes(dec.codec, file[..datamark]))
    ensures (forall n :: sizes(n) > 0) ==> datamark == Min(filesize, |file|)
  {
    ghost var s := dec.Current();
    written, datamark := [], 0;
    var n := 0;
    while datamark < filesize
      invariant datamark <= Min(filesize, |file|) && dec.Valid()
      invariant written == Samples(dec.codec, s, Codes(dec.codec, file[..datamark]))
      invariant dec.Current() == After(dec.codec, s, Codes(dec.codec, file[..datamark]))
      decreases filesize - datamark
    {
      var rsize := Min(bsize, filesize - datamark);
      var got := Min(Min(rsize, sizes(n)), |file| - datamark);
      n := n + 1;
      if got == 0 {
        return;
      }
      var buf := file[datamark..datamark + got];
      Grows(Ratio(dec.codec), got, bsize);
      ghost var before, codes := file[..datamark], Codes(dec.codec, file[..datamark]);
      datamark := datamark + got;
      var outl := dec.Decode(buf);
      written := written + dec.outbuf[..outl];
      assert file[..datamark] == before + buf;
      CodesJoin(dec.codec, before, buf);
      Resumed(dec.codec, s, codes, Codes(dec.codec, buf));
    }
  }
}
