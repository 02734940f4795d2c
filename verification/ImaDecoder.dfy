/** The two decoders of IMA ADPCM, for one channel in a buffer that several channels share. */
module ImaDecoder {
  import opened Bytes
  import opened Adpcm
  import opened Weave

  // ---------------------------------------------------------------- three bits a sample

  function Eighth(raw: nat, times: nat): nat {
    if times == 0 then raw else Eighth(raw / 8, times - 1)
  }

  /** The first `n` codes of three bytes. */
  function TripleCodes(raw: nat, n: nat): (r: seq<int>)
    ensures |r| == n
  {
    seq(n, j requires 0 <= j => Eighth(raw, j) % 8)
  }

  /** A group of three bytes as a number. */
  function Raw(buf: seq<byte>, n: nat): nat
    requires 3 * n + 3 <= |buf|
  {
    LeValue(buf[3 * n..3 * n + 3])
  }

  /** The codes of the first `n` groups of three bytes. */
  function Codes3(buf: seq<byte>, n: nat): (r: seq<int>)
    requires 3 * n <= |buf|
    ensures |r| == 8 * n
  {
    if n == 0 then [] else Codes3(buf, n - 1) + TripleCodes(Raw(buf, n - 1), 8)
  }

  // ---------------------------------------------------------------- one sample

  lemma SignOutside(sign: int, a: nat, b: int)
    requires sign == 1 || sign == -1
    ensures sign * a * b == if sign == 1 then a * b else -(a * b)
  {
  }

  /** The predictor and the index move on, each within its range. */
  method Move(s: State, value: nat, sign: int, move: int) returns (r: State)
    requires 0 <= s.step <= 88 && (sign == 1 || sign == -1)
    ensures r == ImaStep(s, value, sign == -1, move)
  {
    var size, index := StepOf(s.step), s.step + move;
    if index < 0 {
      index := 0;
    } else if index > 88 {
      index := 88;
    }
    SignOutside(sign, 2 * value + 1, size);
    var pred := s.pred + Quotient(sign * (2 * value + 1) * size, 4);
    if pred > 32767 {
      pred := 32767;
    } else if pred < -32768 {
      pred := -32768;
    }
    r := State(pred, index);
  }

  /** The bodies of the innermost loops. */
  method ImaSample(k: Codec, s: State, code: nat) returns (r: State)
    requires (k == Ima4 && code < 16) || (k == Ima3 && code < 8)
    requires InRange(k, s)
    ensures InRange(k, r) && r == Step(k, s, code)
  {
    if k == Ima4 {
      assert code % 16 == code;
      r := Move(s, code % 8, 1 - 2 * (code / 8 % 2), INDEX_TAB_4[code]);
    } else {
      assert code % 8 == code;
      r := Move(s, code % 4, 1 - 2 * (code / 4 % 2), INDEX_TAB_3[code]);
    }
  }

  /** The buffer after the samples of some codes. */
  function Written(k: Codec, out: seq<int>, first: nat, c: nat, s: State, codes: seq<int>): (r: seq<int>)
    requires InRange(k, s) && (codes != [] ==> first + Mul(c, |codes| - 1) < |out|)
    ensures |r| == |out|
  {
    Woven(out, first, c, Samples(k, s, codes))
  }

  lemma WrittenMore(k: Codec, out: seq<int>, first: nat, c: nat, s: State, codes: seq<int>, code: int)
    requires InRange(k, s) && first + Mul(c, |codes|) < |out|
    ensures codes != [] ==> first + Mul(c, |codes| - 1) < |out|
    ensures var r := Step(k, After(k, s, codes), code);
      && After(k, s, codes + [code]) == r
      && Written(k, out, first, c, s, codes + [code])
        == Written(k, out, first, c, s, codes)[first + Mul(c, |codes|) := r.pred]
  {
    OneMore(k, s, codes, code);
    WovenMore(out, first, c, Samples(k, s, codes), Step(k, After(k, s, codes), code).pred);
  }

  // ---------------------------------------------------------------- the decoders

  /** What a decoder has done so far: the buffer and the state. */
  ghost predicate Decoded(k: Codec, out: seq<int>, first: nat, c: nat, before: seq<int>, s0: State, codes: seq<int>,
                          s: State) {
    && InRange(k, s0) && InRange(k, s) && s == After(k, s0, codes)
    && (codes != [] ==> first + Mul(c, |codes| - 1) < |before|)
    && out == Written(k, before, first, c, s0, codes)
  }

  lemma NothingDecoded(k: Codec, out: seq<int>, first: nat, c: nat, s: State)
    requires InRange(k, s)
    ensures Decoded(k, out, first, c, out, s, [], s)
  {
  }

  /** Sample number `n` into its place. */
  method Place(k: Codec, out: array<int>, first: nat, c: nat, n: nat, s: State, code: nat,
               ghost before: seq<int>, ghost s0: State, ghost codes: seq<int>) returns (r: State)
    requires (k == Ima4 && code < 16) || (k == Ima3 && code < 8)
    requires Decoded(k, out[..], first, c, before, s0, codes, s) && n == |codes| && first + Mul(c, n) < out.Length
    modifies out
    ensures Decoded(k, out[..], first, c, before, s0, codes + [code], r)
  {
    WrittenMore(k, before, first, c, s0, codes, code);
    MulIs(c, n);
    r := ImaSample(k, s, code);
    out[first + c * n] := r.pred;
  }

  lemma NextCode(start: seq<int>, all: seq<int>, j: nat)
    requires j < |all|
    ensures start + all[..j] + [all[j]] == start + all[..j + 1]
  {
  }

  /** Room for the first samples if there is for all. */
  lemma Room(first: nat, c: nat, n: nat, all: nat, length: nat)
    requires n < all && first + Mul(c, all - 1) < length
    ensures first + Mul(c, n) < length
  {
    if n < all - 1 {
      MulGrows(c, n, all - 1);
    }
  }

  method Half(b: byte, j: nat) returns (value: nat)
    requires j < 2
    ensures value < 16 && value == ByteCodes(Ima4, b)[j]
  {
    value := if j == 0 then b as int % 16 else b as int / 16 % 16;
  }

  /** The two samples of a byte, the low half first. */
  method DecodeByte(out: array<int>, first: nat, c: nat, n: nat, b: byte, s: State,
                    ghost before: seq<int>, ghost s0: State, ghost start: seq<int>) returns (r: State)
    requires Decoded(Ima4, out[..], first, c, before, s0, start, s)
    requires n == |start| && first + Mul(c, n + 1) < out.Length
    modifies out
    ensures Decoded(Ima4, out[..], first, c, before, s0, start + ByteCodes(Ima4, b), r)
  {
    r := s;
    ghost var codes := ByteCodes(Ima4, b);
    assert start + codes[..0] == start;
    for j := 0 to 2
      invariant Decoded(Ima4, out[..], first, c, before, s0, start + codes[..j], r)
    {
      var value := Half(b, j);
      Room(first, c, n + j, n + 2, out.Length);
      NextCode(start, codes, j);
      r := Place(Ima4, out, first, c, n + j, r, value, before, s0, start + codes[..j]);
    }
    assert codes[..2] == codes;
  }

  /** Byte number `i`. */
  method NextByte(out: array<int>, first: nat, c: nat, i: nat, buf: seq<byte>, s: State,
                  ghost before: seq<int>, ghost s0: State, ghost done: seq<byte>) returns (r: State)
    requires i < |buf| && done == buf[..i] && first + Mul(c, 2 * i + 1) < out.Length
    requires |Codes(Ima4, done)| == 2 * i && Decoded(Ima4, out[..], first, c, before, s0, Codes(Ima4, done), s)
    modifies out
    ensures |Codes(Ima4, buf[..i + 1])| == 2 * (i + 1)
    ensures Decoded(Ima4, out[..], first, c, before, s0, Codes(Ima4, buf[..i + 1]), r)
  {
    assert buf[..i + 1] == done + [buf[i]];
    CodesOneMore(Ima4, done, buf[i]);
    r := DecodeByte(out, first, c, 2 * i, buf[i], s, before, s0, Codes(Ima4, done));
  }

  /** Four bits a sample. */
  method DecodeIma(out: array<int>, first: nat, buf: seq<byte>, s: State, c: nat) returns (r: State)
    requires InRange(Ima4, s) && (buf != [] ==> first + Mul(c, 2 * |buf| - 1) < out.Length)
    modifies out
    ensures |Codes(Ima4, buf)| == 2 * |buf| && Decoded(Ima4, out[..], first, c, old(out[..]), s, Codes(Ima4, buf), r)
  {
    r := s;
    ghost var before := out[..];
    for i := 0 to |buf|
      invariant |Codes(Ima4, buf[..i])| == 2 * i
      invariant Decoded(Ima4, out[..], first, c, before, s, Codes(Ima4, buf[..i]), r)
    {
      Room(first, c, 2 * i + 1, 2 * |buf|, out.Length);
      r := NextByte(out, first, c, i, buf, r, before, s, buf[..i]);
    }
    assert buf[..|buf|] == buf;
  }

  lemma NextTripleCode(start: seq<int>, raw: nat, j: nat)
    ensures start + TripleCodes(raw, j) + [Eighth(raw, j) % 8] == start + TripleCodes(raw, j + 1)
  {
  }

  /** The eight samples of three bytes. */
  method DecodeTriple(out: array<int>, first: nat, c: nat, n: nat, raw: nat, s: State,
                      ghost before: seq<int>, ghost s0: State, ghost start: seq<int>) returns (r: State)
    requires Decoded(Ima3, out[..], first, c, before, s0, start, s)
    requires n == |start| && first + Mul(c, n + 7) < out.Length
    modifies out
    ensures Decoded(Ima3, out[..], first, c, before, s0, start + TripleCodes(raw, 8), r)
  {
    r := s;
    assert start + TripleCodes(raw, 0) == start;
    for j := 0 to 8
      invariant Decoded(Ima3, out[..], first, c, before, s0, start + TripleCodes(raw, j), r)
    {
      var value := Eighth(raw, j) % 8;
      Room(first, c, n + j, n + 8, out.Length);
      NextTripleCode(start, raw, j);
      r := Place(Ima3, out, first, c, n + j, r, value, before, s0, start + TripleCodes(raw, j));
    }
  }

  /** Three bytes are eight samples. */
  method PlaceOf(i: nat, ghost g: nat) returns (n: nat)
    requires i == 3 * g
    ensures n == 8 * g
  {
    n := 8 * i / 3;
  }

  lemma MoreTriples(buf: seq<byte>, g: nat)
    requires 3 * g + 3 <= |buf|
    ensures Codes3(buf, g + 1) == Codes3(buf, g) + TripleCodes(Raw(buf, g), 8)
  {
  }

  method ReadTriple(buf: seq<byte>, i: nat, ghost g: nat) returns (raw: nat)
    requires i == 3 * g && i + 3 <= |buf|
    ensures raw == Raw(buf, g)
  {
    RawValue(buf[i..i + 3]);
    raw := buf[i] as int + buf[i + 1] as int * 256 + buf[i + 2] as int * 65536;
  }

  lemma TripleRoom(first: nat, c: nat, g: nat, l: nat, length: nat)
    requires 3 * g + 3 <= l && first + Mul(c, l / 3 * 8 - 1) < length
    ensures first + Mul(c, 8 * g + 7) < length
  {
    Room(first, c, 8 * g + 7, l / 3 * 8, length);
  }

  method TripleAt(out: array<int>, first: nat, c: nat, n: nat, raw: nat, s: State,
                  ghost before: seq<int>, ghost s0: State, ghost buf: seq<byte>, ghost g: nat) returns (r: State)
    requires 3 * g + 3 <= |buf| && raw == Raw(buf, g) && n == 8 * g && first + Mul(c, n + 7) < out.Length
    requires Decoded(Ima3, out[..], first, c, before, s0, Codes3(buf, g), s)
    modifies out
    ensures Decoded(Ima3, out[..], first, c, before, s0, Codes3(buf, g + 1), r)
  {
    MoreTriples(buf, g);
    r := DecodeTriple(out, first, c, n, raw, s, before, s0, Codes3(buf, g));
  }

  /** Group `g` of three bytes is read. */
  method TripleRead(out: array<int>, first: nat, c: nat, i: nat, buf: seq<byte>, s: State,
                    ghost before: seq<int>, ghost s0: State, ghost g: nat) returns (r: State)
    requires i == 3 * g && i + 3 <= |buf| && first + Mul(c, 8 * g + 7) < out.Length
    requires Decoded(Ima3, out[..], first, c, before, s0, Codes3(buf, g), s)
    modifies out
    ensures Decoded(Ima3, out[..], first, c, before, s0, Codes3(buf, g + 1), r)
  {
    var raw := ReadTriple(buf, i, g);
    var n := PlaceOf(i, g);
    r := TripleAt(out, first, c, n, raw, s, before, s0, buf, g);
  }

  method NextTriple(out: array<int>, first: nat, c: nat, i: nat, buf: seq<byte>, s: State,
                    ghost before: seq<int>, ghost s0: State, ghost g: nat) returns (r: State)
    requires i == 3 * g && i + 3 <= |buf| && first + Mul(c, |buf| / 3 * 8 - 1) < out.Length
    requires Decoded(Ima3, out[..], first, c, before, s0, Codes3(buf, g), s)
    modifies out
    ensures Decoded(Ima3, out[..], first, c, before, s0, Codes3(buf, g + 1), r)
  {
    TripleRoom(first, c, g, |buf|, out.Length);
    r := TripleRead(out, first, c, i, buf, s, before, s0, g);
  }

  lemma Thirds(l: nat, g: nat)
    requires 3 * g <= l < 3 * g + 3
    ensures l / 3 == g
  {
  }

  /** Three bits a sample; one or two bytes left over at the end are not looked at. */
  method DecodeIma3(out: array<int>, first: nat, buf: seq<byte>, s: State, c: nat) returns (r: State)
    requires InRange(Ima3, s) && (|buf| >= 3 ==> first + Mul(c, |buf| / 3 * 8 - 1) < out.Length)
    modifies out
    ensures Decoded(Ima3, out[..], first, c, old(out[..]), s, Codes3(buf, |buf| / 3), r)
  {
    r := s;
    ghost var before := out[..];
    var i := 0;
    ghost var g: nat := 0;
    NothingDecoded(Ima3, before, first, c, s);
    while i + 2 < |buf|
      invariant i == 3 * g <= |buf|
      invariant Decoded(Ima3, out[..], first, c, before, s, Codes3(buf, g), r)
    {
      r := NextTriple(out, first, c, i, buf, r, before, s, g);
      g := g + 1;
      i := i + 3;
    }
    Thirds(|buf|, g);
  }

  lemma RawValue(b: seq<byte>)
    requires |b| == 3
    ensures LeValue(b) == b[0] as int + b[1] as int * 256 + b[2] as int * 65536
  {
    assert b[1..][1..] == b[2..] && b[2..][1..] == [];
    assert LeValue(b[2..]) == b[2] as int;
    assert LeValue(b[1..]) == b[1] as int + 256 * LeValue(b[2..]);
  }
}
