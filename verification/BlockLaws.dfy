/** What is written into a block of IMA ADPCM is what is read from it: the codes in their bytes, and the
    headers of the packets and blocks. */
module BlockLaws {
  import opened Bytes
  import opened Adpcm
  import opened ImaDecoder
  import opened ImaBlocks

  /** A byte is made of its two codes: of IMA the first is the low half, of the delta codes the high one. */
  lemma ByteOfCodes(k: Codec, b: byte)
    requires k == Ima4 || k == Fibonacci || k == Exponential
    ensures var codes := ByteCodes(k, b);
      && 0 <= codes[0] < 16 && 0 <= codes[1] < 16
      && b as int == if k == Ima4 then codes[0] + 16 * codes[1] else 16 * codes[0] + codes[1]
  {
  }

  /** The number made of codes of three bits, the first the lowest. */
  function OfThrees(codes: seq<int>): int {
    if codes == [] then 0 else codes[0] + 8 * OfThrees(codes[1..])
  }

  /** Three bytes are made of their eight codes. */
  lemma TripleOfCodes(raw: nat)
    requires raw < 16777216
    ensures OfThrees(TripleCodes(raw, 8)) == raw
  {
    ThreesLeft(raw, 0);
    assert TripleCodes(raw, 8)[0..] == TripleCodes(raw, 8);
  }

  lemma {:induction false} ThreesLeft(raw: nat, j: nat)
    requires raw < 16777216 && j <= 8
    ensures OfThrees(TripleCodes(raw, 8)[j..]) == Eighth(raw, j)
    decreases 8 - j
  {
    EighthBounded(raw, j);
    if j < 8 {
      ThreesLeft(raw, j + 1);
      EighthNext(raw, j);
      assert TripleCodes(raw, 8)[j..][1..] == TripleCodes(raw, 8)[j + 1..];
    }
  }

  lemma {:induction false} EighthNext(raw: nat, j: nat)
    ensures Eighth(raw, j + 1) == Eighth(raw, j) / 8
  {
    if j > 0 {
      EighthNext(raw / 8, j - 1);
    }
  }

  /** Eight to the power `n`. */
  function Pow8(n: nat): nat {
    if n == 0 then 1 else 8 * Pow8(n - 1)
  }

  lemma {:induction false} EighthBounded(raw: nat, j: nat)
    requires raw < 16777216 && j <= 8
    ensures Eighth(raw, j) < Pow8(8 - j)
  {
    if j > 0 {
      EighthBounded(raw, j - 1);
      EighthNext(raw, j - 1);
    } else {
      assert Pow8(8) == 16777216;
    }
  }

  /** A number with its sign, from its two bytes as an unsigned one. */
  lemma SignedBack(x: int)
    requires -32768 <= x <= 32767
    ensures Int16(x % 65536) == x
  {
  }

  /** The header of an Apple packet: the upper nine bits of the predictor and the index, most significant byte
      first. */
  lemma MacHeaderBack(buf: seq<byte>, p: nat, pred: int, index: nat)
    requires 34 * p + 34 <= |buf| && -32768 <= pred <= 32767 && pred % 128 == 0 && index <= 88
    requires 256 * buf[34 * p] as int + buf[34 * p + 1] as int == pred % 65536 + index
    ensures MacState(buf, p) == State(pred, index)
  {
    var low := buf[34 * p + 1] as nat;
    SignedBack(pred);
    assert (pred % 65536) % 128 == 0;
    assert low % 128 == index && 256 * buf[34 * p] as int + low / 128 * 128 == pred % 65536;
  }

  /** The header of a Microsoft block: the predictor, least significant byte first, and the index. */
  lemma MsHeaderBack(buf: seq<byte>, ch: nat, pred: int, index: nat)
    requires 4 * ch + 4 <= |buf| && -32768 <= pred <= 32767 && index <= 88
    requires buf[4 * ch..4 * ch + 2] == Le(pred % 65536, 2) && buf[4 * ch + 2] as int == index
    ensures MsHeader(buf, ch) == State(pred, index)
  {
    assert Pow256(2) == 65536;
    LeRoundTrip(pred % 65536, 2);
    SignedBack(pred);
  }
}
