/** The sample-by-sample decoders: IMA ADPCM with four and three bits a sample, Creative ADPCM, and
    Fibonacci and exponential delta. A decoder is a state that a code advances to the next one; the
    predictor is the sample. */
module Adpcm {
  import opened Bytes

  /** Division as C does it. */
  function Quotient(a: int, b: int): int
    requires b > 0
  {
    if a < 0 then -(-a / b) else a / b
  }

  function Clamp(x: int, low: int, high: int): (r: int)
    requires low <= high
    ensures low <= r <= high
  {
    if x > high then high else if x < low then low else x
  }

  /** The table of steps, in four parts. */
  const STEPS_0: seq<int> := [
    7, 8, 9, 10, 11, 12, 13, 14, 16, 17, 19, 21, 23, 25, 28, 31, 34, 37, 41, 45, 50, 55, 60]
  const STEPS_1: seq<int> := [
    66, 73, 80, 88, 97, 107, 118, 130, 143, 157, 173, 190, 209, 230, 253, 279, 307, 337, 371, 408, 449, 494]
  const STEPS_2: seq<int> := [
    544, 598, 658, 724, 796, 876, 963, 1060, 1166, 1282, 1411, 1552, 1707, 1878, 2066, 2272, 2499, 2749, 3024, 3327,
    3660, 4026]
  const STEPS_3: seq<int> := [
    4428, 4871, 5358, 5894, 6484, 7132, 7845, 8630, 9493, 10442, 11487, 12635, 13899, 15289, 16818, 18500, 20350,
    22385, 24623, 27086, 29794, 32767]

  function StepOf(i: nat): int
    requires i <= 88
  {
    if i < 23 then STEPS_0[i]
    else if i < 45 then STEPS_1[i - 23]
    else if i < 67 then STEPS_2[i - 45]
    else STEPS_3[i - 67]
  }

  const INDEX_TAB_4: seq<int> := [-1, -1, -1, -1, 2, 4, 6, 8, -1, -1, -1, -1, 2, 4, 6, 8]
  const INDEX_TAB_3: seq<int> := [-1, -1, 1, 2, -1, -1, 1, 2]

  const FIBONACCI: seq<int> := [-34, -21, -13, -8, -5, -3, -2, -1, 0, 1, 2, 3, 5, 8, 13, 21]
  const EXPONENTIAL: seq<int> := [-128, -64, -32, -16, -8, -4, -2, -1, 0, 1, 2, 4, 8, 16, 32, 64]

  /** Creative ADPCM comes with 2, 3 (2.6) and 4 bits a sample. */
  datatype Codec = Ima4 | Ima3 | Creative2 | Creative3 | Creative4 | Fibonacci | Exponential {
    predicate Creative() {
      Creative2? || Creative3? || Creative4?
    }
  }

  /** The predictor, and the step: the index into the table of steps, or the shift of Creative ADPCM. */
  datatype State = State(pred: int, step: int)

  function Shift(k: Codec): nat {
    if k == Creative2 then 2 else 0
  }

  function Limit(k: Codec): nat {
    match k
    case Creative2 => 1
    case Creative3 => 3
    case _ => 5
  }

  /** What decoders keep within. */
  predicate InRange(k: Codec, s: State) {
    match k
    case Ima4 => -32768 <= s.pred <= 32767 && 0 <= s.step <= 88
    case Ima3 => -32768 <= s.pred <= 32767 && 0 <= s.step <= 88
    case Fibonacci => 0 <= s.pred <= 255
    case Exponential => 0 <= s.pred <= 255
    case _ => 0 <= s.pred <= 255 && Shift(k) <= s.step <= Shift(k) + 3
  }

  function ImaStep(s: State, magnitude: nat, negative: bool, move: int): State
    requires 0 <= s.step <= 88
  {
    var change := (2 * magnitude + 1) * StepOf(s.step);
    State(Clamp(s.pred + Quotient(if negative then -change else change, 4), -32768, 32767), Clamp(s.step + move, 0, 88))
  }

  function Doubled(x: int, times: nat): int {
    if times == 0 then x else 2 * Doubled(x, times - 1)
  }

  /** The code of Creative ADPCM is a signed number. */
  function CreativeStep(k: Codec, s: State, code: int): State
    requires Shift(k) <= s.step
  {
    var magnitude := if code < 0 then -code else code;
    var up := if magnitude >= Limit(k) && s.step < 3 + Shift(k) then s.step + 1 else s.step;
    State(Clamp(s.pred + Doubled(code, s.step), 0, 255), if magnitude == 0 && up > Shift(k) then up - 1 else up)
  }

  /** One sample. */
  function Step(k: Codec, s: State, code: int): (r: State)
    requires InRange(k, s)
    ensures InRange(k, r)
  {
    match k
    case Ima4 => ImaStep(s, code % 8, code / 8 % 2 == 1, INDEX_TAB_4[code % 16])
    case Ima3 => ImaStep(s, code % 4, code / 4 % 2 == 1, INDEX_TAB_3[code % 8])
    case Fibonacci => State(Clamp(s.pred + FIBONACCI[code % 16], 0, 255), s.step)
    case Exponential => State(Clamp(s.pred + EXPONENTIAL[code % 16], 0, 255), s.step)
    case _ => CreativeStep(k, s, code)
  }

  /** The state after some codes. */
  function After(k: Codec, s: State, codes: seq<int>): (r: State)
    requires InRange(k, s)
    ensures InRange(k, r)
  {
    if codes == [] then s else Step(k, After(k, s, codes[..|codes| - 1]), codes[|codes| - 1])
  }

  /** The samples of some codes. */
  function Samples(k: Codec, s: State, codes: seq<int>): (r: seq<int>)
    requires InRange(k, s)
    ensures |r| == |codes|
  {
    if codes == [] then [] else Samples(k, s, codes[..|codes| - 1]) + [After(k, s, codes).pred]
  }

  /** One code more. */
  lemma OneMore(k: Codec, s: State, codes: seq<int>, code: int)
    requires InRange(k, s)
    ensures After(k, s, codes + [code]) == Step(k, After(k, s, codes), code)
    ensures Samples(k, s, codes + [code]) == Samples(k, s, codes) + [Step(k, After(k, s, codes), code).pred]
  {
    assert (codes + [code])[..|codes|] == codes;
  }

  /** Decoding can be interrupted anywhere and taken up again from the state reached. */
  lemma {:induction false} Resumed(k: Codec, s: State, a: seq<int>, b: seq<int>)
    requires InRange(k, s)
    ensures After(k, s, a + b) == After(k, After(k, s, a), b)
    ensures Samples(k, s, a + b) == Samples(k, s, a) + Samples(k, After(k, s, a), b)
  {
    if b == [] {
      assert a + b == a;
    } else {
      var front, last := b[..|b| - 1], b[|b| - 1];
      assert a + b == (a + front) + [last] && b == front + [last];
      Resumed(k, s, a, front);
      Regroup(Samples(k, s, a), Samples(k, After(k, s, a), front), [After(k, s, a + b).pred]);
      OneMore(k, s, a + front, last);
      OneMore(k, After(k, s, a), front, last);
    }
  }

  /** Every sample is in the range of its format. */
  lemma {:induction false} SamplesInRange(k: Codec, s: State, codes: seq<int>, t: nat)
    requires InRange(k, s) && t < |codes|
    ensures var x := Samples(k, s, codes)[t]; if k == Ima4 || k == Ima3 then -32768 <= x <= 32767 else 0 <= x <= 255
  {
    if t < |codes| - 1 {
      SamplesInRange(k, s, codes[..|codes| - 1], t);
    } else {
      assert InRange(k, After(k, s, codes));
    }
  }

  // ---------------------------------------------------------------- codes in bytes

  /** A number with its sign in the bit above it. */
  function Signed(raw: nat, sign: nat): int {
    if raw >= sign then sign - raw else raw
  }

  /** The codes in a byte. */
  function ByteCodes(k: Codec, b: byte): (r: seq<int>)
    requires !k.Ima3?
    ensures |r| == Ratio(k)
  {
    var x := b as nat;
    if k == Ima4 then [x % 16, x / 16]
    else if k == Creative2 then [Signed(x / 64 % 4, 2), Signed(x / 16 % 4, 2), Signed(x / 4 % 4, 2), Signed(x % 4, 2)]
    else if k == Creative3 then [Signed(x / 32 % 8, 4), Signed(x / 4 % 8, 4), Signed(x % 4, 2)]
    else if k == Creative4 then [Signed(x / 16 % 16, 8), Signed(x % 16, 8)]
    else [x / 16, x % 16]
  }

  /** Samples to a byte. */
  function Ratio(k: Codec): nat {
    match k
    case Creative2 => 4
    case Creative3 => 3
    case _ => 2
  }

  function Codes(k: Codec, bytes: seq<byte>): seq<int>
    requires !k.Ima3?
  {
    if bytes == [] then [] else Codes(k, bytes[..|bytes| - 1]) + ByteCodes(k, bytes[|bytes| - 1])
  }

  lemma CodesOneMore(k: Codec, bytes: seq<byte>, b: byte)
    requires !k.Ima3?
    ensures Codes(k, bytes + [b]) == Codes(k, bytes) + ByteCodes(k, b)
  {
    assert (bytes + [b])[..|bytes|] == bytes;
  }

  lemma Regroup(a: seq<int>, b: seq<int>, c: seq<int>)
    ensures a + b + c == a + (b + c)
  {
  }

  lemma {:induction false} CodesJoin(k: Codec, a: seq<byte>, b: seq<byte>)
    requires !k.Ima3?
    ensures Codes(k, a + b) == Codes(k, a) + Codes(k, b)
  {
    if b == [] {
      assert a + b == a;
    } else {
      var front, last := b[..|b| - 1], b[|b| - 1];
      assert a + b == (a + front) + [last] && b == front + [last];
      CodesJoin(k, a, front);
      CodesOneMore(k, a + front, last);
      CodesOneMore(k, front, last);
      Regroup(Codes(k, a), Codes(k, front), ByteCodes(k, last));
    }
  }

  lemma {:induction false} CodesLength(k: Codec, bytes: seq<byte>)
    requires !k.Ima3?
    ensures |Codes(k, bytes)| == Ratio(k) * |bytes|
  {
    if bytes != [] {
      CodesLength(k, bytes[..|bytes| - 1]);
      OneByteMore(Ratio(k), |bytes|);
    }
  }

  lemma OneByteMore(ratio: nat, n: nat)
    requires n > 0
    ensures ratio * n == ratio * (n - 1) + ratio
  {
  }

  /** One sample more behind what is there. */
  lemma MoreSamples(k: Codec, s: State, codes: seq<int>, j: nat, before: seq<int>)
    requires InRange(k, s) && j < |codes|
    ensures After(k, s, codes[..j + 1]) == Step(k, After(k, s, codes[..j]), codes[j])
    ensures before + Samples(k, s, codes[..j + 1])
      == before + Samples(k, s, codes[..j]) + [After(k, s, codes[..j + 1]).pred]
  {
    assert codes[..j + 1] == codes[..j] + [codes[j]];
    OneMore(k, s, codes[..j], codes[j]);
  }
}
