/** What makes a step of Microsoft ADPCM a step: it goes on as its coefficients tell, a half byte corrects it
    by so many deltas, and the delta follows the corrections. */
module MsAdpcmLaws {
  import opened Bytes
  import opened Adpcm
  import opened AdpcmLaws
  import opened MsAdpcm

  predicate Is16Bit(x: int) {
    -32768 <= x <= 32767
  }

  /** Half byte 0: the pair (256, 0) repeats the last sample, (0, 256) the one before it, and (512, -256) goes
      on in a straight line through both. */
  lemma GoesOn(ch: Channel)
    requires Is16Bit(ch.samp1) && Is16Bit(ch.samp2)
    ensures var c, next := ch.coeff, Next(ch, 0);
      && next.samp2 == ch.samp1 && next.coeff == c
      && (c == Coeff(256, 0) ==> next.samp1 == ch.samp1)
      && (c == Coeff(0, 256) ==> next.samp1 == ch.samp2)
      && (c == Coeff(512, -256) && Is16Bit(2 * ch.samp1 - ch.samp2) ==> next.samp1 - ch.samp1 == ch.samp1 - ch.samp2)
  {
    WholeQuotient(ch.samp1);
    WholeQuotient(ch.samp2);
    WholeQuotient(2 * ch.samp1 - ch.samp2);
  }

  lemma WholeQuotient(x: int)
    ensures Quotient(256 * x, 256) == x
  {
  }

  /** The nearest number of deltas. */
  function Deltas(d: int, delta: nat): (n: nat)
    requires delta > 0
    ensures 2 * Abs(Abs(d) - n * delta) <= delta
  {
    NearestWhole(Abs(d), delta, (2 * Abs(d) + delta) / (2 * delta));
    (2 * Abs(d) + delta) / (2 * delta)
  }

  /** An encoder's choice for the way `d`. */
  function MsCode(d: int, delta: nat): (code: nat)
    requires delta > 0
    ensures code < 16
  {
    var n := Deltas(d, delta);
    if d >= 0 then if n > 7 then 7 else n else if n > 8 then 8 else (16 - n) % 16
  }

  lemma NearestWhole(d: nat, delta: nat, n: nat)
    requires delta > 0 && n == (2 * d + delta) / (2 * delta)
    ensures 2 * Abs(d - n * delta) <= delta
  {
    assert n * (2 * delta) <= 2 * d + delta < n * (2 * delta) + 2 * delta;
    assert n * (2 * delta) == 2 * (n * delta);
  }

  /** A half byte adds so many deltas, those from 8 on counting from -8, to what half byte 0 gives. */
  lemma Corrected(ch: Channel, nibble: nat)
    requires nibble < 16 && Is16Bit(Next(ch, 0).samp1) && -32768 < Next(ch, 0).samp1 < 32767
    ensures Next(ch, nibble).samp1 ==
      Clamp(Next(ch, 0).samp1 + ch.delta * (if nibble < 8 then nibble else nibble - 16), -32768, 32767)
  {
  }

  /** Every 16-bit target between 8 deltas below and 7 above is reached to within half a delta. */
  lemma MsReaches(ch: Channel, t: int)
    requires ch.delta > 0 && -32768 < Next(ch, 0).samp1 < 32767 && Is16Bit(t)
    requires -8 * ch.delta <= t - Next(ch, 0).samp1 <= 7 * ch.delta
    ensures 2 * Abs(t - Next(ch, MsCode(t - Next(ch, 0).samp1, ch.delta)).samp1) <= ch.delta
  {
    var code := MsCode(t - Next(ch, 0).samp1, ch.delta);
    Corrected(ch, code);
    Nearest(Next(ch, 0).samp1, t, ch.delta, code, Next(ch, code).samp1);
  }

  lemma Nearest(base: int, t: int, delta: nat, code: nat, r: int)
    requires Is16Bit(base) && Is16Bit(t) && delta > 0 && -8 * delta <= t - base <= 7 * delta
    requires code == MsCode(t - base, delta)
    requires r == Clamp(base + delta * (if code < 8 then code else code - 16), -32768, 32767)
    ensures 2 * Abs(t - r) <= delta
  {
    var d, k := t - base, if code < 8 then code else code - 16;
    var n := Deltas(d, delta);
    NotTooFar(d, delta, n);
    CodeIs(d, delta, n, code);
    Gone(base, t, delta, n, k);
  }

  /** The way gone by `n` deltas. */
  lemma Gone(base: int, t: int, delta: nat, n: nat, k: int)
    requires Is16Bit(base) && Is16Bit(t) && 2 * Abs(Abs(t - base) - n * delta) <= delta
    requires k == if t >= base then n else 0 - n
    ensures 2 * Abs(t - Clamp(base + delta * k, -32768, 32767)) <= delta
  {
    Toward(n, delta, k);
    Commuted(delta, k);
    Arrived(base, t, k * delta, delta);
  }

  lemma Commuted(a: int, b: int)
    ensures a * b == b * a
  {
  }

  lemma CodeIs(d: int, delta: nat, n: nat, code: nat)
    requires delta > 0 && n == Deltas(d, delta) && n <= (if d >= 0 then 7 else 8)
    requires code == MsCode(d, delta)
    ensures (if code < 8 then code else code - 16) == if d >= 0 then n else 0 - n
  {
  }

  /** The ends of the range do not take away from what is reached. */
  lemma Arrived(base: int, t: int, move: int, delta: nat)
    requires Is16Bit(base) && Is16Bit(t) && 2 * Abs(t - base - move) <= delta
    ensures 2 * Abs(t - Clamp(base + move, -32768, 32767)) <= delta
  {
  }

  lemma NotTooFar(d: int, delta: nat, n: nat)
    requires delta > 0 && -8 * delta <= d <= 7 * delta && 2 * Abs(Abs(d) - n * delta) <= delta
    ensures n <= if d >= 0 then 7 else 8
  {
    if d >= 0 && n > 7 {
      Multiples(8, n, delta);
    } else if d < 0 && n > 8 {
      Multiples(9, n, delta);
    }
  }

  /** In tenths: what a correction by so many deltas makes of the delta. */
  function Tenths(n: nat): nat {
    if n <= 3 then 9 else if n == 4 then 12 else if n == 5 then 16 else if n == 6 then 20 else if n == 7 then 24 else 30
  }

  /** The table, and the delta, which never falls below 16. */
  lemma DeltaAdapts(ch: Channel, nibble: nat)
    requires nibble < 16
    ensures var tenths := Tenths(if nibble < 8 then nibble else 16 - nibble);
      && ADAPTION[nibble] == tenths * 256 / 10
      && (ch.delta >= 16 ==> var next := Next(ch, nibble).delta;
            && next >= 16 && (next > 16 ==> 256 * next <= ch.delta * (tenths * 256 / 10) < 256 * next + 256))
  {
  }
}
