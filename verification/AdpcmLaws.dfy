/** What makes the decoders decoders: whatever sample an encoder wants to reach, some code brings the
    predictor close to it, and the steps follow the signal. */
module AdpcmLaws {
  import opened Basics
  import opened Bytes
  import opened Adpcm
  import opened SampleRate

  function Abs(x: int): nat {
    if x < 0 then -x else x
  }

  // ---------------------------------------------------------------- IMA

  /** Ascending, and less than 1 off eleven tenths. */
  predicate Grows(a: int, b: int) {
    a < b && Abs(10 * b - 11 * a) < 10
  }

  lemma PartsGrow(i: nat)
    ensures i < 22 ==> Grows(STEPS_0[i], STEPS_0[i + 1])
    ensures i < 21 ==> Grows(STEPS_1[i], STEPS_1[i + 1])
    ensures i < 21 ==> Grows(STEPS_2[i], STEPS_2[i + 1])
    ensures i < 20 ==> Grows(STEPS_3[i], STEPS_3[i + 1])
  {
  }

  lemma PartsMeet()
    ensures STEPS_0[0] == 7 && STEPS_3[20] < STEPS_3[21] == 32767
    ensures Grows(STEPS_0[22], STEPS_1[0]) && Grows(STEPS_1[21], STEPS_2[0]) && Grows(STEPS_2[21], STEPS_3[0])
  {
  }

  /** The steps ascend from 7 to 32767, each but the last one less than 1 off eleven tenths of the one before. */
  lemma StepsGrow(i: nat)
    requires i < 88
    ensures StepOf(0) == 7 && StepOf(88) == 32767 && StepOf(i) < StepOf(i + 1)
    ensures i < 87 ==> Grows(StepOf(i), StepOf(i + 1))
  {
    PartsMeet();
    StepGrows(i);
  }

  /** In terms of the parts. */
  lemma StepGrows(i: nat)
    requires i < 88
    ensures StepOf(i) < StepOf(i + 1) && (i < 87 ==> Grows(StepOf(i), StepOf(i + 1)))
  {
    PartsMeet();
    if i < 22 {
      PartsGrow(i);
    } else if 23 <= i < 44 {
      PartsGrow(i - 23);
    } else if 45 <= i < 66 {
      PartsGrow(i - 45);
    } else if 67 <= i {
      PartsGrow(i - 67);
    }
  }

  lemma {:induction false} StepPositive(i: nat)
    requires i <= 88
    ensures StepOf(i) >= 7
  {
    if i > 0 {
      StepPositive(i - 1);
      StepsGrow(i - 1);
    } else {
      StepsGrow(0);
    }
  }

  /** An encoder's choice for the way `d`: the sign bit, and the number of half steps that fit. */
  function ImaCode(d: int, step: nat, levels: nat): (code: nat)
    requires step > 0 && levels > 0
    ensures code < 2 * levels
  {
    Min(2 * Abs(d) / step, levels - 1) + if d < 0 then levels else 0
  }

  /** Half steps and what is left of the way are within a quarter step of the middle. */
  lemma NearestOdd(d: nat, step: nat, levels: nat, m: nat, q: int)
    requires step > 0 && levels > 0 && 2 * d <= levels * step && m == Min(2 * d / step, levels - 1)
    requires q == (2 * m + 1) * step
    ensures Abs(4 * d - q) <= step
  {
    var h: int := 2 * d / step;
    assert h * step <= 2 * d < h * step + step;
    if h >= levels {
      Multiples(levels, h, step);
      assert levels * step == m * step + step;
    } else {
      assert m == h;
    }
    assert q == 2 * (m * step) + step;
  }

  lemma {:induction false} Multiples(a: nat, b: nat, step: nat)
    requires a <= b
    ensures a * step <= b * step
    decreases b - a
  {
    if a < b {
      Multiples(a + 1, b, step);
      assert (a + 1) * step == a * step + step;
    }
  }

  /** The magnitudes of a code and the number of magnitudes. */
  function Levels(k: Codec): nat {
    if k == Ima4 then 8 else 4
  }

  /** Division by 4 toward zero. */
  lemma Quarters(change: nat, negative: bool)
    ensures 4 * (change / 4) <= change < 4 * (change / 4) + 4
    ensures Quotient(if negative then 0 - change else change, 4) == if negative then 0 - change / 4 else change / 4
  {
  }

  /** A code moves the predictor by its odd number of quarter steps, rounded toward where it was; at the ends
      of the range it stops. */
  lemma ImaMoves(k: Codec, s: State, code: nat) returns (x: nat, q: nat)
    requires (k == Ima4 || k == Ima3) && InRange(k, s) && code < 2 * Levels(k)
    ensures q == (2 * (code % Levels(k)) + 1) * StepOf(s.step) && 4 * x <= q < 4 * x + 4
    ensures Step(k, s, code).pred == Clamp(if code < Levels(k) then s.pred + x else s.pred - x, -32768, 32767)
  {
    StepPositive(s.step);
    var m, negative := code % Levels(k), code >= Levels(k);
    Product(2 * m + 1, StepOf(s.step));
    q := (2 * m + 1) * StepOf(s.step);
    x := q / 4;
    Quarters(q, negative);
    SignBit(code);
  }

  lemma Product(a: nat, b: nat)
    ensures a * b >= 0
  {
  }

  lemma SignBit(code: nat)
    ensures code < 16 ==> (code / 8 % 2 == 1 <==> code >= 8)
    ensures code < 8 ==> (code / 4 % 2 == 1 <==> code >= 4)
  {
  }

  /** The way `d` gone by `x`, which is `q` quarters. */
  lemma Approached(pred: int, t: int, x: nat, q: int, step: nat, r: int)
    requires 4 * x <= q < 4 * x + 4 && Abs(4 * Abs(t - pred) - q) <= step && -32768 <= t <= 32767
    requires -32768 <= pred <= 32767 && r == Clamp(if t < pred then pred - x else pred + x, -32768, 32767)
    ensures 4 * Abs(t - r) < step + 4 && if t < pred then r <= pred else r >= pred
  {
  }

  /** Every 16-bit target within four steps, or two with three bits, is reached to within a quarter step and
      the rounding, by a code whose sign bit tells the side. */
  lemma ImaReaches(k: Codec, s: State, t: int)
    requires (k == Ima4 || k == Ima3) && InRange(k, s) && -32768 <= t <= 32767
    requires 2 * Abs(t - s.pred) <= Levels(k) * StepOf(s.step)
    ensures StepOf(s.step) >= 7
    ensures var step := StepOf(s.step);
      var code := ImaCode(t - s.pred, step, Levels(k));
      var r := Step(k, s, code);
      && 4 * Abs(t - r.pred) < step + 4
      && (code >= Levels(k) <==> t < s.pred) && if t < s.pred then r.pred <= s.pred else r.pred >= s.pred
  {
    StepPositive(s.step);
    var step := StepOf(s.step);
    var code := ImaCode(t - s.pred, step, Levels(k));
    var x, q := ImaMoves(k, s, code);
    Reached(s.pred, t, step, Levels(k), code, x, q, Step(k, s, code).pred);
  }

  lemma Reached(pred: int, t: int, step: nat, levels: nat, code: nat, x: nat, q: nat, r: int)
    requires -32768 <= pred <= 32767 && -32768 <= t <= 32767 && step > 0 && (levels == 8 || levels == 4)
    requires 2 * Abs(t - pred) <= levels * step && code == ImaCode(t - pred, step, levels)
    requires q == (2 * (code % levels) + 1) * step && 4 * x <= q < 4 * x + 4
    requires r == Clamp(if code < levels then pred + x else pred - x, -32768, 32767)
    ensures 4 * Abs(t - r) < step + 4
    ensures (code >= levels <==> t < pred) && if t < pred then r <= pred else r >= pred
  {
    CodeMagnitude(t - pred, step, levels);
    NearestOdd(Abs(t - pred), step, levels, code % levels, q);
    Approached(pred, t, x, q, step, r);
  }

  lemma CodeMagnitude(d: int, step: nat, levels: nat)
    requires step > 0 && (levels == 8 || levels == 4)
    ensures ImaCode(d, step, levels) % levels == Min(2 * Abs(d) / step, levels - 1)
    ensures ImaCode(d, step, levels) >= levels <==> d < 0
  {
  }

  /** An encoder at work: every code is chosen from where the decoder stands by then. */
  function Encoded(k: Codec, s: State, targets: seq<int>): (codes: seq<int>)
    requires (k == Ima4 || k == Ima3) && InRange(k, s)
    ensures |codes| == |targets|
  {
    if targets == [] then []
    else
      var n := |targets| - 1;
      var codes := Encoded(k, s, targets[..n]);
      var r := After(k, s, codes);
      StepPositive(r.step);
      codes + [ImaCode(targets[n] - r.pred, StepOf(r.step), Levels(k))]
  }

  /** Where the decoder stands before every target. */
  function Befores(k: Codec, s: State, targets: seq<int>): (r: seq<State>)
    requires (k == Ima4 || k == Ima3) && InRange(k, s)
    ensures |r| == |targets| && forall i :: 0 <= i < |r| ==> InRange(k, r[i])
  {
    if targets == [] then []
    else
      var front := targets[..|targets| - 1];
      Befores(k, s, front) + [After(k, s, Encoded(k, s, front))]
  }

  /** The target is not too far from where the decoder stands. */
  predicate InReach(k: Codec, r: State, t: int)
    requires InRange(k, r) && (k == Ima4 || k == Ima3)
  {
    -32768 <= t <= 32767 && 2 * Abs(t - r.pred) <= Levels(k) * StepOf(r.step)
  }

  /** The signal never runs away from the steps. */
  predicate Followable(k: Codec, s: State, targets: seq<int>)
    requires (k == Ima4 || k == Ima3) && InRange(k, s)
  {
    targets == [] ||
    var front := targets[..|targets| - 1];
    Followable(k, s, front) && InReach(k, After(k, s, Encoded(k, s, front)), targets[|targets| - 1])
  }

  predicate Near(k: Codec, r: State, t: int, sample: int)
    requires InRange(k, r) && (k == Ima4 || k == Ima3)
  {
    4 * Abs(t - sample) < StepOf(r.step) + 4
  }

  /** The last target. */
  lemma EncodedLast(k: Codec, s: State, front: seq<int>, t: int)
    requires (k == Ima4 || k == Ima3) && InRange(k, s)
    requires InReach(k, After(k, s, Encoded(k, s, front)), t)
    ensures var r, samples := After(k, s, Encoded(k, s, front)), Samples(k, s, Encoded(k, s, front + [t]));
      samples == Samples(k, s, Encoded(k, s, front)) + [samples[|front|]] && Near(k, r, t, samples[|front|])
  {
    var codes, r := Encoded(k, s, front), After(k, s, Encoded(k, s, front));
    StepPositive(r.step);
    var code := ImaCode(t - r.pred, StepOf(r.step), Levels(k));
    assert (front + [t])[..|front|] == front;
    assert Encoded(k, s, front + [t]) == codes + [code];
    OneMore(k, s, codes, code);
    ImaReaches(k, r, t);
  }

  ghost predicate AllNear(k: Codec, befores: seq<State>, targets: seq<int>, samples: seq<int>)
    requires (k == Ima4 || k == Ima3) && |befores| == |targets| == |samples|
    requires forall i :: 0 <= i < |befores| ==> InRange(k, befores[i])
  {
    forall i :: 0 <= i < |targets| ==> Near(k, befores[i], targets[i], samples[i])
  }

  lemma OneMoreNear(k: Codec, befores: seq<State>, targets: seq<int>, samples: seq<int>, r: State, t: int, sample: int)
    requires (k == Ima4 || k == Ima3) && |befores| == |targets| == |samples| && InRange(k, r)
    requires forall i :: 0 <= i < |befores| ==> InRange(k, befores[i])
    requires AllNear(k, befores, targets, samples) && Near(k, r, t, sample)
    ensures AllNear(k, befores + [r], targets + [t], samples + [sample])
  {
  }

  /** The whole signal has been followed. */
  ghost predicate Followed(k: Codec, s: State, targets: seq<int>)
    requires (k == Ima4 || k == Ima3) && InRange(k, s)
  {
    AllNear(k, Befores(k, s, targets), targets, Samples(k, s, Encoded(k, s, targets)))
  }

  lemma FollowedMore(k: Codec, s: State, front: seq<int>, t: int)
    requires (k == Ima4 || k == Ima3) && InRange(k, s) && Followed(k, s, front)
    requires InReach(k, After(k, s, Encoded(k, s, front)), t)
    ensures Followed(k, s, front + [t])
  {
    EncodedLast(k, s, front, t);
    var r, samples := After(k, s, Encoded(k, s, front)), Samples(k, s, Encoded(k, s, front + [t]));
    assert (front + [t])[..|front|] == front;
    OneMoreNear(k, Befores(k, s, front), front, Samples(k, s, Encoded(k, s, front)), r, t, samples[|front|]);
  }

  /** The last target apart. */
  lemma FollowableFront(k: Codec, s: State, targets: seq<int>) returns (front: seq<int>, t: int)
    requires (k == Ima4 || k == Ima3) && InRange(k, s) && targets != [] && Followable(k, s, targets)
    ensures targets == front + [t] && |front| < |targets|
    ensures Followable(k, s, front) && InReach(k, After(k, s, Encoded(k, s, front)), t)
  {
    front, t := targets[..|targets| - 1], targets[|targets| - 1];
  }

  /** Encoding and decoding give a signal back that never runs away from the steps: every sample to within a
      quarter of its step and the rounding. */
  lemma {:induction false} EncodedFollowed(k: Codec, s: State, targets: seq<int>)
    requires (k == Ima4 || k == Ima3) && InRange(k, s) && Followable(k, s, targets)
    ensures Followed(k, s, targets)
    decreases |targets|
  {
    if targets != [] {
      var front, t := FollowableFront(k, s, targets);
      EncodedFollowed(k, s, front);
      FollowedMore(k, s, front, t);
    }
  }

  /** The index falls by one for the lower half of the magnitudes, and rises by two, or with three bits by
      one, for every magnitude above, between 0 and 88. */
  lemma ImaIndex(k: Codec, s: State, code: nat)
    requires (k == Ima4 || k == Ima3) && InRange(k, s) && code < 2 * Levels(k)
    ensures var m, half := code % Levels(k), Levels(k) / 2;
      var to := s.step + if m < half then -1 else (m - half + 1) * (if k == Ima4 then 2 else 1);
      Step(k, s, code).step == if to < 0 then 0 else if to > 88 then 88 else to
  {
    IndexTables(code);
    MoveOfIndex(k, s, code);
  }

  lemma MoveOfIndex(k: Codec, s: State, code: nat)
    requires (k == Ima4 || k == Ima3) && InRange(k, s) && code < 2 * Levels(k)
    ensures Step(k, s, code).step == Clamp(s.step + if k == Ima4 then INDEX_TAB_4[code] else INDEX_TAB_3[code], 0, 88)
  {
    SmallCode(code);
  }

  lemma SmallCode(code: nat)
    ensures (code < 16 ==> code % 16 == code) && (code < 8 ==> code % 8 == code)
  {
  }

  lemma IndexTables(code: nat)
    ensures code < 16 ==> INDEX_TAB_4[code] == if code % 8 < 4 then -1 else 2 * (code % 8 - 3)
    ensures code < 8 ==> INDEX_TAB_3[code] == if code % 4 < 2 then -1 else code % 4 - 1
  {
  }

  // ---------------------------------------------------------------- Creative

  lemma {:induction false} DoubledIs(x: int, n: nat)
    ensures Doubled(x, n) == x * Pow2(n)
  {
    if n > 0 {
      DoubledIs(x, n - 1);
    }
  }

  /** The magnitudes of the codes; the last code of a byte with 2.6 bits has two only. */
  function Magnitudes(k: Codec): nat {
    match k
    case Creative2 => 2
    case Creative3 => 4
    case _ => 8
  }

  function CreativeCode(d: int, unit: nat): int
    requires unit > 0
  {
    if d < 0 then -(Abs(d) / unit) else Abs(d) / unit
  }

  lemma WholeUnits(a: nat, unit: nat, n: nat)
    requires unit > 0 && a < n * unit
    ensures a / unit < n && a / unit * unit <= a < a / unit * unit + unit
  {
    if a / unit >= n {
      Multiples(n, a / unit, unit);
    }
  }

  /** Every target that the magnitudes span is reached to within less than one unit, from the near side. */
  lemma CreativeReaches(k: Codec, s: State, t: int)
    requires k.Creative() && InRange(k, s) && 0 <= t <= 255 && Abs(t - s.pred) < Magnitudes(k) * Pow2(s.step)
    ensures Pow2(s.step) > 0
    ensures var unit := Pow2(s.step); var code := CreativeCode(t - s.pred, unit); var r := Step(k, s, code);
      && Abs(code) < Magnitudes(k) && Abs(t - r.pred) < unit
      && if t < s.pred then t <= r.pred <= s.pred else s.pred <= r.pred <= t
  {
    var code := CreativeCode(t - s.pred, Pow2(s.step));
    CreativeMoves(k, s, code);
    NearSide(s.pred, t, Pow2(s.step), Magnitudes(k), code, Step(k, s, code).pred);
  }

  lemma CreativeMoves(k: Codec, s: State, code: int)
    requires k.Creative() && InRange(k, s)
    ensures Step(k, s, code).pred == Clamp(s.pred + code * Pow2(s.step), 0, 255)
  {
    DoubledIs(code, s.step);
  }

  /** The whole units are gone toward `t`. */
  lemma NearSide(pred: int, t: int, unit: nat, n: nat, code: int, r: int)
    requires 0 <= pred <= 255 && 0 <= t <= 255 && unit > 0 && Abs(t - pred) < n * unit
    requires code == CreativeCode(t - pred, unit) && r == Clamp(pred + code * unit, 0, 255)
    ensures Abs(code) < n && Abs(t - r) < unit && if t < pred then t <= r <= pred else pred <= r <= t
  {
    var m := Abs(t - pred) / unit;
    WholeUnits(Abs(t - pred), unit, n);
    assert code == if t < pred then 0 - m else m;
    Toward(m, unit, code);
  }

  lemma Toward(m: nat, unit: nat, code: int)
    requires code == m || code == 0 - m
    ensures code * unit == m * unit || code * unit == 0 - m * unit
    ensures code == m ==> code * unit == m * unit
    ensures code == 0 - m ==> code * unit == 0 - m * unit
  {
  }

  /** The unit doubles after a large code and halves after none, up to eight times the smallest. */
  lemma CreativeUnit(k: Codec, s: State, code: int)
    requires k.Creative() && InRange(k, s)
    ensures var m := Abs(code);
      var large := match k case Creative2 => m >= 1 case Creative3 => m >= 3 case _ => m >= 5;
      var least := if k == Creative2 then 2 else 0;
      Step(k, s, code).step ==
        if large && s.step < least + 3 then s.step + 1 else if m == 0 && s.step > least then s.step - 1 else s.step
  {
  }

  // ---------------------------------------------------------------- delta codes

  /** Every entry of the one table is the sum of the two before it, of the other twice the one before. */
  lemma DeltaTables(j: nat)
    requires 2 <= j < 8
    ensures FIBONACCI[8] == EXPONENTIAL[8] == 0
    ensures FIBONACCI[9] == EXPONENTIAL[9] == 1 && FIBONACCI[7] == EXPONENTIAL[7] == -1
    ensures FIBONACCI[6] == EXPONENTIAL[6] == -2
    ensures j < 7 ==> FIBONACCI[8 + j] == if j == 2 then 2 else FIBONACCI[7 + j] + FIBONACCI[6 + j]
    ensures j > 2 ==> FIBONACCI[8 - j] == FIBONACCI[9 - j] + FIBONACCI[10 - j]
    ensures EXPONENTIAL[8 + j] == 2 * EXPONENTIAL[7 + j] && EXPONENTIAL[8 - j] == 2 * EXPONENTIAL[9 - j]
  {
  }

  /** An encoder's choice: the entry next to the way `d`. */
  function FibonacciCode(d: int): (code: nat)
    ensures code < 16
  {
    var e := Abs(d);
    var n := if e <= 3 then e else if e <= 6 then 4 else if e <= 10 then 5 else if e <= 17 then 6
             else if e <= 27 then 7 else 8;
    if d < 0 then 8 - n else if n < 8 then 8 + n else 15
  }

  function ExponentialCode(d: int): (code: nat)
    ensures code < 16
  {
    var e := Abs(d);
    var n := if e <= 2 then e else if e <= 3 then 2 else if e <= 6 then 3 else if e <= 12 then 4
             else if e <= 24 then 5 else if e <= 48 then 6 else if e <= 96 then 7 else 8;
    if d < 0 then 8 - n else if n < 8 then 8 + n else 15
  }

  /** Every target that the table spans is reached, up to a quarter of the way. */
  lemma FibonacciReaches(s: State, t: int)
    requires InRange(Fibonacci, s) && 0 <= t <= 255 && -34 <= t - s.pred <= 21
    ensures 4 * Abs(t - Step(Fibonacci, s, FibonacciCode(t - s.pred)).pred) <= Abs(t - s.pred)
  {
  }

  /** The same up to a third of it. */
  lemma ExponentialReaches(s: State, t: int)
    requires InRange(Exponential, s) && 0 <= t <= 255 && -128 <= t - s.pred <= 64
    ensures 3 * Abs(t - Step(Exponential, s, ExponentialCode(t - s.pred)).pred) <= Abs(t - s.pred)
  {
  }
}
