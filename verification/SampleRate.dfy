/** Sample rates as the recorder stores them and the player reads them: the 80-bit extended number of
    AIFF and the 64-bit number of CAF, over the real numbers. */
module SampleRate {
  import opened Basics
  import opened Bytes

  function Pow2(n: nat): (p: nat)
    ensures p > 0
  {
    if n == 0 then 1 else 2 * Pow2(n - 1)
  }

  /** `x` times two to the power `e`, by doubling and halving. */
  function Scale(x: real, e: int): real
    decreases if e < 0 then -e else e
  {
    if e == 0 then x else if e > 0 then Scale(2.0 * x, e - 1) else Scale(x / 2.0, e + 1)
  }

  lemma {:induction false} Pow2Sum(a: nat, b: nat)
    ensures Pow2(a + b) == Pow2(a) * Pow2(b)
  {
    if a > 0 {
      Pow2Sum(a - 1, b);
      assert Pow2(a + b) == 2 * Pow2(a - 1 + b);
    }
  }

  lemma Pow2Grows(a: nat, b: nat)
    requires a <= b
    ensures Pow2(a) <= Pow2(b)
  {
    Pow2Sum(a, b - a);
    Multiple(Pow2(a), Pow2(b - a));
  }

  lemma Multiple(p: nat, q: nat)
    requires q > 0
    ensures p <= p * q
  {
  }

  lemma {:induction false} ScaleUp(x: real, a: nat, b: nat)
    ensures Scale(Scale(x, a), b) == Scale(x, a + b)
    decreases a
  {
    if a > 0 {
      ScaleUp(2.0 * x, a - 1, b);
    }
  }

  lemma {:induction false} ScaleDown(x: real, a: nat, b: nat)
    ensures Scale(Scale(x, 0 - a as int), 0 - b as int) == Scale(x, 0 - a as int - b as int)
    decreases a
  {
    if a > 0 {
      ScaleDown(x / 2.0, a - 1, b);
    }
  }

  /** What `Scale` is: multiplication by a power of two, or division by one. */
  lemma {:induction false} ScaleMultiplies(x: real, n: nat, factor: real)
    requires factor == Pow2(n) as real
    ensures Scale(x, n) == x * factor
    decreases n
  {
    if n > 0 {
      ScaleMultiplies(2.0 * x, n - 1, factor / 2.0);
    }
  }

  lemma {:induction false} ScaleDivides(x: real, n: nat)
    ensures Scale(x, 0 - n as int) == x / Pow2(n) as real
    decreases n
  {
    if n > 0 {
      ScaleDivides(x / 2.0, n - 1);
      DivideTwice(x, 2.0, Pow2(n - 1) as real);
    }
  }

  lemma DivideTwice(x: real, p: real, q: real)
    requires p > 0.0 && q > 0.0
    ensures p * q > 0.0 && x / p / q == x / (p * q)
  {
    var y := x / p / q;
    assert y * q == x / p;
    assert y * (p * q) == y * q * p == x;
  }

  lemma StepUp(num: real, n: nat, factor: real, exp: nat)
    requires exp > n && factor == Pow2(n) as real
    ensures Scale(num * factor, exp - n) == Scale(num, exp)
  {
    ScaleUp(num, n, exp - n);
    ScaleMultiplies(num, n, factor);
  }

  lemma StepDown(num: real, n: nat, factor: real, exp: nat)
    requires exp > n && factor == Pow2(n) as real
    ensures Scale(num / factor, n as int - exp as int) == Scale(num, 0 - exp as int)
  {
    ScaleDown(num, n, exp - n);
    ScaleDivides(num, n);
  }

  /** The emulation of `ldexpl` multiplies by exactly the power of two, for every exponent. */
  method Ldexpl(x: real, e: int) returns (num: real)
    ensures num == Scale(x, e)
  {
    num := x;
    var exp := e;
    var chunk: nat := 31;
    var factor := Pow2(chunk) as real;
    if exp > 0 {
      while exp > chunk
        invariant 0 < exp && Scale(num, exp) == Scale(x, e)
      {
        StepUp(num, chunk, factor, exp);
        num := num * factor;
        exp := exp - chunk;
      }
      factor := Pow2(exp) as real;
      ScaleMultiplies(num, exp, factor);
      num := num * factor;
    } else if exp < 0 {
      while exp < -(chunk as int)
        invariant exp < 0 && Scale(num, exp) == Scale(x, e)
        decreases -exp
      {
        StepDown(num, chunk, factor, -exp);
        num := num / factor;
        exp := exp + chunk;
      }
      ScaleDivides(num, -exp);
      num := num / Pow2(-exp) as real;
    }
  }

  // ---------------------------------------------------------------- the writer

  /** The position of the highest bit. */
  function Log2(n: nat): (i: nat)
    requires n > 0
    ensures Pow2(i) <= n < Pow2(i + 1)
  {
    if n == 1 then 0 else Log2(n / 2) + 1
  }

  lemma Log2Unique(n: nat, i: nat)
    requires n > 0 && Pow2(i) <= n < Pow2(i + 1)
    ensures i == Log2(n)
  {
    if i < Log2(n) {
      Pow2Grows(i + 1, Log2(n));
    } else if i > Log2(n) {
      Pow2Grows(Log2(n) + 1, i);
    }
  }

  lemma Log2Below(n: nat, k: nat)
    requires 0 < n < Pow2(k)
    ensures Log2(n) < k
  {
    if Log2(n) >= k {
      Pow2Grows(k, Log2(n));
    }
  }

  /** The exponent search of the header writer. */
  method FindExponent(speed: nat) returns (i: nat)
    requires speed > 0
    ensures i == Log2(speed)
  {
    i := 0;
    while Pow2(i + 1) <= speed
      invariant Pow2(i) <= speed
      decreases speed - Pow2(i)
    {
      i := i + 1;
    }
    Log2Unique(speed, i);
  }

  /** `x << n`. */
  function ShiftLeft(x: nat, n: nat): nat
    decreases n
  {
    if n == 0 then x else ShiftLeft(2 * x, n - 1)
  }

  lemma {:induction false} ShiftMultiplies(x: nat, n: nat)
    ensures ShiftLeft(x, n) == x * Pow2(n)
    decreases n
  {
    if n > 0 {
      ShiftMultiplies(2 * x, n - 1);
      Product(x, 2, Pow2(n - 1));
    }
  }

  lemma {:induction false} ShiftTwice(x: nat, a: nat, b: nat)
    ensures ShiftLeft(x, a + b) == ShiftLeft(ShiftLeft(x, a), b)
    decreases a
  {
    if a > 0 {
      ShiftTwice(2 * x, a - 1, b);
    }
  }

  lemma Product(a: int, b: int, c: int)
    ensures a * (b * c) == a * b * c
  {
  }

  /** The mantissa without its leading one, moved up to bit `top` of a 32-bit number. */
  function Mantissa(speed: nat, top: nat): nat
    requires speed > 0
    ensures Mantissa(speed, top) < U32
  {
    var i := Log2(speed);
    if i > top then 0 else ShiftLeft(speed - Pow2(i), top - i) % U32
  }

  /** The AIFF rate field for exponent `i` and mantissa `m`; the exponent byte is an unsigned byte, so
      exponent -1 becomes 255. */
  function AiffField(i: nat, m: nat): (r: seq<byte>)
    ensures |r| == 10
  {
    [64, (i - 1) % 256, m / 16777216 % 128 + 128, m / 65536 % 256, m / 256 % 256, m % 256, 0, 0, 0, 0]
  }

  /** The CAF rate field; the low four bits of the exponent share a byte with the mantissa. */
  function CafField(i: nat, m: nat): (r: seq<byte>)
    ensures |r| == 8
  {
    [64, (i - 1) % 16 * 16 + m / 268435456 % 16,
     m / 1048576 % 256, m / 4096 % 256, m / 16 % 256, m % 256 / 16 * 16, 0, 0]
  }

  function AiffRate(speed: nat): (r: seq<byte>)
    requires speed > 0
    ensures |r| == 10
  {
    AiffField(Log2(speed), Mantissa(speed, 31))
  }

  /** The shift by 32 for rate 1 shifts zero. */
  function CafRate(speed: nat): (r: seq<byte>)
    requires speed > 0
    ensures |r| == 8
  {
    CafField(Log2(speed), Mantissa(speed, 32))
  }

  // ---------------------------------------------------------------- the reader

  /** The speed read: a number of Hertz, an error, or a rate that does not fit the `int` it is stored in. */
  datatype Speed = Hertz(hz: nat) | Invalid | TooLarge

  function ToSpeed(rate: real): Speed {
    if rate <= 0.0 then Invalid
    else if rate >= 2147483648.0 then TooLarge
    else Hertz(rate.Floor)
  }

  function AiffExponent(buf: seq<byte>): int
    requires |buf| == 10
  {
    (buf[0] as int) % 128 * 256 + buf[1] as int - 16383
  }

  function AiffMantissa(buf: seq<byte>): nat
    requires |buf| == 10
  {
    (buf[2] as int) % 128 * 16777216 + buf[3] as int * 65536 + buf[4] as int * 256 + buf[5] as int
  }

  function AiffSpeed(buf: seq<byte>): Speed
    requires |buf| == 10
  {
    var exp := AiffExponent(buf);
    var rate := Scale(AiffMantissa(buf) as real, exp - 31) + if buf[2] >= 128 then Scale(1.0, exp) else 0.0;
    if exp == 16384 then Invalid else ToSpeed(if buf[0] >= 128 then -rate else rate)
  }

  function CafExponent(buf: seq<byte>): int
    requires |buf| == 8
  {
    (buf[0] as int) % 128 * 16 + buf[1] as int / 16 - 1023
  }

  function CafMantissa(buf: seq<byte>): nat
    requires |buf| == 8
  {
    (buf[1] as int) % 16 * 65536 + buf[2] as int * 256 + buf[3] as int
  }

  function CafSpeed(buf: seq<byte>): Speed
    requires |buf| == 8
  {
    var exp := CafExponent(buf);
    var rate := Scale(CafMantissa(buf) as real, exp - 20) + if exp != -1023 then Scale(1.0, exp) else 0.0;
    if exp == 1024 then Invalid else ToSpeed(if buf[0] >= 128 then -rate else rate)
  }

  // ---------------------------------------------------------------- round trips

  lemma {:induction false} ScaledBack(d: nat, n: nat)
    ensures Scale(ShiftLeft(d, n) as real, 0 - n as int) == d as real
    decreases n
  {
    if n > 0 {
      ScaledBack(d, n - 1);
      ShiftTwice(d, n - 1, 1);
      assert ShiftLeft(d, n) == 2 * ShiftLeft(d, n - 1);
    }
  }

  lemma {:induction false} ScaledPower(k: nat, n: nat)
    ensures Scale(Pow2(k) as real, n) == Pow2(k + n) as real
    decreases n
  {
    if n > 0 {
      ScaledPower(k + 1, n - 1);
    }
  }

  lemma {:induction false} ScaledBelow(x: real, a: nat, b: nat)
    requires 0.0 <= x < Pow2(a + b) as real
    ensures 0.0 <= Scale(x, 0 - b as int) < Pow2(a) as real
    decreases b
  {
    if b > 0 {
      ScaledBelow(x / 2.0, a, b - 1);
    }
  }

  lemma {:induction false} ShiftBelow(d: nat, i: nat, n: nat)
    requires d < Pow2(i)
    ensures ShiftLeft(d, n) < Pow2(i + n)
    decreases n
  {
    if n > 0 {
      ShiftBelow(2 * d, i + 1, n - 1);
    }
  }

  lemma SmallModulo(x: nat)
    requires x < U32
    ensures x % U32 == x
  {
  }

  lemma Powers()
    ensures Pow2(16) == 65536 && Pow2(17) == 131072 && Pow2(31) == 0x8000_0000 && Pow2(32) == U32
  {
    Pow2Sum(8, 8);
    Pow2Sum(16, 15);
    Pow2Sum(16, 16);
  }

  /** A mantissa of at most 32 bits is not cut. */
  lemma NotCut(m: nat, top: nat)
    requires m < Pow2(top) && top <= 32
    ensures m % U32 == m
  {
    Pow2Grows(top, 32);
    Powers();
    SmallModulo(m);
  }

  /** The mantissa fits below its leading one. */
  lemma MantissaExact(speed: nat, top: nat)
    requires speed > 0 && Log2(speed) <= top <= 32
    ensures var i := Log2(speed); Mantissa(speed, top) == ShiftLeft(speed - Pow2(i), top - i) < Pow2(top)
  {
    var i := Log2(speed);
    ShiftBelow(speed - Pow2(i), i, top - i);
    NotCut(ShiftLeft(speed - Pow2(i), top - i), top);
  }

  lemma SumIsHertz(m: real, p: nat, speed: nat)
    requires p <= speed < 0x8000_0000 && 0 < speed && m == (speed - p) as real
    ensures ToSpeed(m + p as real) == Hertz(speed)
  {
  }

  /** Mantissa and leading one, each scaled by the exponent, make the rate. */
  lemma RateRestored(speed: nat, top: nat, m: nat, i: nat, rate: real)
    requires 0 < speed < 0x8000_0000 && i == Log2(speed) <= top <= 32 && m == Mantissa(speed, top)
    requires rate == Scale(m as real, i as int - top) + Scale(1.0, i)
    ensures ToSpeed(rate) == Hertz(speed)
  {
    MantissaExact(speed, top);
    ScaledBack(speed - Pow2(i), top - i);
    ScaledPower(0, i);
    SumIsHertz(Scale(m as real, i as int - top), Pow2(i), speed);
  }

  /** A number from its bytes. */
  lemma Recombined(q: nat)
    ensures q / 65536 * 65536 + q / 256 % 256 * 256 + q % 256 == q
  {
    assert q / 256 == q / 65536 * 256 + q / 256 % 256;
  }

  lemma TopByte(m: nat)
    requires m < 0x8000_0000
    ensures (m / 16777216 % 128 + 128) % 128 == m / 256 / 65536 && m / 65536 % 256 == m / 256 / 256 % 256
  {
    assert m / 16777216 == m / 256 / 65536 && m / 65536 == m / 256 / 256;
  }

  /** What the reader finds in a written AIFF field. */
  lemma AiffFieldRead(i: nat, m: nat)
    requires i < 31 && m < 0x8000_0000
    ensures var buf := AiffField(i, m);
      && buf[0] < 128 && buf[2] >= 128 && AiffMantissa(buf) == m
      && AiffExponent(buf) == if i == 0 then 256 else i
  {
    TopByte(m);
    Recombined(m / 256);
    assert m == m / 256 * 256 + m % 256;
  }

  lemma SmallSpeed(speed: nat)
    requires 0 < speed < 0x8000_0000
    ensures Log2(speed) < 31 && Mantissa(speed, 31) < 0x8000_0000
  {
    Powers();
    Log2Below(speed, 31);
    MantissaExact(speed, 31);
  }

  lemma AiffReads(buf: seq<byte>, m: nat, e: nat, rate: real)
    requires |buf| == 10 && buf[0] < 128 && buf[2] >= 128 && AiffMantissa(buf) == m && AiffExponent(buf) == e <= 256
    requires rate == Scale(m as real, e as int - 31) + Scale(1.0, e)
    ensures AiffSpeed(buf) == ToSpeed(rate)
  {
  }

  /** The speed read from a written field, through mantissa and exponent. */
  lemma AiffSpeedIs(speed: nat, m: nat, e: nat, rate: real)
    requires 0 < speed < 0x8000_0000 && m == Mantissa(speed, 31) && e == (if Log2(speed) == 0 then 256 else Log2(speed))
    requires rate == Scale(m as real, e as int - 31) + Scale(1.0, e)
    ensures AiffSpeed(AiffRate(speed)) == ToSpeed(rate)
  {
    SmallSpeed(speed);
    AiffFieldRead(Log2(speed), m);
    AiffReads(AiffRate(speed), m, e, rate);
  }

  /** AIFF rates survive, every one but 1, which comes back as an enormous number. */
  lemma AiffRateRoundTrip(speed: nat)
    requires 0 < speed < 0x8000_0000
    ensures AiffSpeed(AiffRate(speed)) == Hertz(speed) <==> speed >= 2
    ensures speed == 1 ==> AiffSpeed(AiffRate(speed)) == TooLarge
  {
    var i, m := Log2(speed), Mantissa(speed, 31);
    var e := if i == 0 then 256 else i;
    var rate := Scale(m as real, e as int - 31) + Scale(1.0, e);
    AiffSpeedIs(speed, m, e, rate);
    Powers();
    if speed >= 2 {
      Log2Above(speed, 1);
      Log2Below(speed, 31);
      RateRestored(speed, 31, m, i, rate);
    } else {
      HugeRate(m);
    }
  }

  lemma HugeRate(m: nat)
    ensures Scale(1.0, 256) >= 2147483648.0 && Scale(m as real, 256 - 31) >= 0.0
  {
    Powers();
    Pow2Grows(31, 256);
    ScaledPower(0, 256);
    NeverNegative(m as real, 256 - 31);
  }

  lemma {:induction false} NeverNegative(x: real, n: nat)
    requires x >= 0.0
    ensures Scale(x, n) >= 0.0
    decreases n
  {
    if n > 0 {
      NeverNegative(2.0 * x, n - 1);
    }
  }

  lemma CafBytes(m: nat)
    requires m < U32
    ensures m / 268435456 % 16 == m / 4096 / 65536 && m / 1048576 % 256 == m / 4096 / 256 % 256
  {
    assert m / 268435456 == m / 4096 / 65536 && m / 1048576 == m / 4096 / 256;
  }

  /** What the reader finds in a written CAF field: the low 12 bits of the mantissa are not read, and
      only four bits of the exponent are there. */
  lemma CafFieldRead(i: nat, m: nat)
    requires m < U32
    ensures var buf := CafField(i, m);
      buf[0] < 128 && CafMantissa(buf) == m / 4096 < 1048576 && CafExponent(buf) == 1 + (i as int - 1) % 16
  {
    CafBytes(m);
    Nibbles((i as int - 1) % 16, m / 268435456 % 16);
    Recombined(m / 4096);
  }

  /** With an exponent of at most 16 the low 12 bits of the mantissa are zero. */
  lemma ShortMantissa(speed: nat)
    requires 0 < speed && Log2(speed) <= 20
    ensures Mantissa(speed, 32) / 4096 == Mantissa(speed, 20)
  {
    var d, n := speed - Pow2(Log2(speed)), 20 - Log2(speed);
    MantissaExact(speed, 32);
    MantissaExact(speed, 20);
    ShiftTwice(d, n, 12);
    ShiftBy12(ShiftLeft(d, n));
  }

  lemma ShiftBy12(x: nat)
    ensures ShiftLeft(x, 12) / 4096 == x
  {
    ShiftMultiplies(x, 12);
    assert Pow2(12) == 4096;
  }

  /** The rate read from a field with mantissa `m` and exponent `e`. */
  lemma CafReads(buf: seq<byte>, m: nat, e: nat, rate: real)
    requires |buf| == 8 && buf[0] < 128 && CafMantissa(buf) == m && CafExponent(buf) == e <= 16
    requires rate == Scale(m as real, e as int - 20) + Scale(1.0, e)
    ensures CafSpeed(buf) == ToSpeed(rate)
  {
  }

  /** The speed read from a written field, through mantissa and exponent. */
  lemma CafSpeedIs(speed: nat, m: nat, e: nat, rate: real)
    requires 0 < speed && m == Mantissa(speed, 32) / 4096 && e == 1 + (Log2(speed) as int - 1) % 16
    requires rate == Scale(m as real, e as int - 20) + Scale(1.0, e)
    ensures CafSpeed(CafRate(speed)) == ToSpeed(rate) && m < 1048576
  {
    CafFieldRead(Log2(speed), Mantissa(speed, 32));
    CafReads(CafRate(speed), m, e, rate);
  }

  /** The numbers in the field of a rate below 2 to the power of 17. */
  lemma CafShortFields(speed: nat) returns (m: nat, i: nat)
    requires 2 <= speed < 131072
    ensures m == Mantissa(speed, 32) / 4096 == Mantissa(speed, 20)
    ensures 1 <= i == Log2(speed) <= 16 && i == 1 + (i as int - 1) % 16
  {
    m, i := Mantissa(speed, 20), Log2(speed);
    Powers();
    Log2Below(speed, 17);
    Log2Above(speed, 1);
    ShortMantissa(speed);
  }

  /** CAF rates survive from 2 up to 131071; beyond, four bits of exponent are not enough, and 1 becomes 65536. */
  lemma CafRateRoundTrip(speed: nat)
    requires 0 < speed < 0x8000_0000
    ensures CafSpeed(CafRate(speed)) == Hertz(speed) <==> 2 <= speed < 131072
    ensures !CafSpeed(CafRate(speed)).Invalid?
  {
    var m, e := Mantissa(speed, 32) / 4096, 1 + (Log2(speed) as int - 1) % 16;
    var rate := Scale(m as real, e as int - 20) + Scale(1.0, e);
    CafSpeedIs(speed, m, e, rate);
    if 2 <= speed < 131072 {
      var m', i := CafShortFields(speed);
      RateRestored(speed, 20, m', i, rate);
    } else {
      CafWrongRate(speed, m, e, rate);
    }
  }

  /** A mantissa of at most 20 bits scales to less than the leading one. */
  lemma BelowOne(m: nat, e: nat)
    requires m < 1048576 && 1 <= e <= 16
    ensures 0.0 <= Scale(m as real, e as int - 20) < Pow2(e) as real && Scale(1.0, e) == Pow2(e) as real
  {
    Pow2Sum(10, 10);
    assert Pow2(10) == 1024;
    ScaledBelow(m as real, e, 20 - e);
    ScaledPower(0, e);
  }

  lemma CafWrongRate(speed: nat, m: nat, e: nat, rate: real)
    requires speed == 1 || 131072 <= speed < 0x8000_0000
    requires m < 1048576 && e == 1 + (Log2(speed) as int - 1) % 16
    requires rate == Scale(m as real, e as int - 20) + Scale(1.0, e)
    ensures ToSpeed(rate) != Hertz(speed) && !ToSpeed(rate).Invalid?
  {
    Powers();
    BelowOne(m, e);
    if speed > 1 {
      Log2Below(speed, 31);
      Log2Above(speed, 17);
      Pow2Grows(e + 1, Log2(speed));
    }
  }

  lemma Log2Above(n: nat, k: nat)
    requires n >= Pow2(k)
    ensures Log2(n) >= k
  {
    if Log2(n) < k {
      Pow2Grows(Log2(n) + 1, k);
    }
  }
}
