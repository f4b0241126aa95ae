/** How far the fixed-point results of env_sensor.c are from the exact ones. The reference is the
    compensation formula over the reals, as the BMP280 datasheet writes it in section 8.1; the integer form
    of section 3.11.3 rounds it down after every shift. */
module EnvAccuracy {
  import opened Basics
  import opened EnvSensor

  function ExactLinear(c: Calibration, adc: int): real {
    (adc as real / 16384.0 - c.t1 as real / 1024.0) * c.t2 as real
  }

  function ExactSquare(c: Calibration, adc: int): real {
    var y := adc as real / 131072.0 - c.t1 as real / 8192.0;
    y * y * c.t3 as real
  }

  function ExactTFine(c: Calibration, adc: int): real { ExactLinear(c, adc) + ExactSquare(c, adc) }

  /** Degrees Celsius. */
  function ExactTemperature(c: Calibration, adc: int): real { ExactTFine(c, adc) / 5120.0 }

  function ExactOffset(c: Calibration, v: real): real {
    (v * v * c.p6 as real / 32768.0 + v * c.p5 as real * 2.0) / 4.0 + c.p4 as real * 65536.0
  }

  function ExactDivisor(c: Calibration, v: real): real {
    var slope := (c.p3 as real * v * v / 524288.0 + c.p2 as real * v) / 524288.0;
    (1.0 + slope / 32768.0) * c.p1 as real
  }

  function ExactRatio(c: Calibration, v: real, adc: int): real
    requires ExactDivisor(c, v) != 0.0
  {
    (1048576.0 - adc as real - ExactOffset(c, v) / 4096.0) * 6250.0 / ExactDivisor(c, v)
  }

  function ExactCorrection(c: Calibration, p: real): real {
    p + (c.p9 as real * p * p / 2147483648.0 + p * c.p8 as real / 32768.0 + c.p7 as real) / 16.0
  }

  /** Pascal. */
  function ExactPressure(c: Calibration, tFine: int, adc: int): real {
    var v := tFine as real / 2.0 - 64000.0;
    if ExactDivisor(c, v) == 0.0 then 0.0 else ExactCorrection(c, ExactRatio(c, v, adc))
  }

  // ---- temperature --------------------------------------------------------------------------------

  lemma RealMulLe(x: real, y: real, k: real)
    requires x <= y && k >= 0.0
    ensures x * k <= y * k
  {
  }

  lemma NonNegative(x: real, y: real)
    requires x >= 0.0 && y >= 0.0
    ensures x * y >= 0.0
  {
  }

  lemma ProductBound(x: real, y: real, a: real, b: real)
    requires 0.0 <= x <= a && 0.0 <= y <= b
    ensures 0.0 <= x * y <= a * b
  {
    NonNegative(x, y);
    RealMulLe(x, a, y);
    RealMulLe(y, b, a);
    Commute(a, y);
    Commute(a, b);
  }

  lemma Commute(x: real, y: real)
    ensures x * y == y * x
  {
  }

  lemma Distribute(x: real, y: real, k: real)
    ensures (x + y) * k == x * k + y * k
  {
  }

  lemma NegateProduct(x: real, y: real)
    ensures (-x) * y == -(x * y) && x * (-y) == -(x * y)
  {
  }

  /** x * y for |x| <= a and 0 <= y <= b. */
  lemma RealMulBound(x: real, y: real, a: real, b: real)
    requires -a <= x <= a && 0.0 <= y <= b
    ensures -(a * b) <= x * y <= a * b
  {
    RealMulLe(x, a, y);
    RealMulLe(-a, x, y);
    RealMulLe(y, b, a);
    Commute(a, y);
    Commute(a, b);
    NegateProduct(a, y);
  }

  lemma RealMulBoundSigned(x: real, y: real, a: real, b: real)
    requires -a <= x <= a && -b <= y <= b
    ensures -(a * b) <= x * y <= a * b
  {
    if y >= 0.0 {
      RealMulBound(x, y, a, b);
    } else {
      RealMulBound(x, -y, a, b);
      NegateProduct(x, y);
    }
  }

  lemma ProductToReal(x: int, y: int)
    ensures (x * y) as real == x as real * y as real
  {
  }

  lemma FloorError(x: int, k: int)
    requires k > 0
    ensures x as real - k as real < (x / k) as real * k as real <= x as real
  {
    ProductToReal(x / k, k);
  }

  lemma RoundDown(p: int, e: real)
    requires 0.0 <= e <= 28672.0
    ensures 0.0 <= p as real + e - 2048.0 * (p / 2048) as real <= 30720.0
  {
  }

  /** Rounding a quotient by eight down and a product by 2048. */
  lemma LinearRounding(u: int, d: real, t2: int)
    requires 0.0 <= d <= 0.875 && 0 <= t2 < 0x8000
    ensures 0.0 <= (u as real + d) * t2 as real - 2048.0 * (u * t2 / 2048) as real <= 30720.0
  {
    ProductBound(d, t2 as real, 0.875, 32767.0);
    Distribute(u as real, d, t2 as real);
    ProductToReal(u, t2);
    RoundDown(u * t2, d * t2 as real);
  }

  lemma Unscaled(x: real, w: real, y: real, l: real)
    requires w == x * 2048.0 && 0.0 <= w * y - 2048.0 * l <= 30720.0
    ensures 0.0 <= x * y - l <= 15.0
  {
    assert x == w / 2048.0;
    assert x * y == w * y / 2048.0;
  }

  lemma LinearErrorAt(adc: int, t1: int, t2: int)
    requires 0 <= t2 < 0x8000
    ensures 0.0 <= (adc as real / 16384.0 - t1 as real / 1024.0) * t2 as real - ((adc / 8 - t1 * 2) * t2 / 2048) as real
         <= 15.0
  {
    var u := adc / 8 - t1 * 2;
    var x := adc as real / 16384.0 - t1 as real / 1024.0;
    var d := x * 2048.0 - u as real;
    FloorError(adc, 8);
    LinearRounding(u, d, t2);
    Unscaled(x, u as real + d, t2 as real, (u * t2 / 2048) as real);
  }

  lemma LinearError(c: Calibration, adc: int)
    requires 0 <= c.t2
    ensures 0.0 <= ExactLinear(c, adc) - Linear(c, adc) as real <= 15.0
  {
    LinearErrorAt(adc, c.t1, c.t2);
  }

  lemma SquareGap(v: real, d: real)
    ensures (v + d) * (v + d) == v * v + d * (2.0 * v + d)
  {
  }

  /** The square of the fine value, in units of 4096, before and after rounding. */
  lemma SquareOfFine(v: int, d: real)
    requires -0x8000 <= v < 0x8000 && 0.0 <= d <= 0.9375
    ensures var w := v as real + d; -15.1 <= w * w / 4096.0 - (v * v / 4096) as real <= 16.1
  {
    ProductToReal(v, v);
    SquareGap(v as real, d);
    RealMulBoundSigned(2.0 * v as real + d, d, 65537.0, 0.9375);
    assert d * (2.0 * v as real + d) == (2.0 * v as real + d) * d;
    FloorError(v * v, 4096);
  }

  lemma SquareScale(w: real, t3: real)
    ensures w / 8192.0 * (w / 8192.0) * t3 == w * w / 4096.0 * t3 / 16384.0
  {
    assert w / 8192.0 * (w / 8192.0) == w * w / 67108864.0;
  }

  /** Rounding the square and then its share down. */
  lemma ShareRounding(s: int, f: real, t3: int)
    requires -15.1 <= f <= 16.1 && -0x2000 < t3 < 0x2000
    ensures -9.0 <= (s as real + f) * t3 as real / 16384.0 - (s * t3 / 16384) as real <= 10.0
  {
    RealMulBoundSigned(f, t3 as real, 16.1, 8191.0);
    Distribute(s as real, f, t3 as real);
    ProductToReal(s, t3);
    FloorError(s * t3, 16384);
  }

  lemma SquareErrorAt(adc: int, t1: int, t3: int, v: int, s: int, y: real)
    requires v == adc / 16 - t1 && -0x8000 <= v < 0x8000 && -0x2000 < t3 < 0x2000 && s == v * v / 4096
    requires y == adc as real / 131072.0 - t1 as real / 8192.0
    ensures -9.0 <= y * y * t3 as real - (s * t3 / 16384) as real <= 10.0
  {
    var d := y * 8192.0 - v as real;
    FloorError(adc, 16);
    SquareOfFine(v, d);
    var w := v as real + d;
    ShareRounding(s, w * w / 4096.0 - s as real, t3);
    SquareScale(w, t3 as real);
    assert y == w / 8192.0;
  }

  lemma SquareError(c: Calibration, adc: int)
    requires -0x8000 <= Fine(c, adc) < 0x8000 && -0x2000 < c.t3 < 0x2000
    ensures -9.0 <= ExactSquare(c, adc) - Square(c, adc) as real <= 10.0
  {
    var v := Fine(c, adc);
    SquareErrorAt(adc, c.t1, c.t3, v, v * v / 4096, adc as real / 131072.0 - c.t1 as real / 8192.0);
  }

  lemma Hundredths(exactLinear: real, linear: int, exactSquare: real, square: int)
    requires 0.0 <= exactLinear - linear as real <= 15.0 && -9.0 <= exactSquare - square as real <= 10.0
    ensures var exact, t := exactLinear + exactSquare, linear + square;
            && -9.0 <= exact - t as real <= 25.0
            && -1.0 < ((t * 5 + 128) / 256) as real - 100.0 * (exact / 5120.0) < 1.0
  {
  }

  /** In the temperature envelope the result is within a hundredth of a degree of the exact one. */
  lemma TemperatureAccurate(c: Calibration, adc: int)
    requires TemperatureEnvelope(c, adc)
    ensures -9.0 <= ExactTFine(c, adc) - TFine(c, adc) as real <= 25.0
    ensures -1.0 < Temperature(c, adc) as real - 100.0 * ExactTemperature(c, adc) < 1.0
  {
    LinearError(c, adc);
    SquareError(c, adc);
    Hundredths(ExactLinear(c, adc), Linear(c, adc), ExactSquare(c, adc), Square(c, adc));
  }

  // ---- pressure: the offset is exact, the divisor is rounded ----------------------------------------

  lemma OffsetScale(d: real, p6: real, p5: real, p4: real)
    ensures (d / 2.0 * (d / 2.0) * p6 / 32768.0 + d / 2.0 * p5 * 2.0) / 4.0 + p4 * 65536.0
         == (d * d * p6 + d * p5 * 131072.0 + p4 * 34359738368.0) / 524288.0
  {
    assert d / 2.0 * (d / 2.0) == d * d / 4.0;
    assert d * d / 4.0 * p6 == d * d * p6 / 4.0;
    assert d / 2.0 * p5 * 2.0 == d * p5;
  }

  lemma OffsetIsExact(c: Calibration, d: int)
    ensures ExactOffset(c, d as real / 2.0) == Offset(c, d) as real / 524288.0
  {
    OffsetScale(d as real, c.p6 as real, c.p5 as real, c.p4 as real);
    ProductToReal(d, d);
    ProductToReal(d * d, c.p6);
    ProductToReal(d, c.p5);
  }

  lemma DivisorScale(d: real, p3: real, p2: real, p1: real)
    ensures (1.0 + (p3 * (d / 2.0) * (d / 2.0) / 524288.0 + p2 * (d / 2.0)) / 524288.0 / 32768.0) * p1
         == (140737488355328.0 + d * d * p3 / 256.0 + d * p2 * 4096.0) * p1 / 140737488355328.0
  {
    assert p3 * (d / 2.0) * (d / 2.0) == d * d * p3 / 4.0;
    assert p2 * (d / 2.0) == d * p2 / 2.0;
    var a := 1.0 + (d * d * p3 / 4.0 / 524288.0 + d * p2 / 2.0) / 524288.0 / 32768.0;
    var b := 140737488355328.0 + d * d * p3 / 256.0 + d * p2 * 4096.0;
    assert a * 140737488355328.0 == b;
    assert a * p1 == b * p1 / 140737488355328.0 by { Rescale(a, b, p1); }
  }

  lemma Rescale(a: real, b: real, y: real)
    requires a * 140737488355328.0 == b
    ensures a * y == b * y / 140737488355328.0
  {
    assert a == b / 140737488355328.0;
  }

  lemma DivisorRounding(m: int, e: real, p1: int)
    requires 0.0 <= e < 1.0 && 0 <= p1 < 0x1_0000
    ensures var exact := (m as real + e) * p1 as real / 8589934592.0;
            0.0 <= exact - (m * p1 / 0x2_0000_0000) as real <= 1.001
  {
    Distribute(m as real, e, p1 as real);
    ProductBound(e, p1 as real, 1.0, 65536.0);
    ProductToReal(m, p1);
    FloorError(m * p1, 0x2_0000_0000);
  }

  /** `s` and `l` are the squared and the linear term of the slope before their shifts. */
  lemma DivisorErrorAt(d: int, p3: int, p2: int, p1: int, s: int, l: int)
    requires s == d * d * p3 && l == d * p2 && 0 <= p1 < 0x1_0000
    ensures var v := d as real / 2.0;
            var slope := (p3 as real * v * v / 524288.0 + p2 as real * v) / 524288.0;
            0.0 <= 16384.0 * ((1.0 + slope / 32768.0) * p1 as real)
            - ((0x8000_0000_0000 + (s / 256 + l * 4096)) * p1 / 0x2_0000_0000) as real <= 1.001
  {
    DivisorScale(d as real, p3 as real, p2 as real, p1 as real);
    ProductToReal(d, d);
    ProductToReal(d * d, p3);
    ProductToReal(d, p2);
    FloorError(s, 256);
    DivisorRounding(0x8000_0000_0000 + (s / 256 + l * 4096), s as real / 256.0 - (s / 256) as real, p1);
  }

  /** The integer divisor is the exact one in units of 2^-14, less at most a little over one. */
  lemma DivisorError(c: Calibration, d: int)
    ensures 0.0 <= 16384.0 * ExactDivisor(c, d as real / 2.0) - Divisor(c, d) as real <= 1.001
  {
    DivisorErrorAt(d, c.p3, c.p2, c.p1, d * d * c.p3, d * c.p2);
  }

  // ---- pressure: the quotient -----------------------------------------------------------------------

  /** The exact ratio in units of 2^-16 is the numerator over the exact divisor. */
  lemma RatioScale(a: real, n: real, divisor: real)
    requires divisor != 0.0 && n == a * 6710886400000.0
    ensures a * 6250.0 / divisor * 65536.0 * (16384.0 * divisor) == n
  {
    var r := a * 6250.0 / divisor;
    assert r * divisor == a * 6250.0;
    assert r * 65536.0 * (16384.0 * divisor) == r * divisor * 1073741824.0 by { Regroup(r, divisor); }
  }

  lemma Regroup(r: real, divisor: real)
    ensures r * 65536.0 * (16384.0 * divisor) == r * divisor * 1073741824.0
  {
  }

  lemma RatioIsQuotient(c: Calibration, d: int, adc: int)
    requires ExactDivisor(c, d as real / 2.0) != 0.0
    ensures var v := d as real / 2.0;
            ExactRatio(c, v, adc) * 65536.0 * (16384.0 * ExactDivisor(c, v)) == Numerator(c, d, adc) as real
  {
    OffsetIsExact(c, d);
    var v := d as real / 2.0;
    var a := 1048576.0 - adc as real - ExactOffset(c, v) / 4096.0;
    RatioScale(a, Numerator(c, d, adc) as real, ExactDivisor(c, v));
  }

  lemma RatioBelow(q: real, d: real, e: real, x: real)
    requires 0.0 <= q && 0.0 < d <= e && x * e < q * d + d
    ensures x < q + 1.0
  {
    if x >= q + 1.0 {
      RealMulLe(q + 1.0, x, e);
      Distribute(q, 1.0, e);
      RealMulLe(d, e, q);
      Commute(q, e);
      Commute(q, d);
    }
  }

  lemma RatioAbove(q: real, d: real, e: real, x: real)
    requires 0.0 <= q <= 55834574848.0 && 184549376.0 <= d <= e <= d + 1.001 && q * d <= x * e
    ensures q - 305.0 <= x
  {
    if x < q - 305.0 {
      RealMulLe(x, q - 305.0, e);
      Distribute(q, -305.0, e);
      RealMulLe(e, d + 1.001, q);
      Distribute(d, 1.001, q);
      Commute(q, e);
      Commute(q, d);
    }
  }

  /** A quotient rounded towards zero over a divisor rounded down, both non-negative. */
  lemma QuotientClose(n: int, d: int, e: real, x: real)
    requires 0 <= n && 0xB00_0000 <= d && d as real <= e <= d as real + 1.001
    requires x * e == n as real && n / d <= QUOTIENT_MAX
    ensures -305.0 <= x - (n / d) as real <= 1.0
  {
    FloorError(n, d);
    RatioBelow((n / d) as real, d as real, e, x);
    RatioAbove((n / d) as real, d as real, e, x);
  }

  lemma QuotientError(n: int, d: int, e: real, x: real)
    requires 0xB00_0000 <= d && d as real <= e <= d as real + 1.001 && x * e == n as real
    requires -QUOTIENT_MAX <= TruncDiv(n, d) <= QUOTIENT_MAX
    ensures -305.0 <= x - TruncDiv(n, d) as real <= 305.0
  {
    if n >= 0 {
      QuotientClose(n, d, e, x);
    } else {
      NegateProduct(x, e);
      QuotientClose(-n, d, e, -x);
    }
  }

  // ---- pressure: the correction ---------------------------------------------------------------------

  lemma DifferenceOfSquares(x: real, y: real)
    ensures (x - y) * (x + y) == x * x - y * y
  {
  }

  lemma SquareGapBound(h: real, g: real, p9: real)
    requires -1.04 <= h - g <= 1.04 && -13631490.0 <= h + g <= 13631490.0 && 0.0 <= p9 <= 32767.0
    ensures -464529567250.0 <= h * h * p9 - g * g * p9 <= 464529567250.0
  {
    RealMulBoundSigned(h - g, h + g, 1.04, 13631490.0);
    DifferenceOfSquares(h, g);
    RealMulBound(h * h - g * g, p9, 14176750.0, 32767.0);
    Distribute(h * h, -(g * g), p9);
    NegateProduct(g * g, p9);
  }

  lemma SquareToReal(p9: int, h: int)
    ensures (p9 * h * h) as real == h as real * h as real * p9 as real
  {
    ProductToReal(h, h);
    ProductToReal(h * h, p9);
    assert p9 * h * h == h * h * p9;
  }

  lemma SquareRounding(s: int, exact: real)
    requires -464529567250.0 <= s as real - exact <= 464529567250.0
    ensures -13846.0 <= (s / 0x200_0000) as real - exact / 33554432.0 <= 13846.0
  {
  }

  /** The squared correction before and after rounding its argument and itself. */
  lemma SquareCorrectionError(p9: int, q: int, p: real)
    requires 0 <= p9 < 0x8000 && QUOTIENT_MIN <= q <= QUOTIENT_MAX && -305.0 <= p * 65536.0 - q as real <= 305.0
    ensures -13846.0 <= (p9 * (q / 8192) * (q / 8192) / 0x200_0000) as real
            - p * 8.0 * (p * 8.0) * p9 as real / 33554432.0 <= 13846.0
  {
    var h, g := q / 8192, p * 8.0;
    assert -1.04 <= h as real - g <= 1.04 && -13631490.0 <= h as real + g <= 13631490.0;
    SquareGapBound(h as real, g, p9 as real);
    SquareToReal(p9, h);
    SquareRounding(p9 * h * h, g * g * p9 as real);
  }

  lemma LinearCorrectionError(p8: int16, q: int, x: real)
    requires -305.0 <= x - q as real <= 305.0
    ensures -21.0 <= (p8 * q / 0x8_0000) as real - x * p8 as real / 524288.0 <= 21.0
  {
    var e := x - q as real;
    RealMulBoundSigned(e, p8 as real, 305.0, 32768.0);
    Distribute(q as real, e, p8 as real);
    ProductToReal(q, p8);
    assert p8 * q == q * p8;
    FloorError(p8 * q, 0x8_0000);
  }

  lemma CorrectionScale(p: real, p9: real, p8: real, p7: real)
    ensures var x, g := p * 65536.0, p * 8.0;
            && 256.0 * (p + (p9 * p * p / 2147483648.0 + p * p8 / 32768.0 + p7) / 16.0)
               == (x + g * g * p9 / 33554432.0 + x * p8 / 524288.0) / 256.0 + 16.0 * p7
  {
    assert p * 8.0 * (p * 8.0) == 64.0 * (p * p);
    assert p9 * p * p == p * p * p9;
    assert 64.0 * (p * p) * p9 == 64.0 * (p * p * p9);
    assert p * 65536.0 * p8 == 65536.0 * (p * p8);
  }

  lemma LastRounding(q: int, s: int, l: int, p7: int, x: real, sx: real, lx: real)
    requires -305.0 <= x - q as real <= 305.0
    requires -13846.0 <= s as real - sx <= 13846.0 && -21.0 <= l as real - lx <= 21.0
    ensures -57.0 <= ((q + s + l) / 256 + p7 * 16) as real - ((x + sx + lx) / 256.0 + 16.0 * p7 as real) <= 57.0
  {
  }

  lemma CorrectionSum(q: int, s: int, l: int, p: real, p9: real, p8: real, p7: int)
    requires -305.0 <= p * 65536.0 - q as real <= 305.0
    requires -13846.0 <= s as real - p * 8.0 * (p * 8.0) * p9 / 33554432.0 <= 13846.0
    requires -21.0 <= l as real - p * 65536.0 * p8 / 524288.0 <= 21.0
    ensures var exact := p + (p9 * p * p / 2147483648.0 + p * p8 / 32768.0 + p7 as real) / 16.0;
            -57.0 <= ((q + s + l) / 256 + p7 * 16) as real - 256.0 * exact <= 57.0
  {
    CorrectionScale(p, p9, p8, p7 as real);
    LastRounding(q, s, l, p7, p * 65536.0, p * 8.0 * (p * 8.0) * p9 / 33554432.0, p * 65536.0 * p8 / 524288.0);
  }

  lemma PartsError(c: Calibration, q: int, s: int, l: int, p: real, r: int)
    requires r == (q + s + l) / 256 + c.p7 * 16 && -305.0 <= p * 65536.0 - q as real <= 305.0
    requires -13846.0 <= s as real - p * 8.0 * (p * 8.0) * c.p9 as real / 33554432.0 <= 13846.0
    requires -21.0 <= l as real - p * 65536.0 * c.p8 as real / 524288.0 <= 21.0
    ensures -57.0 <= r as real - 256.0 * ExactCorrection(c, p) <= 57.0
  {
    CorrectionSum(q, s, l, p, c.p9 as real, c.p8 as real, c.p7);
  }

  lemma SquarePart(p9: int, q: int, p: real) returns (s: int)
    requires 0 <= p9 < 0x8000 && QUOTIENT_MIN <= q <= QUOTIENT_MAX && -305.0 <= p * 65536.0 - q as real <= 305.0
    ensures s == p9 * (q / 8192) * (q / 8192) / 0x200_0000
    ensures -13846.0 <= s as real - p * 8.0 * (p * 8.0) * p9 as real / 33554432.0 <= 13846.0
  {
    s := p9 * (q / 8192) * (q / 8192) / 0x200_0000;
    SquareCorrectionError(p9, q, p);
  }

  lemma LinearPart(p8: int16, q: int, p: real) returns (l: int)
    requires -305.0 <= p * 65536.0 - q as real <= 305.0
    ensures l == p8 * q / 0x8_0000
    ensures -21.0 <= l as real - p * 65536.0 * p8 as real / 524288.0 <= 21.0
  {
    l := p8 * q / 0x8_0000;
    LinearCorrectionError(p8, q, p * 65536.0);
  }

  lemma CorrectedParts(c: Calibration, q: int, s: int, l: int) returns (r: int)
    requires s == c.p9 * (q / 8192) * (q / 8192) / 0x200_0000 && l == c.p8 * q / 0x8_0000
    ensures r == Corrected(c, q) == (q + s + l) / 256 + c.p7 * 16
  {
    r := Corrected(c, q);
  }

  /** The two corrections as the code adds them, each close to its exact counterpart. */
  lemma Parts(c: Calibration, q: int, p: real) returns (s: int, l: int, r: int)
    requires c.p9 >= 0 && QUOTIENT_MIN <= q <= QUOTIENT_MAX && -305.0 <= p * 65536.0 - q as real <= 305.0
    ensures r == Corrected(c, q) && r == (q + s + l) / 256 + c.p7 * 16
    ensures -13846.0 <= s as real - p * 8.0 * (p * 8.0) * c.p9 as real / 33554432.0 <= 13846.0
    ensures -21.0 <= l as real - p * 65536.0 * c.p8 as real / 524288.0 <= 21.0
  {
    s := SquarePart(c.p9, q, p);
    l := LinearPart(c.p8, q, p);
    r := CorrectedParts(c, q, s, l);
  }

  lemma CorrectionError(c: Calibration, q: int, p: real) returns (r: int)
    requires c.p9 >= 0 && QUOTIENT_MIN <= q <= QUOTIENT_MAX && -305.0 <= p * 65536.0 - q as real <= 305.0
    ensures r == Corrected(c, q) && -57.0 <= r as real - 256.0 * ExactCorrection(c, p) <= 57.0
  {
    var s, l;
    s, l, r := Parts(c, q, p);
    PartsError(c, q, s, l, p, r);
  }

  // ---- pressure -------------------------------------------------------------------------------------

  lemma CorrectedAccurate(c: Calibration, tFine: int, adc: int)
    requires PressureEnvelope(c, tFine) && 0 <= adc < 0x10_0000
    ensures var d := tFine - 128000;
            && Divisor(c, d) > 0
            && -57.0 <= Corrected(c, Quotient(c, d, adc)) as real - 256.0 * ExactPressure(c, tFine, adc) <= 57.0
  {
    var d := tFine - 128000;
    var v := d as real / 2.0;
    assert v == tFine as real / 2.0 - 64000.0;
    DivisorPositive(c, d);
    DivisorError(c, d);
    QuotientBound(c, d, adc);
    RatioIsQuotient(c, d, adc);
    var p := ExactRatio(c, v, adc);
    QuotientError(Numerator(c, d, adc), Divisor(c, d), 16384.0 * ExactDivisor(c, v), p * 65536.0);
    var r := CorrectionError(c, Quotient(c, d, adc), p);
  }

  /** The result as a signed number; the code casts it to uint32. */
  function Signed(p: int): int { if p < 0x8000_0000 then p else p - 0x1_0000_0000 }

  /** In the pressure envelope, for every t_fine and every ADC value, the result in units of 1/256 Pa is within
      57 units, less than a quarter of a pascal, of the exact pressure; so every term of the formula
      is there with its own coefficient and sign. */
  lemma PressureAccurate(c: Calibration, tFine: int, adc: int)
    requires PressureEnvelope(c, tFine) && 0 <= adc < 0x10_0000
    ensures -57.0 <= Signed(Pressure(c, tFine, adc)) as real - 256.0 * ExactPressure(c, tFine, adc) <= 57.0
  {
    PressureInRange(c, tFine, adc);
    CorrectedAccurate(c, tFine, adc);
  }

  /** Without P1 there is no divisor, and the code returns zero as the datasheet does. */
  lemma NoDivisorMeansZero(c: Calibration, tFine: int, adc: int)
    requires c.p1 == 0
    ensures Pressure(c, tFine, adc) == 0 && ExactPressure(c, tFine, adc) == 0.0
  {
  }
}
