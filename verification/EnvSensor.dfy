/** The BMP280 fixed-point compensation of env_sensor.c (BMP280 datasheet, section 3.11.3).
    `>>` on a signed operand is floor division, which is what `/` by a positive constant is here;
    the one C division truncates. */
module EnvSensor {
  import opened Basics

  newtype int32 = x: int | -0x8000_0000 <= x < 0x8000_0000
  newtype int64 = x: int | -0x8000_0000_0000_0000 <= x < 0x8000_0000_0000_0000
  type int16 = x: int | -0x8000 <= x < 0x8000
  type uint16 = x: int | 0 <= x < 0x1_0000

  datatype Calibration = Calibration(
    t1: uint16, t2: int16, t3: int16,
    p1: uint16, p2: int16, p3: int16, p4: int16, p5: int16, p6: int16, p7: int16, p8: int16, p9: int16)

  // ---- calibration block and raw samples --------------------------------------------------------

  function U16(lo: byte, hi: byte): uint16 { hi * 256 + lo }

  function S16(lo: byte, hi: byte): int16 { if hi < 128 then hi * 256 + lo else hi * 256 + lo - 0x1_0000 }

  function ParseCalibration(d: seq<byte>): Calibration
    requires |d| == 24
  {
    Calibration(U16(d[0], d[1]), S16(d[2], d[3]), S16(d[4], d[5]),
                U16(d[6], d[7]), S16(d[8], d[9]), S16(d[10], d[11]), S16(d[12], d[13]), S16(d[14], d[15]),
                S16(d[16], d[17]), S16(d[18], d[19]), S16(d[20], d[21]), S16(d[22], d[23]))
  }

  function Word(x: int): seq<byte>
    requires -0x8000 <= x < 0x1_0000
  {
    var u := if x < 0 then x + 0x1_0000 else x;
    [u % 256, u / 256]
  }

  /** Registers 0x88..0x9F as the sensor stores them: little endian, two's complement. */
  function StoreCalibration(c: Calibration): (d: seq<byte>)
    ensures |d| == 24
  {
    Word(c.t1) + Word(c.t2) + Word(c.t3) + Word(c.p1) + Word(c.p2) + Word(c.p3)
    + Word(c.p4) + Word(c.p5) + Word(c.p6) + Word(c.p7) + Word(c.p8) + Word(c.p9)
  }

  lemma WordRoundTrip(x: int)
    requires -0x8000 <= x < 0x1_0000
    ensures x >= 0 ==> U16(Word(x)[0], Word(x)[1]) == x
    ensures x < 0x8000 ==> S16(Word(x)[0], Word(x)[1]) == x
  {
  }

  /** Reading back the stored block gives the calibration: no word is swapped, dropped or misread. */
  lemma CalibrationRoundTrip(c: Calibration)
    ensures ParseCalibration(StoreCalibration(c)) == c
  {
    WordRoundTrip(c.t1); WordRoundTrip(c.t2); WordRoundTrip(c.t3);
    WordRoundTrip(c.p1); WordRoundTrip(c.p2); WordRoundTrip(c.p3);
    WordRoundTrip(c.p4); WordRoundTrip(c.p5); WordRoundTrip(c.p6);
    WordRoundTrip(c.p7); WordRoundTrip(c.p8); WordRoundTrip(c.p9);
  }

  /** One 20-bit sample from three bytes, most significant first. */
  function UnpackAdc(b0: byte, b1: byte, b2: byte): int { b0 * 4096 + b1 * 16 + b2 / 16 }

  /** Unpacking is onto the 20-bit range and inverse to packing whatever the low nibble holds. */
  lemma UnpackRoundTrip(adc: int, low: int)
    requires 0 <= adc < 0x10_0000 && 0 <= low < 16
    ensures UnpackAdc(adc / 4096, adc / 16 % 256, adc % 16 * 16 + low) == adc
  {
  }

  lemma UnpackRange(b0: byte, b1: byte, b2: byte)
    ensures 0 <= UnpackAdc(b0, b1, b2) < 0x10_0000
  {
  }

  // ---- temperature ------------------------------------------------------------------------------

  function Coarse(c: Calibration, adc: int): int { adc / 8 - c.t1 * 2 }
  function Fine(c: Calibration, adc: int): int { adc / 16 - c.t1 }

  function Linear(c: Calibration, adc: int): int { Coarse(c, adc) * c.t2 / 2048 }
  function SquareShare(v: int, t3: int16): int { v * v / 4096 * t3 / 16384 }
  function Square(c: Calibration, adc: int): int { SquareShare(Fine(c, adc), c.t3) }

  function TFine(c: Calibration, adc: int): int { Linear(c, adc) + Square(c, adc) }

  /** Hundredths of a degree. */
  function Temperature(c: Calibration, adc: int): int { (TFine(c, adc) * 5 + 128) / 256 }

  /** No int32 step of the temperature formula overflows (overflow is undefined in C). */
  predicate TemperatureDefined(c: Calibration, adc: int) {
    var u, v := Coarse(c, adc), Fine(c, adc);
    && Fits32(adc) && Fits32(u) && Fits32(v) && Fits32(u * c.t2)
    && Fits32(v * v) && Fits32(v * v / 4096 * c.t3)
    && Fits32(TFine(c, adc)) && Fits32(TFine(c, adc) * 5) && Fits32(TFine(c, adc) * 5 + 128)
  }

  predicate Fits32(x: int) { -0x8000_0000 <= x < 0x8000_0000 }
  predicate Fits64(x: int) { -0x8000_0000_0000_0000 <= x < 0x8000_0000_0000_0000 }

  const SLOPE_MIN := 0x3FFE

  /** The temperature envelope. It contains the datasheet's worked example. */
  predicate TemperatureEnvelope(c: Calibration, adc: int) {
    0 <= adc < 0x10_0000 && -0x8000 <= Fine(c, adc) < 0x8000 && c.t2 >= SLOPE_MIN && -0x2000 < c.t3 < 0x2000
  }

  lemma MulBound(x: int, y: int, a: int, b: int)
    requires -a <= x <= a && -b <= y <= b
    ensures -(a * b) <= x * y <= a * b
  {
    if x >= 0 {
      assert x * y <= x * b <= a * b by { MulLe(y, b, x); MulLe(x, a, b); }
      assert x * y >= x * (-b) >= -(a * b) by { MulLe(-b, y, x); MulLe(x, a, b); }
    } else {
      assert (-x) * y <= (-x) * b <= a * b by { MulLe(y, b, -x); MulLe(-x, a, b); }
      assert (-x) * y >= (-x) * (-b) >= -(a * b) by { MulLe(-b, y, -x); MulLe(-x, a, b); }
    }
  }

  lemma TemperatureInRange(c: Calibration, adc: int)
    requires TemperatureEnvelope(c, adc)
    ensures TemperatureDefined(c, adc)
  {
    var u, v := Coarse(c, adc), Fine(c, adc);
    assert 2 * v <= u <= 2 * v + 1;
    MulBound(u, c.t2, 0x1_0000, 0x7FFF);
    MulBound(v, v, 0x8000, 0x8000);
    assert 0 <= v * v by { if v < 0 { MulLe(0, -v, -v); } else { MulLe(0, v, v); } }
    MulBound(v * v / 4096, c.t3, 0x4_0000, 0x1FFF);
  }

  /** A unit step of the ADC moves the squared term by at most 16 and so its share by at most 8. */
  lemma SquareStep(v: int, t3: int16)
    requires -0x8000 <= v < 0x7FFF && -0x2000 < t3 < 0x2000
    ensures SquareShare(v + 1, t3) >= SquareShare(v, t3) - 8
  {
    var s, r := v * v, (v + 1) * (v + 1);
    assert r == s + 2 * v + 1;
    var ds := r / 4096 - s / 4096;
    assert -16 <= ds <= 16;
    MulBound(ds, t3, 16, 0x1FFF);
    assert r / 4096 * t3 == s / 4096 * t3 + ds * t3;
  }

  lemma Gain(x: int, t: int, k: int)
    requires x % 2048 + t >= k * 2048
    ensures (x + t) / 2048 >= x / 2048 + k
  {
  }

  lemma NotDivisible(k: int)
    ensures (4 * k + 2) % 2048 >= 2 && (2 * k + 1) % 2048 >= 1
  {
    var q, r := (4 * k + 2) / 2048, (2 * k + 1) / 2048;
    assert (4 * k + 2) % 2048 == 4 * (k - 512 * q) + 2;
    assert (2 * k + 1) % 2048 == 2 * (k - 1024 * r) + 1;
  }

  /** An odd multiple of T2 leaves a remainder that makes up for what T2 lacks to 0x4000. */
  lemma OddRemainder(u: int, t2: int)
    requires u % 2 == 1 && SLOPE_MIN <= t2 < 0x4000
    ensures u * t2 % 2048 + t2 >= 0x4000
  {
    var h := u / 2;
    var k := if t2 == 0x3FFE then 0x1FFF * h + 0xFFF else 0x3FFF * h + 0x1FFF;
    assert u * t2 == if t2 == 0x3FFE then 4 * k + 2 else 2 * k + 1 by {
      assert u == 2 * h + 1;
      assert t2 == 0x3FFE || t2 == 0x3FFF;
    }
    NotDivisible(k);
  }

  lemma SlopeStep(u: int, t2: int16)
    requires t2 >= SLOPE_MIN
    ensures (u + 1) * t2 / 2048 >= u * t2 / 2048 + if u % 2 == 1 then 8 else 7
  {
    assert (u + 1) * t2 == u * t2 + t2;
    if u % 2 == 1 && t2 < 0x4000 { OddRemainder(u, t2); }
    Gain(u * t2, t2, if u % 2 == 1 then 8 else 7);
  }

  lemma LinearStep(c: Calibration, adc: int)
    requires c.t2 >= SLOPE_MIN
    ensures Linear(c, adc + 1) >= Linear(c, adc)
    ensures Fine(c, adc + 1) != Fine(c, adc) ==> Linear(c, adc + 1) >= Linear(c, adc) + 8
  {
    FineFollowsCoarse(c, adc);
    if Coarse(c, adc + 1) != Coarse(c, adc) {
      assert Coarse(c, adc + 1) == Coarse(c, adc) + 1;
      SlopeStep(Coarse(c, adc), c.t2);
    }
  }

  /** The fine value moves only where the coarse one leaves an odd value. */
  lemma FineFollowsCoarse(c: Calibration, adc: int)
    ensures Fine(c, adc + 1) == Fine(c, adc) || Fine(c, adc + 1) == Fine(c, adc) + 1
    ensures Fine(c, adc + 1) != Fine(c, adc) ==>
              Coarse(c, adc) % 2 == 1 && Coarse(c, adc + 1) == Coarse(c, adc) + 1
  {
    assert adc / 16 == adc / 8 / 2 && (adc + 1) / 16 == (adc + 1) / 8 / 2;
  }

  lemma SquareShareStep(c: Calibration, adc: int)
    requires TemperatureEnvelope(c, adc) && TemperatureEnvelope(c, adc + 1)
    ensures Fine(c, adc + 1) == Fine(c, adc) ==> Square(c, adc + 1) == Square(c, adc)
    ensures Square(c, adc + 1) >= Square(c, adc) - 8
  {
    FineFollowsCoarse(c, adc);
    if Fine(c, adc + 1) != Fine(c, adc) {
      SquareStep(Fine(c, adc), c.t3);
    }
  }

  lemma TFineStep(c: Calibration, adc: int)
    requires TemperatureEnvelope(c, adc) && TemperatureEnvelope(c, adc + 1)
    ensures TFine(c, adc) <= TFine(c, adc + 1)
  {
    LinearStep(c, adc);
    SquareShareStep(c, adc);
  }

  /** t_fine and the temperature never fall as the ADC value rises, despite the floored square. */
  lemma {:induction false} TemperatureMonotone(c: Calibration, lo: int, hi: int)
    requires lo <= hi && TemperatureEnvelope(c, lo) && TemperatureEnvelope(c, hi)
    ensures TFine(c, lo) <= TFine(c, hi) && Temperature(c, lo) <= Temperature(c, hi)
    decreases hi - lo
  {
    if lo < hi {
      TemperatureMonotone(c, lo, hi - 1);
      TFineStep(c, hi - 1);
    }
  }

  // ---- pressure ---------------------------------------------------------------------------------

  function TruncDiv(a: int, b: int): int
    requires b != 0
  {
    if a >= 0 then (if b > 0 then a / b else -(a / -b)) else (if b > 0 then -(-a / b) else -a / -b)
  }

  function Offset(c: Calibration, d: int): int { d * d * c.p6 + d * c.p5 * 0x2_0000 + c.p4 * 0x8_0000_0000 }

  function Slope(c: Calibration, d: int): int { d * d * c.p3 / 256 + d * c.p2 * 4096 }

  function Divisor(c: Calibration, d: int): int { (0x8000_0000_0000 + Slope(c, d)) * c.p1 / 0x2_0000_0000 }

  function Numerator(c: Calibration, d: int, adc: int): int { ((0x10_0000 - adc) * 0x8000_0000 - Offset(c, d)) * 3125 }

  function Quotient(c: Calibration, d: int, adc: int): int
    requires Divisor(c, d) != 0
  {
    TruncDiv(Numerator(c, d, adc), Divisor(c, d))
  }

  /** The correction polynomial applied to the quotient. */
  function Corrected(c: Calibration, q: int): int {
    (q + c.p9 * (q / 8192) * (q / 8192) / 0x200_0000 + c.p8 * q / 0x8_0000) / 256 + c.p7 * 16
  }

  /** Pressure in 1/256 Pa as returned, reduced to uint32. */
  function Pressure(c: Calibration, tFine: int, adc: int): int {
    var d := tFine - 128000;
    if Divisor(c, d) == 0 then 0 else Corrected(c, Quotient(c, d, adc)) % 0x1_0000_0000
  }

  /** No int64 step of the pressure formula overflows. */
  predicate PressureDefined(c: Calibration, tFine: int, adc: int) {
    var d := tFine - 128000;
    && Fits32(tFine) && 0 <= adc < 0x10_0000
    && Fits64(d * d) && Fits64(d * d * c.p6) && Fits64(d * c.p5) && Fits64(d * c.p5 * 0x2_0000)
    && Fits64(d * d * c.p6 + d * c.p5 * 0x2_0000) && Fits64(Offset(c, d))
    && Fits64(d * d * c.p3) && Fits64(d * c.p2) && Fits64(d * c.p2 * 4096) && Fits64(Slope(c, d))
    && Fits64(0x8000_0000_0000 + Slope(c, d)) && Fits64((0x8000_0000_0000 + Slope(c, d)) * c.p1)
    && (Divisor(c, d) != 0 ==>
          && Fits64((0x10_0000 - adc) * 0x8000_0000 - Offset(c, d)) && Fits64(Numerator(c, d, adc))
          && CorrectionDefined(c, Quotient(c, d, adc)))
  }

  predicate CorrectionDefined(c: Calibration, q: int) {
    && Fits64(q) && Fits64(c.p9 * (q / 8192)) && Fits64(c.p9 * (q / 8192) * (q / 8192)) && Fits64(c.p8 * q)
    && Fits64(q + c.p9 * (q / 8192) * (q / 8192) / 0x200_0000)
    && Fits64(q + c.p9 * (q / 8192) * (q / 8192) / 0x200_0000 + c.p8 * q / 0x8_0000)
    && Fits64(Corrected(c, q))
  }

  /** The pressure envelope. It contains the datasheet's worked example; P8 is unrestricted. */
  predicate PressureEnvelope(c: Calibration, tFine: int) {
    && -0x8_0000 <= tFine - 128000 <= 0x8_0000
    && 0x4000 <= c.p1 <= 3 * 0x4000
    && -0x4000 <= c.p2 <= 0x4000 && -0x2000 <= c.p3 <= 0x2000 && -0x2000 <= c.p4 <= 0x2000
    && -0x400 <= c.p5 <= 0x400 && -0x200 <= c.p6 <= 0x200
    && c.p7 >= 0 && c.p9 >= 0
  }

  lemma Terms(c: Calibration, d: int)
    requires PressureEnvelope(c, d + 128000)
    ensures 0 <= d * d <= 0x40_0000_0000
    ensures -0x8000_0000_0000 <= d * d * c.p6 <= 0x8000_0000_0000
    ensures -0x2000_0000 <= d * c.p5 <= 0x2000_0000
    ensures -0x8_0000_0000_0000 <= d * d * c.p3 <= 0x8_0000_0000_0000
    ensures -0x2_0000_0000 <= d * c.p2 <= 0x2_0000_0000
  {
    MulBound(d, d, 0x8_0000, 0x8_0000);
    assert 0 <= d * d by { if d < 0 { MulLe(0, -d, -d); } else { MulLe(0, d, d); } }
    MulBound(d * d, c.p6, 0x40_0000_0000, 0x200);
    MulBound(d, c.p5, 0x8_0000, 0x400);
    MulBound(d * d, c.p3, 0x40_0000_0000, 0x2000);
    MulBound(d, c.p2, 0x8_0000, 0x4000);
  }

  const DIVISOR_MAX := 0x3F00_0000

  /** The divisor is positive, so the early return of the code is not taken. */
  lemma DivisorPositive(c: Calibration, d: int)
    requires PressureEnvelope(c, d + 128000)
    ensures Fits64((0x8000_0000_0000 + Slope(c, d)) * c.p1)
    ensures 0xB00_0000 <= Divisor(c, d) <= DIVISOR_MAX
  {
    Terms(c, d);
    var m := 0x8000_0000_0000 + Slope(c, d);
    assert 0x5800_0000_0000 <= m <= 0xA800_0000_0000;
    MulLe(0x5800_0000_0000, m, c.p1);
    MulLe(0x4000, c.p1, 0x5800_0000_0000);
    MulLe(m, 0xA800_0000_0000, c.p1);
    MulLe(c.p1, 0xC000, 0xA800_0000_0000);
  }

  const OFFSET_MAX := 0x1_C000_0000_0000

  lemma OffsetBound(c: Calibration, d: int)
    requires PressureEnvelope(c, d + 128000)
    ensures -OFFSET_MAX <= Offset(c, d) <= OFFSET_MAX
  {
    Terms(c, d);
    var square, linear, constant := d * d * c.p6, d * c.p5 * 0x2_0000, c.p4 * 0x8_0000_0000;
    assert -0x4000_0000_0000 <= linear <= 0x4000_0000_0000;
    assert -0x1_0000_0000_0000 <= constant <= 0x1_0000_0000_0000;
  }

  lemma NumeratorBound(c: Calibration, d: int, adc: int)
    requires PressureEnvelope(c, d + 128000) && 0 <= adc < 0x10_0000
    ensures Fits64((0x10_0000 - adc) * 0x8000_0000 - Offset(c, d)) && Fits64(Numerator(c, d, adc))
    ensures -3125 * OFFSET_MAX <= Numerator(c, d, adc) <= 3125 * 0xA_0000_0000_0000
  {
    OffsetBound(c, d);
    assert 0 <= (0x10_0000 - adc) * 0x8000_0000 <= 0x8_0000_0000_0000;
  }

  lemma DivBound(n: int, d: int, k: int, q: int)
    requires 0 <= n < k * (q + 1) && 0 < k <= d && 0 <= q
    ensures 0 <= n / d <= q
  {
    if n / d > q {
      MulLe(q + 1, n / d, d);
      MulLe(k, d, q + 1);
    }
  }

  const QUOTIENT_MAX := 0xD_0000_0000
  const QUOTIENT_MIN := -0x2_0000_0000

  lemma QuotientBound(c: Calibration, d: int, adc: int)
    requires PressureEnvelope(c, d + 128000) && 0 <= adc < 0x10_0000
    ensures Divisor(c, d) > 0 && QUOTIENT_MIN <= Quotient(c, d, adc) <= QUOTIENT_MAX
    ensures Numerator(c, d, adc) >= 0 ==> Quotient(c, d, adc) >= 0
  {
    DivisorPositive(c, d);
    NumeratorBound(c, d, adc);
    var n := Numerator(c, d, adc);
    if n >= 0 {
      DivBound(n, Divisor(c, d), 0xB00_0000, QUOTIENT_MAX);
    } else {
      DivBound(-n, Divisor(c, d), 0xB00_0000, -QUOTIENT_MIN);
    }
  }

  /** The linear correction can take back at most what the quotient itself adds. */
  lemma LinearTerm(p8: int16, q: int, r: int)
    requires 0 <= q <= r
    ensures q + p8 * q / 0x8_0000 <= r + p8 * r / 0x8_0000
  {
    var k := r - q;
    assert p8 * r == p8 * q + p8 * k;
    MulLe(-0x8000, p8, k);
    assert p8 * r >= p8 * q - 0x8_0000 * k;
  }

  lemma SquareTerm(p9: int, q: int, r: int)
    requires 0 <= p9 && 0 <= q <= r
    ensures 0 <= p9 * q * q <= p9 * r * r
  {
    MulLe(0, q, p9);
    MulLe(q, r, p9);
    MulLe(0, p9 * q, q);
    MulLe(q, r, p9 * q);
    MulLe(p9 * q, p9 * r, r);
  }

  lemma SquareRange(p9: int, h: int)
    requires 0 <= p9 < 0x8000 && -0x10_0000 <= h <= 0x68_0000
    ensures -0x7FFF * 0x68_0000 <= p9 * h <= 0x7FFF * 0x68_0000
    ensures 0 <= p9 * h * h <= 0x7FFF * 0x68_0000 * 0x68_0000
  {
    MulBound(p9, h, 0x7FFF, 0x68_0000);
    MulBound(p9 * h, h, 0x7FFF * 0x68_0000, 0x68_0000);
    if h >= 0 {
      SquareTerm(p9, 0, h);
    } else {
      SquareTerm(p9, 0, -h);
      assert p9 * -h * -h == p9 * h * h;
    }
  }

  lemma LinearRange(p8: int16, q: int)
    requires QUOTIENT_MIN <= q <= QUOTIENT_MAX
    ensures Fits64(p8 * q)
    ensures q >= 0 ==> 0 <= q + p8 * q / 0x8_0000 <= QUOTIENT_MAX + QUOTIENT_MAX / 16
    ensures q < 0 ==> QUOTIENT_MIN + QUOTIENT_MIN / 16 <= q + p8 * q / 0x8_0000 <= 0x2000_0000
  {
    if q >= 0 {
      MulBound(p8, q, 0x8000, QUOTIENT_MAX);
      LinearTerm(p8, 0, q);
    } else {
      MulBound(p8, q, 0x8000, -QUOTIENT_MIN);
    }
  }

  /** The correction of a quotient of any sign fits, and is negative by little. */
  lemma CorrectionInRange(c: Calibration, q: int)
    requires c.p7 >= 0 && c.p9 >= 0 && QUOTIENT_MIN <= q <= QUOTIENT_MAX
    ensures CorrectionDefined(c, q) && -0x400_0000 <= Corrected(c, q) < 0x8000_0000
    ensures q >= 0 ==> Corrected(c, q) >= 0
  {
    SquareRange(c.p9, q / 8192);
    var square := c.p9 * (q / 8192) * (q / 8192) / 0x200_0000;
    assert 0 <= square <= 0xB_0000_0000;
    LinearRange(c.p8, q);
  }

  /** Inside the envelope every step fits and the divisor is positive. The result is the corrected
      quotient, or 2^32 more when that is negative, which takes a negative numerator. */
  lemma PressureInRange(c: Calibration, tFine: int, adc: int)
    requires PressureEnvelope(c, tFine) && 0 <= adc < 0x10_0000
    ensures PressureDefined(c, tFine, adc) && Divisor(c, tFine - 128000) > 0
    ensures var p := Corrected(c, Quotient(c, tFine - 128000, adc));
            && Pressure(c, tFine, adc) == (if p >= 0 then p else p + 0x1_0000_0000)
            && -0x400_0000 <= p < 0x8000_0000
            && (Numerator(c, tFine - 128000, adc) >= 0 ==> p >= 0)
  {
    var d := tFine - 128000;
    Terms(c, d);
    DivisorPositive(c, d);
    OffsetBound(c, d);
    NumeratorBound(c, d, adc);
    QuotientBound(c, d, adc);
    CorrectionInRange(c, Quotient(c, d, adc));
  }

  // ---- the pressure falls as the ADC value rises ---------------------------------------------------

  lemma CorrectedMonotone(c: Calibration, q: int, r: int)
    requires c.p9 >= 0 && 0 <= q <= r
    ensures Corrected(c, q) <= Corrected(c, r)
  {
    DivLe(q, r, 8192);
    SquareTerm(c.p9, q / 8192, r / 8192);
    DivLe(c.p9 * (q / 8192) * (q / 8192), c.p9 * (r / 8192) * (r / 8192), 0x200_0000);
    LinearTerm(c.p8, q, r);
  }

  const QUOTIENT_STEP := 6348

  lemma DivGap(x: int, y: int, k: int, d: int)
    requires d > 0 && y + k * d <= x
    ensures y / d + k <= x / d
  {
    assert (y / d + k) * d == y / d * d + k * d;
    if x / d < y / d + k { MulLe(x / d + 1, y / d + k, d); }
  }

  lemma DivSum(x: int, y: int, k: int, d: int)
    requires d > 0 && k * d <= x + y
    ensures k <= x / d + y / d + 1
  {
    assert (x / d + y / d + 2) * d == x / d * d + y / d * d + 2 * d;
    if x / d + y / d + 2 <= k { MulLe(x / d + y / d + 2, k, d); }
  }

  /** A step of the ADC moves the quotient by thousands. */
  lemma QuotientStep(n: int, m: int, d: int)
    requires 0 < d <= DIVISOR_MAX && n < 0 && n + 3125 * 0x8000_0000 <= m
    ensures TruncDiv(n, d) + QUOTIENT_STEP <= TruncDiv(m, d)
  {
    MulLe(d, DIVISOR_MAX, QUOTIENT_STEP + 1);
    if m < 0 {
      DivGap(-n, -m, QUOTIENT_STEP, d);
    } else {
      DivSum(-n, m, QUOTIENT_STEP + 1, d);
    }
  }

  /** Below zero the square falls as the quotient rises, by at most 2^11 for each step of its argument. */
  lemma SquareDrop(p9: int, g: int, h: int)
    requires 0 <= p9 < 0x8000 && -0x10_0000 <= g < 0 && g <= h
    ensures p9 * g * g / 0x200_0000 <= p9 * h * h / 0x200_0000 + 2048 * (h - g) + 1
  {
    var j := h - g;
    assert g * g - h * h == j * -(g + h);
    MulLe(-(g + h), 0x20_0000, j);
    assert p9 * (g * g) <= p9 * (h * h) + p9 * (0x20_0000 * j) by { MulLe(g * g, h * h + 0x20_0000 * j, p9); }
    MulLe(p9, 0x8000, 0x20_0000 * j);
    assert p9 * g * g == p9 * (g * g) && p9 * h * h == p9 * (h * h);
  }

  lemma LinearDrop(p8: int16, q: int, r: int)
    requires q <= r
    ensures p8 * q / 0x8_0000 <= p8 * r / 0x8_0000 + (r - q) / 16 + 1
  {
    var k := r - q;
    assert p8 * r == p8 * q + p8 * k;
    MulLe(-0x8000, p8, k);
  }

  /** The quotient's own step outweighs both. */
  lemma CorrectedMonotoneBelowZero(c: Calibration, q: int, r: int)
    requires c.p9 >= 0 && QUOTIENT_MIN <= q < 0 && q + QUOTIENT_STEP <= r
    ensures Corrected(c, q) <= Corrected(c, r)
  {
    SquareDrop(c.p9, q / 8192, r / 8192);
    LinearDrop(c.p8, q, r);
    assert r / 8192 - q / 8192 <= (r - q) / 8192 + 1;
  }

  /** The value before the cast never rises as the ADC value rises, whatever the sign of the numerator. */
  lemma CorrectedAntitone(c: Calibration, tFine: int, lo: int, hi: int)
    requires PressureEnvelope(c, tFine) && 0 <= lo <= hi < 0x10_0000
    ensures var d := tFine - 128000;
            && Divisor(c, d) > 0
            && Corrected(c, Quotient(c, d, hi)) <= Corrected(c, Quotient(c, d, lo))
  {
    var d := tFine - 128000;
    DivisorPositive(c, d);
    QuotientBound(c, d, hi);
    var n, m := Numerator(c, d, hi), Numerator(c, d, lo);
    assert m == n + (hi - lo) * 3125 * 0x8000_0000;
    if n >= 0 {
      DivLe(n, m, Divisor(c, d));
      CorrectedMonotone(c, Quotient(c, d, hi), Quotient(c, d, lo));
    } else if lo < hi {
      QuotientStep(n, m, Divisor(c, d));
      if Quotient(c, d, hi) < 0 {
        CorrectedMonotoneBelowZero(c, Quotient(c, d, hi), Quotient(c, d, lo));
      } else {
        CorrectedMonotone(c, Quotient(c, d, hi), Quotient(c, d, lo));
      }
    }
  }

  /** The returned pressure does not rise as the ADC value rises exactly when the step does not cross
      from a value before the cast that is not negative to one that is: that one wraps round. With a
      non-negative numerator it does not. */
  lemma PressureAntitone(c: Calibration, tFine: int, lo: int, hi: int)
    requires PressureEnvelope(c, tFine) && 0 <= lo <= hi < 0x10_0000
    ensures var d := tFine - 128000;
            && Divisor(c, d) > 0
            && (Pressure(c, tFine, hi) <= Pressure(c, tFine, lo)
                <==> Corrected(c, Quotient(c, d, hi)) >= 0 || Corrected(c, Quotient(c, d, lo)) < 0)
            && (Numerator(c, d, hi) >= 0 ==> Pressure(c, tFine, hi) <= Pressure(c, tFine, lo))
  {
    PressureInRange(c, tFine, lo);
    PressureInRange(c, tFine, hi);
    CorrectedAntitone(c, tFine, lo, hi);
  }

  /** It can cross inside the envelope: with P4 large and P7 zero the highest ADC value reads as more
      than sixteen million pascal. */
  lemma NegativePressureWraps()
    ensures var c := DATASHEET.(p4 := 0x2000, p7 := 0);
            && PressureEnvelope(c, 128422)
            && Pressure(c, 128422, 0xF_FFFF) > 16_000_000 * 256 > Pressure(c, 128422, 0)
  {
    var c := DATASHEET.(p4 := 0x2000, p7 := 0);
    assert Divisor(c, 422) == 597560748;
    assert Offset(c, 422) == 281482719197828;
    assert Numerator(c, 422, 0xF_FFFF) == -879626786606812500 && Numerator(c, 422, 0) == 6157240920273187500;
    assert Quotient(c, 422, 0xF_FFFF) == -1472029060 && Quotient(c, 422, 0) == 10303958117;
    assert Corrected(c, -1472029060) == -5567435 && Corrected(c, 10303958117) == 40234056;
  }

  // ---- the code ---------------------------------------------------------------------------------

  class Bmp280 {
    var calib: Calibration
    var tFine: int32

    constructor (c: Calibration)
      ensures calib == c
    {
      calib, tFine := c, 0;
    }

    /** bmp280_read_calib: the cached calibration changes only when the bus read succeeded. */
    method ReadCalib(busOk: bool, data: seq<byte>) returns (ok: bool)
      requires |data| == 24
      modifies this`calib
      ensures ok == busOk && calib == if ok then ParseCalibration(data) else old(calib)
    {
      ok := busOk;
      if !ok { return; }
      calib := Calibration(U16(data[0], data[1]), S16(data[2], data[3]), S16(data[4], data[5]),
                           U16(data[6], data[7]), S16(data[8], data[9]), S16(data[10], data[11]),
                           S16(data[12], data[13]), S16(data[14], data[15]), S16(data[16], data[17]),
                           S16(data[18], data[19]), S16(data[20], data[21]), S16(data[22], data[23]));
    }

    /** bmp280_comp_T in int32: Dafny checks that no operation leaves the type. */
    method CompT(adc: int32) returns (t: int32)
      requires TemperatureDefined(calib, adc as int)
      modifies this`tFine
      ensures t as int == Temperature(calib, adc as int) && tFine as int == TFine(calib, adc as int)
    {
      var t1, t2, t3 := calib.t1 as int32, calib.t2 as int32, calib.t3 as int32;
      var var1: int32 := (adc / 8 - t1 * 2) * t2 / 2048;
      var var2: int32 := (adc / 16 - t1) * (adc / 16 - t1) / 4096 * t3 / 16384;
      tFine := var1 + var2;
      t := (tFine * 5 + 128) / 256;
    }

    /** bmp280_comp_P in int64. */
    method CompP(adc: int32) returns (r: int)
      requires PressureDefined(calib, tFine as int, adc as int)
      ensures r == Pressure(calib, tFine as int, adc as int)
    {
      var c := calib;
      var var1: int64 := tFine as int64 - 128000;
      var var2: int64 := var1 * var1 * (c.p6 as int64);
      var2 := var2 + var1 * (c.p5 as int64) * 0x2_0000;
      var2 := var2 + (c.p4 as int64) * 0x8_0000_0000;
      var1 := var1 * var1 * (c.p3 as int64) / 256 + var1 * (c.p2 as int64) * 4096;
      var1 := (0x8000_0000_0000 + var1) * (c.p1 as int64) / 0x2_0000_0000;
      if var1 == 0 { return 0; }
      var p: int64 := 1048576 - adc as int64;
      p := (p * 0x8000_0000 - var2) * 3125;
      p := TruncDiv(p as int, var1 as int) as int64;
      var1 := (c.p9 as int64) * (p / 8192) * (p / 8192) / 0x200_0000;
      var2 := (c.p8 as int64) * p / 0x8_0000;
      p := (p + var1 + var2) / 256 + (c.p7 as int64) * 16;
      r := p as int % 0x1_0000_0000;
    }
  }

  predicate SampleDefined(c: Calibration, adcT: int, adcP: int) {
    TemperatureDefined(c, adcT) && PressureDefined(c, TFine(c, adcT), adcP)
  }

  /** Both envelopes together: a sample whose t_fine they admit is computed without overflow. */
  lemma EnvelopesDefineSample(c: Calibration, adcT: int, adcP: int)
    requires TemperatureEnvelope(c, adcT) && PressureEnvelope(c, TFine(c, adcT)) && 0 <= adcP < 0x10_0000
    ensures SampleDefined(c, adcT, adcP)
  {
    TemperatureInRange(c, adcT);
    PressureInRange(c, TFine(c, adcT), adcP);
  }

  /** The BMP280 half of env_sensors_read_all on a six-byte burst, taken as one step: pressure bytes
      first, and the pressure uses the t_fine of the same sample. After a failed read the caller's
      fields, here the last temperature and pressure, and t_fine keep their values. */
  method ReadSample(bmp: Bmp280, busOk: bool, buf: seq<byte>, lastT: int32, lastP: int) returns (t: int32, p: int)
    requires |buf| == 6
    requires busOk ==>
               SampleDefined(bmp.calib, UnpackAdc(buf[3], buf[4], buf[5]), UnpackAdc(buf[0], buf[1], buf[2]))
    modifies bmp`tFine
    ensures !busOk ==> t == lastT && p == lastP && bmp.tFine == old(bmp.tFine)
    ensures busOk ==>
              var adcP, adcT := UnpackAdc(buf[0], buf[1], buf[2]), UnpackAdc(buf[3], buf[4], buf[5]);
              && t as int == Temperature(bmp.calib, adcT) && bmp.tFine as int == TFine(bmp.calib, adcT)
              && p == Pressure(bmp.calib, TFine(bmp.calib, adcT), adcP)
  {
    if !busOk { return lastT, lastP; }
    UnpackRange(buf[0], buf[1], buf[2]);
    UnpackRange(buf[3], buf[4], buf[5]);
    var adcP: int := UnpackAdc(buf[0], buf[1], buf[2]);
    var adcT: int := UnpackAdc(buf[3], buf[4], buf[5]);
    t := bmp.CompT(adcT as int32);
    p := bmp.CompP(adcP as int32);
  }

  const DATASHEET := Calibration(27504, 26435, -1000, 36477, -10685, 3024, 2855, 140, -7, 15500, -14600, 6000)

  /** The datasheet's worked example lies in both envelopes. The code gives its 25.08 degrees Celsius,
      and 25767233 / 256 = 100653.25 Pa where the datasheet's floating-point run prints 100653.27. */
  lemma WorkedExample()
    ensures TemperatureEnvelope(DATASHEET, 519888)
    ensures TFine(DATASHEET, 519888) == 128422 && Temperature(DATASHEET, 519888) == 2508
    ensures PressureEnvelope(DATASHEET, 128422) && Numerator(DATASHEET, 422, 415148) >= 0
    ensures Pressure(DATASHEET, 128422, 415148) == 25767233
  {
    var c := DATASHEET;
    assert Offset(c, 422) == 98104795527812;
    assert Slope(c, 422) == -18467047103;
    assert Divisor(c, 422) == 597560748;
    assert Numerator(c, 422, 415148) == 3944285864554787500;
    assert Quotient(c, 422, 415148) == 6600644165;
    assert Corrected(c, 6600644165) == 25767233;
  }

  /** SLOPE_MIN is the least such bound: with T2 one below it, one ADC step up can lower t_fine. */
  lemma SlopeBoundNeeded()
    ensures var c := DATASHEET.(t1 := 32768, t2 := SLOPE_MIN - 1, t3 := 8191);
            && TemperatureDefined(c, 10927) && TemperatureDefined(c, 10928)
            && -0x8000 <= Fine(c, 10927) <= Fine(c, 10928) < 0x8000
            && TFine(c, 10928) < TFine(c, 10927)
  {
    var c := DATASHEET.(t1 := 32768, t2 := SLOPE_MIN - 1, t3 := 8191);
    assert Coarse(c, 10927) == -64171 && Coarse(c, 10928) == -64170;
    assert Fine(c, 10927) == -32086 && Fine(c, 10928) == -32085;
    assert Linear(c, 10927) == -513274 && Linear(c, 10928) == -513267;
    assert Square(c, 10927) == 125657 && Square(c, 10928) == 125649;
  }

  /** Outside the envelopes the C code is undefined for some calibrations. */
  lemma ArbitraryCalibrationOverflows()
    ensures !TemperatureDefined(DATASHEET.(t1 := 0, t2 := 0x7FFF), 0xF_FFFF)
    ensures !PressureDefined(DATASHEET.(p1 := 0xFFFF, p2 := 0x7FFF), 128000 + 0x10_0000, 0)
  {
  }
}
