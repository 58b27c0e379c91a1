/**
 Soil-moisture calibration (readADC): each raw reading is clamped to the
 calibration window [700, 1400] (700 wet, 1400 dry) and mapped with Arduino's
 classic integer `map` onto [100, 0] percent.
 */
module Soil {

  const Wet := 700
  const Dry := 1400

  /** Arduino's `constrain(x, lo, hi)`. */
  function Constrain(x: int, lo: int, hi: int): (r: int)
    requires lo <= hi
    ensures lo <= r <= hi
    ensures lo <= x <= hi ==> r == x
    ensures x < lo ==> r == lo
    ensures x > hi ==> r == hi
  {
    if x < lo then lo else if x > hi then hi else x
  }

  /** C's `/` on integers: the quotient truncated toward zero. */
  function TruncDiv(a: int, b: int): (q: int)
    requires b > 0
    ensures a >= 0 ==> q * b <= a < q * b + b
    ensures a < 0 ==> q * b - b < a <= q * b
  {
    if a >= 0 then a / b else -((-a) / b)
  }

  /**
   Arduino's classic `map`: (x - inMin) * (outMax - outMin) / (inMax - inMin) + outMin,
   with C's truncating division. Only increasing input ranges are used here.
   */
  function ArduinoMap(x: int, inMin: int, inMax: int, outMin: int, outMax: int): int
    requires inMin < inMax
  {
    TruncDiv((x - inMin) * (outMax - outMin), inMax - inMin) + outMin
  }

  /** One channel of readADC: the raw reading calibrated to a moisture percentage. */
  function SoilPercent(raw: int): (r: int)
    ensures 0 <= r <= 100
    ensures raw <= Wet ==> r == 100
    ensures raw >= Dry ==> r == 0
  {
    var c := Constrain(raw, Wet, Dry);
    ExactForm(c);
    ArduinoMap(c, Wet, Dry, 100, 0)
  }

  /**
   Inside the window the classic map loses no more than truncation: one
   percent per 7 raw units above the wet end, rounded toward the wet end.
   */
  lemma ExactForm(c: int)
    requires Wet <= c <= Dry
    ensures ArduinoMap(c, Wet, Dry, 100, 0) == 100 - (c - Wet) / 7
  {
    var d := c - Wet;
    var a := d * (0 - 100);
    assert a == -(d * 100);
    assert a <= 0;
    if a == 0 {
      assert d == 0;
    } else {
      assert TruncDiv(a, 700) == -((d * 100) / 700);
      assert (d * 100) / 700 == d / 7;
    }
  }

  /** The calibration in closed form: 100 minus one percent per 7 raw units above the wet end. */
  lemma SoilPercentClosedForm(raw: int)
    ensures SoilPercent(raw) == 100 - (Constrain(raw, Wet, Dry) - Wet) / 7
  {
    ExactForm(Constrain(raw, Wet, Dry));
  }

  /** The window's midpoint maps to exactly 50 percent. */
  lemma MidpointIsHalf()
    ensures SoilPercent((Wet + Dry) / 2) == 50
  {
    SoilPercentClosedForm(1050);
  }

  /** Truncation rounds toward the wet end: readings within 7 units of it still give 100. */
  lemma NearWetIsFull(raw: int)
    requires raw < Wet + 7
    ensures SoilPercent(raw) == 100
  {
    SoilPercentClosedForm(raw);
  }

  /** A drier (higher) reading never gives a higher percentage. */
  lemma SoilPercentNonIncreasing(x: int, y: int)
    requires x <= y
    ensures SoilPercent(x) >= SoilPercent(y)
  {
    SoilPercentClosedForm(x);
    SoilPercentClosedForm(y);
    var cx, cy := Constrain(x, Wet, Dry), Constrain(y, Wet, Dry);
    assert cx <= cy;
    DivMonotone(cx - Wet, cy - Wet, 7);
  }

  lemma DivMonotone(m: int, n: int, d: int)
    requires 0 <= m <= n && d > 0
    ensures m / d <= n / d
  {
    if m / d > n / d {
      assert (m / d) * d >= (n / d + 1) * d by {
        MulMonotone(n / d + 1, m / d, d);
      }
    }
  }

  lemma MulMonotone(a: int, b: int, d: int)
    requires a <= b && d > 0
    ensures a * d <= b * d
  {
  }
}
