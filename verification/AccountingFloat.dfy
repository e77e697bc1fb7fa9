/**
  The accounting float comp_t: a 13-bit mantissa and a base-8 exponent in 16 bits.
 */
module AccountingFloat {
  const MAXFRACT := 8191
  const MANTISSAS := 8192

  // ----- what the shifting loop computes -----

  // How often the value is shifted.
  function Exponent(value: nat): nat {
    if value <= MAXFRACT then 0 else 1 + Exponent(value / 8)
  }

  function Mantissa(value: nat): (m: nat)
    ensures m <= MAXFRACT && (value > MAXFRACT ==> m >= 1024)
  {
    if value <= MAXFRACT then value else Mantissa(value / 8)
  }

  // The highest bit that was shifted out last.
  predicate RoundUp(value: nat) {
    if value <= MAXFRACT then false
    else if value / 8 <= MAXFRACT then value / 4 % 2 == 1
    else RoundUp(value / 8)
  }

  function Rounded(value: nat): (m: nat)
    ensures m <= MANTISSAS
  {
    if RoundUp(value) then Mantissa(value) + 1 else Mantissa(value)
  }

  function Encode(value: nat): nat {
    if Rounded(value) > MAXFRACT then (Exponent(value) + 1) * MANTISSAS + Rounded(value) / 8
    else Exponent(value) * MANTISSAS + Rounded(value)
  }

  function Pow8(e: nat): (p: nat)
    ensures p > 0
  {
    if e == 0 then 1 else 8 * Pow8(e - 1)
  }

  function Decode(code: nat): nat {
    code % MANTISSAS * Pow8(code / MANTISSAS)
  }

  /** The loop of encode_comp_t. */
  method EncodeLoop(v: nat) returns (code: nat)
    ensures code == Encode(v)
  {
    var value: nat, exp: nat, rnd := v, 0, false;
    while value > MAXFRACT
      invariant Exponent(v) == exp + Exponent(value)
      invariant Mantissa(v) == Mantissa(value)
      invariant RoundUp(v) == if value <= MAXFRACT then rnd else RoundUp(value)
    {
      rnd := value / 4 % 2 == 1;
      value := value / 8;
      exp := exp + 1;
    }
    if rnd {
      value := value + 1;
      if value > MAXFRACT {
        value := value / 8;
        exp := exp + 1;
      }
    }
    return exp * MANTISSAS + value;
  }

  // ----- accuracy -----

  // The unit of the mantissa, and what the mantissa is worth.
  function Unit(value: nat): (u: nat)
    ensures u > 0
  {
    if value <= MAXFRACT then 1 else 8 * Unit(value / 8)
  }

  function Worth(value: nat): nat {
    if value <= MAXFRACT then value else 8 * Worth(value / 8)
  }

  lemma {:induction false} WorthIsProduct(value: nat)
    ensures Unit(value) == Pow8(Exponent(value)) && Worth(value) == Mantissa(value) * Unit(value)
  {
    if value > MAXFRACT {
      WorthIsProduct(value / 8);
      EightTimes(Mantissa(value / 8), Unit(value / 8));
    }
  }

  lemma EightTimes(m: nat, u: nat)
    ensures m * (8 * u) == 8 * (m * u)
  {
  }

  // Less than a unit is shifted out, and the bit tested says whether it is half of one.
  lemma {:induction false} RoundsHalves(value: nat)
    ensures Worth(value) <= value < Worth(value) + Unit(value)
    ensures value > MAXFRACT ==>
              && value >= 1024 * Unit(value)
              && (RoundUp(value) <==> 2 * (value - Worth(value)) >= Unit(value))
  {
    if value > MAXFRACT {
      RoundsHalves(value / 8);
      if value / 8 > MAXFRACT {
        HalfStep(value, Worth(value / 8), Unit(value / 64));
      }
    }
  }

  // Half of a unit that is a multiple of eight, before and after a shift by three bits.
  lemma HalfStep(value: nat, worth: nat, u: nat)
    ensures 2 * (value / 8 - worth) >= 8 * u <==> 2 * (value - 8 * worth) >= 64 * u
  {
  }

  // A code with its carry denotes the rounded mantissa in units of 8^exponent.
  lemma DecodeEncode(value: nat)
    ensures Decode(Encode(value)) == Worth(value) + if RoundUp(value) then Unit(value) else 0
  {
    var e, m := Exponent(value), Rounded(value);
    WorthIsProduct(value);
    assert (Mantissa(value) + 1) * Unit(value) == Mantissa(value) * Unit(value) + Unit(value);
    if m > MAXFRACT {
      CodeFields(e + 1, 1024);
      assert Pow8(e + 1) == 8 * Pow8(e);
    } else {
      CodeFields(e, m);
    }
  }

  lemma CodeFields(e: nat, m: nat)
    requires m < MANTISSAS
    ensures (e * MANTISSAS + m) % MANTISSAS == m && (e * MANTISSAS + m) / MANTISSAS == e
  {
  }

  /** The decoded value is the nearest multiple of the unit, so it is off by at most
      half a unit and 2048 times the error never exceeds the value; up to 8191 it is
      exact. */
  lemma RoundsToNearest(value: nat)
    ensures var d := Decode(Encode(value)); var error := if d >= value then d - value else value - d;
            && 2 * error <= Pow8(Exponent(value)) && 2048 * error <= value
            && (value <= MAXFRACT ==> Encode(value) == value && d == value)
  {
    DecodeEncode(value);
    RoundsHalves(value);
    WorthIsProduct(value);
  }

  // ----- range and order -----

  lemma {:induction false} ExponentBound(value: nat, e: nat)
    requires value < MANTISSAS * Pow8(e)
    ensures Exponent(value) <= e
    decreases e
  {
    if e == 0 {
      assert Pow8(0) == 1;
    } else if value > MAXFRACT {
      ExponentBound(value / 8, e - 1);
    }
  }

  /** Every 32-bit value fits the 16 bits of a comp_t. */
  lemma FitsSixteenBits(value: nat)
    requires value < 0x1_0000_0000
    ensures Encode(value) < 0x1_0000
  {
    assert Pow8(7) == 2097152 by {
      assert Pow8(3) == 512;
      assert Pow8(5) == 64 * Pow8(3);
    }
    ExponentBound(value, 7);
    if Exponent(value) == 7 {
      RoundsHalves(value);
      WorthIsProduct(value);
    }
  }

  lemma {:induction false} ExponentMonotone(v: nat, w: nat)
    requires v <= w
    ensures Exponent(v) <= Exponent(w)
    ensures Exponent(v) == Exponent(w) ==> Mantissa(v) <= Mantissa(w)
    ensures Exponent(v) == Exponent(w) && Mantissa(v) == Mantissa(w) ==> (RoundUp(v) ==> RoundUp(w))
    decreases w
  {
    if v > MAXFRACT {
      ExponentMonotone(v / 8, w / 8);
      if Exponent(v) == Exponent(w) && Mantissa(v) == Mantissa(w) {
        RoundsHalves(v);
        RoundsHalves(w);
        WorthIsProduct(v);
        WorthIsProduct(w);
      }
    }
  }

  /** Encoding keeps the order. */
  lemma Monotone(v: nat, w: nat)
    requires v <= w
    ensures Encode(v) <= Encode(w)
  {
    ExponentMonotone(v, w);
    if Exponent(v) < Exponent(w) {
      assert w > MAXFRACT;
    }
  }
}
