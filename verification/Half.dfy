/** bulk/npy.go: float32 to binary16 and back (IEEE 754-2019, encodings of section 3.4). */
module Half {

  // Bit patterns are numbers: a mask or a shift is a remainder or a division by a power of two, and
  // an OR of fields that do not overlap is a sum.
  type Bits32 = n: nat | n < 0x1_0000_0000
  type Bits16 = n: nat | n < 0x1_0000

  function Pow2(n: nat): (p: nat)
    ensures p > 0
  {
    if n == 0 then 1 else 2 * Pow2(n - 1)
  }

  function RoundUp(half: nat, rem: nat, mid: nat): (r: nat)
    ensures half <= r <= half + 1
  {
    if rem > mid || (rem == mid && half % 2 == 1) then half + 1 else half
  }

  /** full shifted right, rounded. */
  function RoundShift(full: nat, shift: nat): nat
    requires shift > 0
  {
    hide Pow2, RoundUp;
    RoundUp(full / Pow2(shift), full % Pow2(shift), Pow2(shift - 1))
  }

  function Float32ToHalf(bits: Bits32): Bits16 {
    bits / 0x8000_0000 * 0x8000 + HalfMagnitude(bits / 0x80_0000 % 0x100, bits % 0x80_0000)
  }

  /** The exponent and mantissa stored for a float32's; rounding up may carry into the exponent. */
  function HalfMagnitude(field: nat, mant: nat): (m: nat)
    requires field < 0x100 && mant < 0x80_0000
    ensures m < 0x8000
  {
    hide Pow2, RoundUp;
    var exp := field - 127 + 15;
    if field == 0xff then
      if mant != 0 then 0x7e00 else 0x7c00
    else if exp >= 0x1f then
      0x7c00
    else if exp <= 0 then
      if exp < -10 then
        0
      else
        var shift := 14 - exp;
        ShiftedSmall(mant + 0x80_0000, shift);
        RoundShift(mant + 0x80_0000, shift)
    else
      RoundUp(exp * 0x400 + mant / 0x2000, mant % 0x2000, 0x1000)
  }

  lemma ShiftedSmall(mant: nat, shift: nat)
    requires 14 <= shift && mant < 0x100_0000
    ensures mant / Pow2(shift) < 0x400
  {
    var p := Pow2(shift);
    assert p >= 0x4000 by {
      hide Pow2;
      Pow2Add(14, shift - 14);
      SmallPowers();
    }
    hide Pow2;
    Quotient(mant, p);
  }

  lemma Quotient(mant: nat, p: nat)
    requires p >= 0x4000 && mant < 0x100_0000
    ensures mant / p < 0x400
  {
    var q := mant / p;
    assert q * p <= mant;
    assert q >= 0x400 ==> q * p >= 0x400 * p;
  }

  lemma {:induction false} Pow2Add(a: nat, b: nat)
    ensures Pow2(a + b) == Pow2(a) * Pow2(b)
  {
    if a > 0 { Pow2Add(a - 1, b); }
  }

  lemma SmallPowers()
    ensures Pow2(0) == 1 && Pow2(5) == 32 && Pow2(6) == 64
    ensures Pow2(11) == 0x800 && Pow2(13) == 0x2000 && Pow2(14) == 0x4000 && Pow2(24) == 0x100_0000
  {
    Pow2Add(11, 13);
  }

  /** How far a significand must move left for its leading bit to be the hidden one. */
  function LeadingZeros(mant: nat): (k: nat)
    requires 0 < mant < 0x800
    ensures 0x400 <= mant * Pow2(k) < 0x800
    decreases 0x800 - mant
  {
    if mant >= 0x400 then 0 else 1 + LeadingZeros(2 * mant)
  }

  lemma AtMostTen(mant: nat)
    requires 0 < mant < 0x800
    ensures LeadingZeros(mant) <= 10
  {
    var k := LeadingZeros(mant);
    hide Pow2, LeadingZeros;
    NotBelow(Pow2(k), mant);
    SmallPowers();
    if k > 10 { PowGrows(11, k); }
  }

  lemma PowGrows(a: nat, b: nat)
    requires a <= b
    ensures Pow2(a) <= Pow2(b)
  {
    hide Pow2;
    Pow2Add(a, b - a);
    NotBelow(Pow2(a), Pow2(b - a));
  }

  method HalfToFloat32(h: Bits16) returns (bits: Bits32)
    ensures bits == Widened(h)
  {
    hide Widened, Pow2, LeadingZeros;
    var sign := h / 0x8000 * 0x8000_0000;
    var exp := h / 0x400 % 0x20;
    var mant := h % 0x400;
    if exp == 0 {
      if mant == 0 {
        assert Widened(h) == sign by { WidenedZero(h); }
        return sign;
      }
      var e := 127 - 15 + 1;
      AtMostTen(mant);
      SmallPowers();
      while mant / 0x400 % 2 == 0
        invariant 0 < mant < 0x800 && e <= 0x71
        invariant mant == h % 0x400 * Pow2(0x71 - e)
        invariant 0x71 - e + LeadingZeros(mant) == LeadingZeros(h % 0x400)
        decreases 0x800 - mant
      {
        Doubled(mant, h % 0x400, 0x71 - e);
        mant := mant * 2;
        e := e - 1;
      }
      Settled(mant);
      WidenedSubnormal(h);
      mant := mant % 0x400;
      return sign + e * 0x80_0000 + mant * 0x2000;
    }
    WidenedRest(h);
    if exp == 0x1f {
      return sign + 0xff * 0x80_0000 + mant * 0x2000;
    }
    bits := sign + (exp - 15 + 127) * 0x80_0000 + mant * 0x2000;
  }

  lemma Doubled(mant: nat, first: nat, k: nat)
    requires 0 < mant < 0x400 && mant == first * Pow2(k)
    ensures LeadingZeros(mant) == 1 + LeadingZeros(2 * mant)
    ensures mant * 2 == first * Pow2(k + 1)
  {}

  lemma Settled(mant: nat)
    requires 0x400 <= mant < 0x800
    ensures LeadingZeros(mant) == 0
  {}

  lemma WidenedSubnormal(h: Bits16)
    requires h / 0x400 % 0x20 == 0 && h % 0x400 != 0
    ensures LeadingZeros(h % 0x400) <= 10
    ensures Widened(h) == h / 0x8000 * 0x8000_0000 + (0x71 - LeadingZeros(h % 0x400)) * 0x80_0000
                          + h % 0x400 * Pow2(LeadingZeros(h % 0x400)) % 0x400 * 0x2000
  {
    AtMostTen(h % 0x400);
    hide LeadingZeros, Pow2;
  }

  lemma WidenedZero(h: Bits16)
    requires h / 0x400 % 0x20 == 0 && h % 0x400 == 0
    ensures Widened(h) == h / 0x8000 * 0x8000_0000
  {}

  lemma WidenedRest(h: Bits16)
    requires h / 0x400 % 0x20 != 0
    ensures Widened(h) == h / 0x8000 * 0x8000_0000 + h % 0x400 * 0x2000
                          + (if h / 0x400 % 0x20 == 0x1f then 0xff else h / 0x400 % 0x20 + 0x70) * 0x80_0000
  {}

  function Widened(h: Bits16): Bits32 {
    var sign := h / 0x8000 * 0x8000_0000;
    var exp := h / 0x400 % 0x20;
    var mant := h % 0x400;
    if exp == 0 && mant == 0 then
      sign
    else if exp == 0 then
      AtMostTen(mant);
      var k := LeadingZeros(mant);
      sign + (0x71 - k) * 0x80_0000 + mant * Pow2(k) % 0x400 * 0x2000
    else if exp == 0x1f then
      sign + 0xff * 0x80_0000 + mant * 0x2000
    else
      sign + (exp + 0x70) * 0x80_0000 + mant * 0x2000
  }

  // -------------------------------------------------------------------------------- the values

  /** The magnitude of a finite float32, counted in units of 2^-149. */
  function FloatUnits(bits: Bits32): nat {
    var field, mant := bits / 0x80_0000 % 0x100, bits % 0x80_0000;
    if field == 0 then mant else (0x80_0000 + mant) * Pow2(field - 1)
  }

  /** The magnitude of a binary16 in the same units; the pattern after the largest finite one, which
    * is infinity, counts as the next power of two, as rounding to nearest treats it. */
  function HalfUnits(m: nat): nat {
    if m < 0x400 then m * Pow2(125) else (0x400 + m % 0x400) * Pow2(m / 0x400 + 124)
  }

  function Distance(a: nat, b: nat): nat { if a < b then b - a else a - b }

  /** m is the binary16 magnitude nearest to x, the even one of two equally near. */
  ghost predicate NearestEven(x: nat, m: nat) {
    && m <= 0x7c00
    && forall g {:trigger HalfUnits(g)} :: 0 <= g <= 0x7c00 && g != m ==>
         || Distance(x, HalfUnits(m)) < Distance(x, HalfUnits(g))
         || (Distance(x, HalfUnits(m)) == Distance(x, HalfUnits(g)) && m % 2 == 0)
  }

  lemma NextUnits(m: nat)
    ensures HalfUnits(m + 1) == HalfUnits(m) + Pow2(if m < 0x400 then 125 else m / 0x400 + 124)
  {
    if m >= 0x400 {
      var e := m / 0x400 + 124;
      if m % 0x400 == 0x3ff {
        assert (m + 1) % 0x400 == 0 && (m + 1) / 0x400 == m / 0x400 + 1;
        assert Pow2(e + 1) == 2 * Pow2(e);
      } else {
        assert (m + 1) % 0x400 == m % 0x400 + 1 && (m + 1) / 0x400 == m / 0x400;
      }
    } else if m == 0x3ff {
      assert HalfUnits(m + 1) == 0x400 * Pow2(125);
    }
  }

  /** Binary16 magnitudes are ordered as their patterns are. */
  lemma {:induction false} UnitsIncrease(a: nat, b: nat)
    requires a < b
    ensures HalfUnits(a) < HalfUnits(b)
    decreases b - a
  {
    NextUnits(a);
    if a + 1 < b { UnitsIncrease(a + 1, b); }
  }

  /** Between two neighbours, RoundUp picks the nearest of all. */
  lemma Rounds(x: nat, l: nat, rem: nat, mid: nat, unit: nat)
    requires l < 0x7c00 && rem < 2 * mid && unit > 0
    requires x == HalfUnits(l) + rem * unit && HalfUnits(l + 1) == HalfUnits(l) + 2 * mid * unit
    ensures NearestEven(x, RoundUp(l, rem, mid))
    ensures Distance(x, HalfUnits(RoundUp(l, rem, mid))) <= mid * unit
  {
    hide HalfUnits;
    var r := RoundUp(l, rem, mid);
    Scaled(rem, 2 * mid, unit);
    Scaled(2 * mid - rem, mid, unit);
    Scaled(mid, 2 * mid - rem, unit);
    Scaled(rem, mid, unit);
    Scaled(mid, rem, unit);
    assert (2 * mid - rem) * unit == 2 * mid * unit - rem * unit;
    assert Distance(x, HalfUnits(l)) == rem * unit && Distance(x, HalfUnits(l + 1)) == (2 * mid - rem) * unit;
    forall g | 0 <= g <= 0x7c00 && g != r
      ensures || Distance(x, HalfUnits(r)) < Distance(x, HalfUnits(g))
              || (Distance(x, HalfUnits(r)) == Distance(x, HalfUnits(g)) && r % 2 == 0)
    {
      if g < l { UnitsIncrease(g, l); }
      if g > l + 1 { UnitsIncrease(l + 1, g); }
    }
  }

  lemma Scaled(a: nat, b: nat, unit: nat)
    requires unit > 0
    ensures a < b ==> a * unit < b * unit
    ensures a == b ==> a * unit == b * unit
  {}

  // ------------------------------------------------------------------------------- the rounding

  predicate Finite32(bits: Bits32) { bits / 0x80_0000 % 0x100 != 0xff }

  predicate Nan32(bits: Bits32) { !Finite32(bits) && bits % 0x80_0000 != 0 }

  predicate Nan16(h: Bits16) { h / 0x400 % 0x20 == 0x1f && h % 0x400 != 0 }

  /** Storing keeps the sign, rounds every finite value to the nearest binary16 with ties to even, and
    * keeps infinities and not-a-numbers what they are. */
  lemma StoresNearest(bits: Bits32)
    ensures Float32ToHalf(bits) / 0x8000 == bits / 0x8000_0000
    ensures Finite32(bits) ==> NearestEven(FloatUnits(bits), Float32ToHalf(bits) % 0x8000)
    ensures !Finite32(bits) ==> (Nan32(bits) <==> Nan16(Float32ToHalf(bits)))
    ensures !Finite32(bits) && !Nan32(bits) ==> Float32ToHalf(bits) % 0x8000 == 0x7c00
  {
    var field, mant := bits / 0x80_0000 % 0x100, bits % 0x80_0000;
    if Finite32(bits) {
      if field >= 0x8f {
        StoresLarge(bits);
      } else if field >= 0x71 {
        StoresNormal(bits);
      } else if field >= 0x66 {
        StoresSmall(bits);
      } else {
        StoresTiny(bits);
      }
    }
  }

  lemma StoresNormal(bits: Bits32)
    requires 0x71 <= bits / 0x80_0000 % 0x100 <= 0x8e
    ensures Float32ToHalf(bits) / 0x8000 == bits / 0x8000_0000
    ensures NearestEven(FloatUnits(bits), Float32ToHalf(bits) % 0x8000)
    ensures Distance(FloatUnits(bits), HalfUnits(Float32ToHalf(bits) % 0x8000)) * 0x800 <= FloatUnits(bits)
  {
    hide NearestEven, Pow2, HalfMagnitude, HalfUnits, RoundUp, Distance;
    var field, mant := bits / 0x80_0000 % 0x100, bits % 0x80_0000;
    var exp := field - 0x70;
    assert HalfMagnitude(field, mant) == RoundUp(exp * 0x400 + mant / 0x2000, mant % 0x2000, 0x1000) by {
      NormalStored(field, mant);
    }
    NormalRounds(mant, field);
    Scaled(0x80_0000, 0x80_0000 + mant, Pow2(field - 1));
  }

  lemma NormalStored(field: nat, mant: nat)
    requires 0x71 <= field <= 0x8e && mant < 0x80_0000
    ensures HalfMagnitude(field, mant) == RoundUp((field - 0x70) * 0x400 + mant / 0x2000, mant % 0x2000, 0x1000)
  {
    hide Pow2, RoundUp;
  }

  /** A normal significand is rounded to the nearest of ten explicit bits. */
  lemma NormalRounds(mant: nat, field: nat)
    requires 0x71 <= field <= 0x8e && mant < 0x80_0000
    ensures var r := RoundUp((field - 0x70) * 0x400 + mant / 0x2000, mant % 0x2000, 0x1000);
            && NearestEven((0x80_0000 + mant) * Pow2(field - 1), r)
            && Distance((0x80_0000 + mant) * Pow2(field - 1), HalfUnits(r)) <= 0x1000 * Pow2(field - 1)
  {
    hide NearestEven, Pow2, RoundUp, Distance;
    var q, rem := mant / 0x2000, mant % 0x2000;
    var l, unit := (field - 0x70) * 0x400 + q, Pow2(field - 1);
    assert l / 0x400 == field - 0x70 && l % 0x400 == q;
    assert Pow2(l / 0x400 + 124) == 0x2000 * unit by {
      Pow2Add(13, field - 1);
      SmallPowers();
    }
    NextUnits(l);
    assert (0x400 + q) * (0x2000 * unit) + rem * unit == (0x80_0000 + mant) * unit;
    assert HalfUnits(l) == (0x400 + q) * (0x2000 * unit);
    hide HalfUnits;
    Rounds((0x80_0000 + mant) * unit, l, rem, 0x1000, unit);
  }

  lemma StoresSmall(bits: Bits32)
    requires 0x66 <= bits / 0x80_0000 % 0x100 <= 0x70
    ensures Float32ToHalf(bits) / 0x8000 == bits / 0x8000_0000
    ensures NearestEven(FloatUnits(bits), Float32ToHalf(bits) % 0x8000)
    ensures Distance(FloatUnits(bits), HalfUnits(Float32ToHalf(bits) % 0x8000)) <= Pow2(124)
  {
    hide NearestEven, Pow2, HalfMagnitude, RoundUp, Distance;
    var field, mant := bits / 0x80_0000 % 0x100, bits % 0x80_0000;
    var shift := 14 - (field - 0x70);
    var l, rem := (mant + 0x80_0000) / Pow2(shift), (mant + 0x80_0000) % Pow2(shift);
    SmallStored(field, mant, shift);
    ShiftedSmall(mant + 0x80_0000, shift);
    SmallRounds(mant + 0x80_0000, field, shift, l, rem);
  }

  lemma SmallStored(field: nat, mant: nat, shift: nat)
    requires 0x66 <= field <= 0x70 && shift == 14 - (field - 0x70) && mant < 0x80_0000
    ensures HalfMagnitude(field, mant) == RoundShift(mant + 0x80_0000, shift)
  {
    hide Pow2, RoundUp, RoundShift;
  }

  lemma Subnormals(l: nat)
    requires l < 0x400
    ensures HalfUnits(l) == l * Pow2(125) && HalfUnits(l + 1) == HalfUnits(l) + Pow2(125)
  {
    hide Pow2;
    NextUnits(l);
  }

  /** A significand shifted into the subnormals is rounded to the nearest of them. */
  lemma SmallRounds(full: nat, field: nat, shift: nat, l: nat, rem: nat)
    requires 0x66 <= field <= 0x70 && shift == 14 - (field - 0x70)
    requires full == l * Pow2(shift) + rem && rem < Pow2(shift) && l < 0x400
    ensures NearestEven(full * Pow2(field - 1), RoundUp(l, rem, Pow2(shift - 1)))
    ensures Distance(full * Pow2(field - 1), HalfUnits(RoundUp(l, rem, Pow2(shift - 1)))) <= Pow2(124)
  {
    hide NearestEven, Pow2, RoundUp, Distance, HalfUnits;
    var p, unit, mid := Pow2(shift), Pow2(field - 1), Pow2(shift - 1);
    DoublePow(shift - 1);
    Pow2Add(shift, field - 1);
    Pow2Add(shift - 1, field - 1);
    SplitProduct(full, l, p, rem, unit);
    SplitProduct(p, 2, mid, 0, unit);
    Subnormals(l);
    Rounds(full * unit, l, rem, mid, unit);
  }

  lemma SplitProduct(full: nat, l: nat, p: nat, rem: nat, unit: nat)
    requires full == l * p + rem
    ensures full * unit == l * (p * unit) + rem * unit
  {}

  lemma DoublePow(n: nat)
    ensures Pow2(n + 1) == 2 * Pow2(n)
  {}

  lemma StoresTiny(bits: Bits32)
    requires bits / 0x80_0000 % 0x100 <= 0x65
    ensures Float32ToHalf(bits) == bits / 0x8000_0000 * 0x8000
    ensures NearestEven(FloatUnits(bits), 0) && FloatUnits(bits) <= Pow2(124)
  {
    hide NearestEven, Pow2, Float32ToHalf;
    assert Float32ToHalf(bits) == bits / 0x8000_0000 * 0x8000 by { TinyIsZero(bits); }
    var field, mant := bits / 0x80_0000 % 0x100, bits % 0x80_0000;
    var x := FloatUnits(bits);
    assert x < Pow2(124) by { TinyUnits(bits); }
    DoublePow(124);
    NextUnits(0);
    assert HalfUnits(0) == 0 && HalfUnits(1) == 2 * Pow2(124) * 1;
    Rounds(x, 0, x, Pow2(124), 1);
  }

  lemma TinyIsZero(bits: Bits32)
    requires bits / 0x80_0000 % 0x100 <= 0x65
    ensures Float32ToHalf(bits) == bits / 0x8000_0000 * 0x8000
  {}

  lemma TinyUnits(bits: Bits32)
    requires bits / 0x80_0000 % 0x100 <= 0x65
    ensures FloatUnits(bits) < Pow2(124)
  {
    hide Pow2;
    var field, mant := bits / 0x80_0000 % 0x100, bits % 0x80_0000;
    SmallPowers();
    if field == 0 {
      Pow2Add(24, 100);
      Scaled(1, Pow2(100) + 1, Pow2(24));
    } else {
      Pow2Add(24, field - 1);
      Pow2Add(24 + (field - 1), 124 - 24 - (field - 1));
      assert FloatUnits(bits) < Pow2(24) * Pow2(field - 1) == Pow2(24 + (field - 1)) by {
        Scaled(0x80_0000 + mant, Pow2(24), Pow2(field - 1));
      }
      assert Pow2(24 + (field - 1)) <= Pow2(124) by {
        NotBelow(Pow2(24 + (field - 1)), Pow2(124 - 24 - (field - 1)));
      }
    }
  }

  lemma NotBelow(a: nat, b: nat)
    requires b > 0
    ensures a <= a * b
  {}

  lemma StoresLarge(bits: Bits32)
    requires 0x8f <= bits / 0x80_0000 % 0x100 < 0xff
    ensures Float32ToHalf(bits) == bits / 0x8000_0000 * 0x8000 + 0x7c00
    ensures NearestEven(FloatUnits(bits), 0x7c00)
  {
    assert Float32ToHalf(bits) == bits / 0x8000_0000 * 0x8000 + 0x7c00;
    LargeUnits(bits);
    forall g | 0 <= g < 0x7c00
      ensures Distance(FloatUnits(bits), HalfUnits(0x7c00)) < Distance(FloatUnits(bits), HalfUnits(g))
    {
      hide HalfUnits, FloatUnits;
      UnitsIncrease(g, 0x7c00);
    }
  }

  lemma LargeUnits(bits: Bits32)
    requires 0x8f <= bits / 0x80_0000 % 0x100 < 0xff
    ensures HalfUnits(0x7c00) <= FloatUnits(bits)
  {
    hide Pow2;
    var field, mant := bits / 0x80_0000 % 0x100, bits % 0x80_0000;
    assert HalfUnits(0x7c00) == 0x400 * Pow2(155);
    assert Pow2(13) == 0x2000 by { SmallPowers(); }
    Pow2Add(13, field - 1);
    Pow2Add(155, field + 12 - 155);
    NotBelow(Pow2(155), Pow2(field + 12 - 155));
    assert FloatUnits(bits) >= 0x80_0000 * Pow2(field - 1) by {
      Scaled(0x80_0000, 0x80_0000 + mant, Pow2(field - 1));
    }
    assert 0x80_0000 * Pow2(field - 1) == 0x400 * (0x2000 * Pow2(field - 1));
  }

  /** Only a value of 65520 or more is stored as infinity: half way to the power after the largest. */
  lemma OverflowExactly(bits: Bits32)
    requires Finite32(bits)
    ensures Float32ToHalf(bits) % 0x8000 == 0x7c00 <==> FloatUnits(bits) >= 65520 * Pow2(149)
  {
    hide FloatUnits, Float32ToHalf, Pow2;
    StoresNearest(bits);
    var x, m := FloatUnits(bits), Float32ToHalf(bits) % 0x8000;
    assert HalfUnits(0x7bff) == 65504 * Pow2(149) && HalfUnits(0x7c00) == 65536 * Pow2(149) by { Top(); }
    hide HalfUnits;
    if x >= 65520 * Pow2(149) && m < 0x7bff { UnitsIncrease(m, 0x7bff); }
  }

  lemma Top()
    ensures HalfUnits(0x7bff) == 65504 * Pow2(149) && HalfUnits(0x7c00) == 65536 * Pow2(149)
  {
    hide Pow2;
    SmallPowers();
    Pow2Add(5, 149);
    Pow2Add(6, 149);
    assert 0x7bff / 0x400 == 30 && 0x7bff % 0x400 == 0x3ff && 0x7c00 / 0x400 == 31 && 0x7c00 % 0x400 == 0;
  }

  /** Below that, the error is at most 2^-11 of the value, or at most 2^-25. */
  lemma ErrorBound(bits: Bits32)
    requires Finite32(bits) && FloatUnits(bits) < 65520 * Pow2(149)
    ensures var error := Distance(FloatUnits(bits), HalfUnits(Float32ToHalf(bits) % 0x8000));
            error * 0x800 <= FloatUnits(bits) || error <= Pow2(124)
  {
    hide FloatUnits, Float32ToHalf, Pow2, HalfUnits, NearestEven;
    var field := bits / 0x80_0000 % 0x100;
    if field >= 0x8f {
      OverflowExactly(bits);
      StoresLarge(bits);
    } else if field >= 0x71 {
      StoresNormal(bits);
    } else if field >= 0x66 {
      StoresSmall(bits);
    } else {
      StoresTiny(bits);
      NoUnits();
    }
  }

  lemma NoUnits()
    ensures HalfUnits(0) == 0
  {}

  // ------------------------------------------------------------------------------- reading back

  /** Reading back changes no value: finite magnitudes are exact, infinities and not-a-numbers stay. */
  lemma WidensExactly(h: Bits16)
    ensures Widened(h) / 0x8000_0000 == h / 0x8000
    ensures Finite32(Widened(h)) <==> h / 0x400 % 0x20 != 0x1f
    ensures Finite32(Widened(h)) ==> FloatUnits(Widened(h)) == HalfUnits(h % 0x8000)
    ensures Nan32(Widened(h)) <==> Nan16(h)
  {
    hide Pow2, LeadingZeros, Widened, FloatUnits, HalfUnits;
    var exp, mant := h / 0x400 % 0x20, h % 0x400;
    if exp == 0 && mant != 0 {
      WidensSubnormal(h);
    } else if exp == 0 {
      WidensZero(h);
    } else if exp == 0x1f {
      WidensSpecial(h);
    } else {
      WidensNormal(h);
    }
  }

  lemma WidensZero(h: Bits16)
    requires h % 0x8000 == 0
    ensures Widened(h) == h / 0x8000 * 0x8000_0000 && Finite32(Widened(h))
    ensures FloatUnits(Widened(h)) == HalfUnits(h % 0x8000)
  {
    hide Pow2;
    assert Widened(h) == h / 0x8000 * 0x8000_0000 by { WidenedZero(h); }
    hide Widened;
    assert Widened(h) / 0x80_0000 % 0x100 == 0 && Widened(h) % 0x80_0000 == 0;
  }

  lemma WidensSpecial(h: Bits16)
    requires h / 0x400 % 0x20 == 0x1f
    ensures Widened(h) / 0x8000_0000 == h / 0x8000 && !Finite32(Widened(h))
    ensures Nan32(Widened(h)) <==> Nan16(h)
  {
    hide Widened;
    WidenedRest(h);
    assert Widened(h) == h / 0x8000 * 0x8000_0000 + 0xff * 0x80_0000 + h % 0x400 * 0x2000;
  }

  lemma Fields(bits: Bits32, sign: nat, field: nat, mant: nat)
    requires bits == sign * 0x8000_0000 + field * 0x80_0000 + mant && field < 0x100 && mant < 0x80_0000
    ensures bits / 0x8000_0000 == sign && bits / 0x80_0000 % 0x100 == field && bits % 0x80_0000 == mant
  {}

  lemma WidensNormal(h: Bits16)
    requires 0 < h / 0x400 % 0x20 < 0x1f
    ensures Widened(h) / 0x8000_0000 == h / 0x8000 && Finite32(Widened(h))
    ensures FloatUnits(Widened(h)) == HalfUnits(h % 0x8000)
  {
    hide Pow2, Widened;
    var exp, mant := h / 0x400 % 0x20, h % 0x400;
    WidenedRest(h);
    Fields(Widened(h), h / 0x8000, exp + 0x70, mant * 0x2000);
    assert h % 0x8000 / 0x400 == exp && h % 0x8000 % 0x400 == mant;
    Pow2Add(13, exp + 0x6f);
    SmallPowers();
    SplitProduct(0x80_0000 + mant * 0x2000, 0x400 + mant, 0x2000, 0, Pow2(exp + 0x6f));
  }

  lemma WidensSubnormal(h: Bits16)
    requires h / 0x400 % 0x20 == 0 && h % 0x400 != 0
    ensures Widened(h) / 0x8000_0000 == h / 0x8000 && Finite32(Widened(h))
    ensures FloatUnits(Widened(h)) == HalfUnits(h % 0x8000)
  {
    hide Pow2, LeadingZeros, Widened, HalfUnits;
    var mant := h % 0x400;
    assert h % 0x8000 == mant;
    var k := LeadingZeros(mant);
    WidenedSubnormal(h);
    var low := mant * Pow2(k) - 0x400;
    assert mant * Pow2(k) % 0x400 == low;
    Fields(Widened(h), h / 0x8000, 0x71 - k, low * 0x2000);
    Subnormals(mant);
    SubnormalUnits(mant, k, low);
  }

  lemma SubnormalUnits(mant: nat, k: nat, low: nat)
    requires k <= 10 && mant * Pow2(k) == low + 0x400
    ensures (0x80_0000 + low * 0x2000) * Pow2(0x70 - k) == mant * Pow2(125)
  {
    hide Pow2;
    Pow2Add(13, 0x70 - k);
    Pow2Add(k, 0x7d - k);
    SmallPowers();
    Regroup(mant, Pow2(k), Pow2(0x70 - k), Pow2(0x7d - k));
  }

  lemma Regroup(mant: nat, a: nat, b: nat, c: nat)
    requires mant * a >= 0x400 && c == 0x2000 * b
    ensures (0x80_0000 + (mant * a - 0x400) * 0x2000) * b == mant * (a * c)
  {
    assert 0x80_0000 + (mant * a - 0x400) * 0x2000 == mant * a * 0x2000;
    assert mant * a * 0x2000 * b == mant * a * (0x2000 * b);
  }

  /** A magnitude that is exactly a binary16 has no other nearest one. */
  lemma ExactIsNearest(m: nat, g: nat)
    requires NearestEven(HalfUnits(g), m) && g <= 0x7c00
    ensures m == g
  {
    hide HalfUnits;
    if m < g { UnitsIncrease(m, g); }
    if m > g { UnitsIncrease(g, m); }
  }

  /** Storing what was read gives the stored bits back, exactly when they are not a not-a-number with
    * a payload other than the one the conversion writes. */
  lemma ReadThenStored(h: Bits16)
    ensures Float32ToHalf(Widened(h)) == h <==> !Nan16(h) || h % 0x400 == 0x200
  {
    hide HalfUnits, FloatUnits, NearestEven, Widened;
    WidensExactly(h);
    StoresNearest(Widened(h));
    if Finite32(Widened(h)) {
      hide Float32ToHalf;
      ExactIsNearest(Float32ToHalf(Widened(h)) % 0x8000, h % 0x8000);
    } else {
      hide RoundUp, Pow2;
      assert Nan16(h) ==> Float32ToHalf(Widened(h)) == h / 0x8000 * 0x8000 + 0x7e00;
    }
  }

  /** Storing the values read back changes nothing, whatever was stored first. */
  lemma StoredTwice(bits: Bits32)
    ensures Float32ToHalf(Widened(Float32ToHalf(bits))) == Float32ToHalf(bits)
  {
    var h := Float32ToHalf(bits);
    StoresNearest(bits);
    assert Nan16(h) ==> h % 0x400 == 0x200 by {
      hide RoundUp, Pow2, FloatUnits, NearestEven;
      if Finite32(bits) { FiniteStays(bits); }
    }
    hide Float32ToHalf;
    ReadThenStored(h);
  }

  lemma FiniteStays(bits: Bits32)
    requires Finite32(bits)
    ensures !Nan16(Float32ToHalf(bits))
  {
    hide Float32ToHalf, HalfUnits, FloatUnits;
    StoresNearest(bits);
  }
}
