/** The BMM150 magnetometer's fixed-point trim compensation (crates/bmm150/src/lib.rs).
    Every `<<`, `>>`, `as` cast and checked operator is written out, so that "fits" is a theorem
    and not a property of the model's integers. The firmware is built with overflow checks on in
    every profile, so a checked operator that overflows is a panic. */
module Bmm150 {
  import opened MachineInts

  const XY_OVERFLOW: I16 := -4096
  const Z_OVERFLOW: I16 := -16384

  /** Factory trim constants, with the widths of the register block. */
  datatype Trim = Trim(x1: I8, y1: I8, z4: I16, x2: I8, y2: I8, z2: I16,
                       z1: U16, xyz1: U16, z3: I16, xy2: I8, xy1: U8)

  datatype RawSample = RawSample(x: I16, y: I16, z: I16, rhall: U16)

  datatype Axis = X | Y

  /** A checked computation: a value, or the panic it stops with. */
  datatype Checked = Value(v: I32) | DivideByZero | AddOverflow

  datatype Reading = Overflow | Panic | Reading(x: I32, y: I32, z: I32)

  function U16FromLe(lo: U8, hi: U8): U16 { lo + 0x100 * hi }

  function I16FromLe(lo: U8, hi: U8): I16 { AsI16(U16FromLe(lo, hi)) }

  function ParseTrim(buf: seq<U8>): Trim
    requires |buf| == 21
  {
    Trim(AsI8(buf[0]), AsI8(buf[1]), I16FromLe(buf[5], buf[6]), AsI8(buf[7]), AsI8(buf[8]),
         I16FromLe(buf[11], buf[12]), U16FromLe(buf[13], buf[14]), U16FromLe(buf[15], buf[16]),
         I16FromLe(buf[17], buf[18]), AsI8(buf[19]), buf[20])
  }

  function Le(word: U16): seq<U8> { [word % 0x100, word / 0x100] }

  /** The 21 bytes a factory would burn for `t`: the documented offsets, with zeros in the gaps. */
  function TrimBlock(t: Trim): seq<U8> {
    [t.x1 % 0x100, t.y1 % 0x100, 0, 0, 0] + Le(AsU16(t.z4)) + [t.x2 % 0x100, t.y2 % 0x100, 0, 0]
    + Le(AsU16(t.z2)) + Le(t.z1) + Le(t.xyz1) + Le(AsU16(t.z3)) + [t.xy2 % 0x100, t.xy1]
  }

  lemma WordRoundTrip(x: I16)
    ensures var w := Le(AsU16(x)); I16FromLe(w[0], w[1]) == x
  {
    AsI16OfWord(AsU16(x));
    var w := AsU16(x);
    assert w % 0x100 + 0x100 * (w / 0x100) == w;
    assert w == if x < 0 then x + 0x1_0000 else x;
  }

  lemma ByteRoundTrip(x: I8)
    ensures AsI8(x % 0x100) == x
  {
  }

  /** Parsing recovers every trim from its block, so a claim about every `Trim` is a claim about
      every block a chip can hold. */
  lemma TrimRoundTrip(t: Trim)
    ensures ParseTrim(TrimBlock(t)) == t
  {
    WordRoundTrip(t.z4);
    WordRoundTrip(t.z2);
    WordRoundTrip(t.z3);
    ByteRoundTrip(t.x1);
    ByteRoundTrip(t.y1);
    ByteRoundTrip(t.x2);
    ByteRoundTrip(t.y2);
    ByteRoundTrip(t.xy2);
  }

  /** Two's complement by the sign bit of the top byte. */
  function SignedByte(b: int): int { if b < 128 then b else b - 256 }

  function Word(lo: int, hi: int): int { lo + 256 * hi }

  function SignedWord16(lo: int, hi: int): int { lo + 256 * SignedByte(hi) }

  lemma WordInNumbers(lo: U8, hi: U8)
    ensures I16FromLe(lo, hi) == SignedWord16(lo, hi)
    ensures U16FromLe(lo, hi) == Word(lo, hi)
  {
    AsI16OfWord(U16FromLe(lo, hi));
  }

  lemma ByteInNumbers(b: U8)
    ensures AsI8(b) == SignedByte(b)
  {
  }

  /** The trim block in numbers: each field at its own offset, words low byte first. */
  lemma TrimInNumbers(buf: seq<U8>)
    requires |buf| == 21
    ensures var t := ParseTrim(buf);
            && t.x1 == SignedByte(buf[0]) && t.y1 == SignedByte(buf[1])
            && t.z4 == SignedWord16(buf[5], buf[6])
            && t.x2 == SignedByte(buf[7]) && t.y2 == SignedByte(buf[8])
            && t.z2 == SignedWord16(buf[11], buf[12])
            && t.z1 == Word(buf[13], buf[14]) && t.xyz1 == Word(buf[15], buf[16])
            && t.z3 == SignedWord16(buf[17], buf[18])
            && t.xy2 == SignedByte(buf[19]) && t.xy1 == buf[20]
  {
    hide AsI8, AsI16, U16FromLe, I16FromLe, SignedByte, Word, SignedWord16;
    forall i | 0 <= i < 21 ensures AsI8(buf[i]) == SignedByte(buf[i]) {
      ByteInNumbers(buf[i]);
    }
    WordInNumbers(buf[5], buf[6]);
    WordInNumbers(buf[11], buf[12]);
    WordInNumbers(buf[13], buf[14]);
    WordInNumbers(buf[15], buf[16]);
    WordInNumbers(buf[17], buf[18]);
  }

  /** Dropping the low bits of a word: the field is the only number this close below it. */
  predicate Field(v: int, word: int, unit: int) { unit * v <= word < unit * v + unit }

  lemma FieldOfWord(word: int, unit: int)
    requires unit == 2 || unit == 4 || unit == 8
    ensures Field(word / unit, word, unit)
  {
  }

  /** The sample block in numbers: X, Y, Z and the hall reading from their own two bytes each, above
      three, three, one and two bits that do not matter. */
  lemma SampleInNumbers(buf: seq<U8>)
    requires |buf| == 8
    ensures var s := FromBytes(buf);
            && Field(s.x, SignedWord16(buf[0], buf[1]), 8) && Field(s.y, SignedWord16(buf[2], buf[3]), 8)
            && Field(s.z, SignedWord16(buf[4], buf[5]), 2) && Field(s.rhall, Word(buf[6], buf[7]), 4)
  {
    hide AsI16, U16FromLe, I16FromLe, SignedByte, Word, SignedWord16, Field;
    WordInNumbers(buf[0], buf[1]);
    WordInNumbers(buf[2], buf[3]);
    WordInNumbers(buf[4], buf[5]);
    WordInNumbers(buf[6], buf[7]);
    FieldOfWord(I16FromLe(buf[0], buf[1]), 8);
    FieldOfWord(I16FromLe(buf[2], buf[3]), 8);
    FieldOfWord(I16FromLe(buf[4], buf[5]), 2);
    FieldOfWord(U16FromLe(buf[6], buf[7]), 4);
  }

  /** X and Y sit in bits 15..3, Z in bits 15..1 and RHALL in bits 15..2 of their words. */
  function FromBytes(buf: seq<U8>): RawSample
    requires |buf| == 8
  {
    RawSample(I16FromLe(buf[0], buf[1]) / 8, I16FromLe(buf[2], buf[3]) / 8,
              I16FromLe(buf[4], buf[5]) / 2, U16FromLe(buf[6], buf[7]) / 4)
  }

  /** What `FromBytes` can produce: 13-bit X and Y, 15-bit Z, 14-bit RHALL. */
  predicate Parsed(s: RawSample) {
    -4096 <= s.x < 4096 && -4096 <= s.y < 4096 && -16384 <= s.z < 16384 && s.rhall < 16384
  }

  /** The X and Y overflow sentinel is exactly the top of the 13-bit field: eight wire words.
      For Z it is two words. */
  lemma SentinelWords(buf: seq<U8>)
    requires |buf| == 8
    ensures Parsed(FromBytes(buf))
    ensures FromBytes(buf).x == XY_OVERFLOW <==> 0x8000 <= U16FromLe(buf[0], buf[1]) <= 0x8007
    ensures FromBytes(buf).y == XY_OVERFLOW <==> 0x8000 <= U16FromLe(buf[2], buf[3]) <= 0x8007
    ensures FromBytes(buf).z == Z_OVERFLOW <==> 0x8000 <= U16FromLe(buf[4], buf[5]) <= 0x8001
  {
    AsI16OfWord(U16FromLe(buf[0], buf[1]));
    AsI16OfWord(U16FromLe(buf[2], buf[3]));
    AsI16OfWord(U16FromLe(buf[4], buf[5]));
  }

  /** The eight bytes a chip would send for `s`, with whatever it puts into the unused low bits. */
  function SampleBlock(s: RawSample, spare: (nat, nat, nat, nat)): seq<U8>
    requires Parsed(s) && spare.0 < 8 && spare.1 < 8 && spare.2 < 2 && spare.3 < 4
  {
    Le(AsU16(s.x * 8 + spare.0)) + Le(AsU16(s.y * 8 + spare.1)) + Le(AsU16(s.z * 2 + spare.2))
    + Le(AsU16(s.rhall * 4 + spare.3))
  }

  /** Parsing recovers every sample from its bytes, each axis and the hall reading from its own. */
  lemma SampleRoundTrip(s: RawSample, spare: (nat, nat, nat, nat))
    requires Parsed(s) && spare.0 < 8 && spare.1 < 8 && spare.2 < 2 && spare.3 < 4
    ensures FromBytes(SampleBlock(s, spare)) == s
  {
    hide AsU16, AsI16, FromBytes, Le;
    var x: int, y: int := s.x * 8 + spare.0, s.y * 8 + spare.1;
    var z: int, h: int := s.z * 2 + spare.2, s.rhall * 4 + spare.3;
    QuotientUnique(x, 8, s.x, spare.0);
    QuotientUnique(y, 8, s.y, spare.1);
    QuotientUnique(z, 2, s.z, spare.2);
    QuotientUnique(h, 4, s.rhall, spare.3);
    SignedWord(x);
    SignedWord(y);
    SignedWord(z);
    UnsignedWord(h);
    FourWords(AsU16(x), AsU16(y), AsU16(z), AsU16(h));
  }

  lemma UnsignedWord(w: U16)
    ensures AsU16(w) == w
  {
  }

  lemma SignedWord(x: I16)
    ensures AsI16(AsU16(x)) == x
  {
    AsI16OfWord(AsU16(x));
  }

  lemma LeRoundTrip(w: U16)
    ensures U16FromLe(w % 0x100, w / 0x100) == w
  {
  }

  lemma FourWords(a: U16, b: U16, c: U16, d: U16)
    ensures FromBytes(Le(a) + Le(b) + Le(c) + Le(d)) == RawSample(AsI16(a) / 8, AsI16(b) / 8, AsI16(c) / 2, d / 4)
  {
    LeRoundTrip(a);
    LeRoundTrip(b);
    LeRoundTrip(c);
    LeRoundTrip(d);
    hide AsI16, U16FromLe;
    var buf := Le(a) + Le(b) + Le(c) + Le(d);
    assert buf == [a % 0x100, a / 0x100, b % 0x100, b / 0x100, c % 0x100, c / 0x100, d % 0x100, d / 0x100];
  }

  // ---- Z axis ----

  function ZTemp1(t: Trim, raw: I16): int { (raw - t.z4) * 0x8000 }

  function ZTemp2Product(t: Trim, rhall: U16): int { t.z3 * (AsI16(rhall) - AsI16(t.xyz1)) }

  function ZTemp2(t: Trim, rhall: U16): int { ZTemp2Product(t, rhall) / 4 }

  function ZTemp3Rounded(t: Trim, rhall: U16): int { t.z1 * (rhall * 2) + 0x8000 }

  function ZTemp3(t: Trim, rhall: U16): I16 { AsI16(ZTemp3Rounded(t, rhall) / 0x1_0000) }

  function ZDenominator(t: Trim, rhall: U16): int { t.z2 + ZTemp3(t, rhall) }

  function CompensateZ(t: Trim, raw: I16, rhall: U16): int {
    var denom := ZDenominator(t, rhall);
    if denom == 0 then 0 else TruncDiv(ZTemp1(t, raw) - ZTemp2(t, rhall), denom)
  }

  lemma ZHallTermFits(t: Trim, rhall: U16)
    requires rhall < 16384
    ensures FitsI32(t.z1 * (rhall * 2)) && 0x8000 <= ZTemp3Rounded(t, rhall) <= 2147352578
    ensures ZTemp3(t, rhall) == ZTemp3Rounded(t, rhall) / 0x1_0000
  {
    ProductMonotone(0, t.z1, rhall * 2);
    ProductBound(t.z1, rhall * 2, 0xFFFF, 32766);
    AsI16OfWord(ZTemp3Rounded(t, rhall) / 0x1_0000);
  }

  lemma ZNumeratorFits(t: Trim, raw: I16, rhall: U16)
    requires -16384 <= raw < 16384 && rhall < 16384
    ensures FitsI32(ZTemp1(t, raw)) && FitsI32(ZTemp2Product(t, rhall))
    ensures Abs(ZTemp1(t, raw) - ZTemp2(t, rhall)) <= 2013224960
  {
    AsI16OfWord(rhall);
    ProductBound(t.z3, AsI16(rhall) - AsI16(t.xyz1), 0x8000, 49151);
  }

  /** For every trim block and every sample the Z path stays inside i32 at each step, and the
      rounded hall term survives its narrowing to i16 unchanged. */
  lemma ZNeverOverflows(t: Trim, raw: I16, rhall: U16)
    requires -16384 <= raw < 16384 && rhall < 16384
    ensures FitsI32(ZTemp1(t, raw)) && FitsI32(ZTemp2Product(t, rhall))
    ensures FitsI32(t.z1 * (rhall * 2)) && 0x8000 <= ZTemp3Rounded(t, rhall) <= 2147352578
    ensures ZTemp3(t, rhall) == ZTemp3Rounded(t, rhall) / 0x1_0000
    ensures Abs(ZTemp1(t, raw) - ZTemp2(t, rhall)) <= 2013224960
    ensures FitsI32(CompensateZ(t, raw, rhall))
  {
    ZHallTermFits(t, rhall);
    ZNumeratorFits(t, raw, rhall);
    if ZDenominator(t, rhall) != 0 {
      TruncDivShrinks(ZTemp1(t, raw) - ZTemp2(t, rhall), ZDenominator(t, rhall));
    }
  }

  /** The reading follows the field: it rises with the raw sample when the denominator is
      positive, falls when it is negative, and is pinned to zero when there is none. */
  lemma ZMonotone(t: Trim, lo: I16, hi: I16, rhall: U16)
    requires lo <= hi
    ensures ZDenominator(t, rhall) > 0 ==> CompensateZ(t, lo, rhall) <= CompensateZ(t, hi, rhall)
    ensures ZDenominator(t, rhall) < 0 ==> CompensateZ(t, hi, rhall) <= CompensateZ(t, lo, rhall)
    ensures ZDenominator(t, rhall) == 0 ==> CompensateZ(t, lo, rhall) == CompensateZ(t, hi, rhall) == 0
  {
    var denom := ZDenominator(t, rhall);
    var a, b := ZTemp1(t, lo) - ZTemp2(t, rhall), ZTemp1(t, hi) - ZTemp2(t, rhall);
    if denom > 0 {
      TruncDivMonotone(a, b, denom);
    } else if denom < 0 {
      TruncDivMonotone(a, b, -denom);
      TruncDivNegate(a, -denom);
      TruncDivNegate(b, -denom);
    }
  }

  lemma TruncDivError(a: int, d: int)
    requires d != 0
    ensures Abs(a - d * TruncDiv(a, d)) < Abs(d)
  {
    var m, q, r := Abs(a), Abs(a) / d, Abs(a) % d;
    assert m == d * q + r;
    assert a < 0 ==> d * -q == -(d * q);
  }

  lemma RoundingError(p: int, temp: int)
    requires temp == (2 * p + 0x8000) / 0x1_0000
    ensures Abs(0x8000 * temp - p) <= 0x4000
  {
  }

  /** The Z reading is less than one count away from the exact quotient by the denominator, and the
      denominator's hall term is rounded to nearest. */
  lemma ZAccuracy(t: Trim, raw: I16, rhall: U16)
    requires rhall < 16384
    ensures var d := ZDenominator(t, rhall);
            && Abs(0x8000 * (d - t.z2) - t.z1 * rhall) <= 0x4000
            && (d != 0 ==>
                  var hall := t.z3 * (AsI16(rhall) - AsI16(t.xyz1));
                  Abs(4 * (d * CompensateZ(t, raw, rhall)) - (0x2_0000 * (raw - t.z4) - hall)) < 4 * Abs(d))
  {
    ZHallTermFits(t, rhall);
    assert t.z1 * (rhall * 2) == 2 * (t.z1 * rhall);
    RoundingError(t.z1 * rhall, ZTemp3(t, rhall));
    if ZDenominator(t, rhall) != 0 {
      TruncDivError(ZTemp1(t, raw) - ZTemp2(t, rhall), ZDenominator(t, rhall));
      hide ZDenominator, TruncDiv;
    }
  }

  // ---- X and Y axes ----

  function EffectiveRhall(t: Trim, rhall: U16): U16 { if rhall == 0 then t.xyz1 else rhall }

  function Offset(t: Trim, axis: Axis): I8 { if axis == X then t.x1 else t.y1 }

  function Gain(t: Trim, axis: Axis): I8 { if axis == X then t.x2 else t.y2 }

  /** `0x4000` times the ratio of the factory hall value to a reading. */
  function Ratio(factory: int, rhall: int): int
    requires rhall != 0
  {
    (factory * 0x4000) / rhall
  }

  /** The hall ratio centred on zero, in the u16-then-i16 wrap-around of the reference. */
  function ValA(t: Trim, rhall: U16): I16
    requires EffectiveRhall(t, rhall) != 0
  {
    AsI16(AsU16(AsU16(Ratio(t.xyz1, EffectiveRhall(t, rhall))) - 0x4000))
  }

  function XyTemp1(t: Trim, a: I16): int { t.xy2 * ((a * a) / 128) }

  function XyTemp2(t: Trim, a: I16): int { a * (t.xy1 * 128) }

  function XyTemp3(t: Trim, a: I16, axis: Axis): int {
    ((XyTemp1(t, a) + XyTemp2(t, a)) / 512 + 0x10_0000) * (Gain(t, axis) + 0xA0)
  }

  /** What one raw count is worth: the factor the raw sample is multiplied by, in 1/8192. */
  function Sensitivity(t: Trim, rhall: U16, axis: Axis): int
    requires EffectiveRhall(t, rhall) != 0
  {
    XyTemp3(t, ValA(t, rhall), axis) / 4096
  }

  /** The scaled sample before it is narrowed to i16. */
  function Wide(t: Trim, raw: I16, rhall: U16, axis: Axis): int
    requires EffectiveRhall(t, rhall) != 0
  {
    (raw * Sensitivity(t, rhall, axis)) / 8192
  }

  function CompensateXy(t: Trim, raw: I16, rhall: U16, axis: Axis): Checked {
    if EffectiveRhall(t, rhall) == 0 then DivideByZero else
      var sum := AsI16(Wide(t, raw, rhall, axis)) + Offset(t, axis) * 8;
      if FitsI16(sum) then Value(sum) else AddOverflow
  }

  lemma XyTemp1Bound(t: Trim, a: I16, p: int)
    requires 0 <= p && -p <= a <= p
    ensures 0 <= a * a <= p * p
    ensures Abs(XyTemp1(t, a)) <= 128 * (p * p / 128)
  {
    SquareNonNegative(a);
    ProductBound(a, a, p, p);
    FloorDivMonotone(0, a * a, 128);
    FloorDivMonotone(a * a, p * p, 128);
    ProductBound(t.xy2, (a * a) / 128, 128, p * p / 128);
  }

  lemma XyInnerBound(t: Trim, a: I16, p: int)
    requires 0 <= p && -p <= a <= p
    ensures Abs(XyTemp2(t, a)) <= p * 32640
    ensures Abs(XyTemp1(t, a) + XyTemp2(t, a)) <= 128 * (p * p / 128) + p * 32640
  {
    XyTemp1Bound(t, a, p);
    ProductBound(a, t.xy1 * 128, p, 32640);
  }

  lemma XyTemp3Bound(t: Trim, a: I16, axis: Axis)
    ensures FitsI32(a * a) && FitsI32(XyTemp1(t, a)) && FitsI32(XyTemp2(t, a))
    ensures FitsI32(XyTemp1(t, a) + XyTemp2(t, a))
    ensures Abs(XyTemp3(t, a, axis)) <= 1502658815
  {
    XyTemp1Bound(t, a, 0x8000);
    XyInnerBound(t, a, 0x8000);
    var inner := (XyTemp1(t, a) + XyTemp2(t, a)) / 512 + 0x10_0000;
    assert -5235745 <= inner <= 5235745;
    ProductBound(inner, Gain(t, axis) + 0xA0, 5235745, 287);
  }

  /** `CompensateXy` divides by zero on exactly two zero inputs; otherwise, whatever the trim and
      the sample, every i32 step before the narrowing fits. */
  lemma XyIntermediatesFit(t: Trim, raw: I16, rhall: U16, axis: Axis)
    requires -4096 <= raw < 4096 && rhall < 16384
    ensures CompensateXy(t, raw, rhall, axis) == DivideByZero <==> rhall == 0 && t.xyz1 == 0
    ensures FitsI32(t.xyz1 * 0x4000) && FitsI16(Offset(t, axis) * 8)
    ensures EffectiveRhall(t, rhall) != 0 ==>
              var a := ValA(t, rhall);
              && FitsI32(a * a) && FitsI32(XyTemp1(t, a)) && FitsI32(XyTemp2(t, a))
              && FitsI32(XyTemp1(t, a) + XyTemp2(t, a)) && FitsI32(XyTemp3(t, a, axis))
              && FitsI32(raw * Sensitivity(t, rhall, axis))
  {
    if EffectiveRhall(t, rhall) != 0 {
      XyTemp3Bound(t, ValA(t, rhall), axis);
      ProductBound(raw, Sensitivity(t, rhall, axis), 4096, 366861);
    }
  }

  /** A guard over the chip's trim and hall reading alone. */
  predicate RangeGuard(t: Trim, rhall: U16, axis: Axis) {
    && EffectiveRhall(t, rhall) != 0
    && var peak := 4095 * Abs(Sensitivity(t, rhall, axis));
       peak <= 8192 * (0x8000 + Offset(t, axis) * 8) && peak < 8192 * (0x8000 - Offset(t, axis) * 8)
  }

  /** The computation is exact for a sample: no panic and no bits lost in the i16 narrowing. */
  predicate XyExact(t: Trim, raw: I16, rhall: U16, axis: Axis) {
    EffectiveRhall(t, rhall) != 0 &&
    FitsI16(Wide(t, raw, rhall, axis)) &&
    CompensateXy(t, raw, rhall, axis) == Value(Wide(t, raw, rhall, axis) + Offset(t, axis) * 8)
  }

  /** One raw sample under the guard's two inequalities, on bare integers. */
  lemma NarrowingFits(raw: int, s: int, o: int)
    requires -4095 <= raw <= 4095
    requires 4095 * Abs(s) <= 8192 * (0x8000 + o) && 4095 * Abs(s) < 8192 * (0x8000 - o)
    ensures FitsI16((raw * s) / 8192) && FitsI16((raw * s) / 8192 + o)
  {
    ProductBound(raw, s, 4095, Abs(s));
  }

  /** The two extreme samples already violate a bound when an inequality fails. */
  lemma NarrowingFails(s: int, o: int)
    requires !(4095 * Abs(s) <= 8192 * (0x8000 + o) && 4095 * Abs(s) < 8192 * (0x8000 - o))
    ensures exists raw {:trigger raw * s} :: (raw == 4095 || raw == -4095) && !FitsI16((raw * s) / 8192 + o)
  {
    assert !FitsI16((4095 * s) / 8192 + o) || !FitsI16((-4095 * s) / 8192 + o);
  }

  lemma ExactOnAxis(t: Trim, raw: I16, rhall: U16, axis: Axis)
    requires RangeGuard(t, rhall, axis) && -4096 < raw < 4096
    ensures XyExact(t, raw, rhall, axis)
  {
    hide Sensitivity;
    NarrowingFits(raw, Sensitivity(t, rhall, axis), Offset(t, axis) * 8);
  }

  /** Without the guard one of the two extreme samples that the sentinel gate lets through is not
      exact. */
  lemma GuardNecessary(t: Trim, rhall: U16, axis: Axis) returns (raw: I16)
    requires !RangeGuard(t, rhall, axis)
    ensures (raw == 4095 || raw == -4095) && !XyExact(t, raw, rhall, axis)
  {
    raw := 4095;
    if EffectiveRhall(t, rhall) != 0 {
      var s, o := Sensitivity(t, rhall, axis), Offset(t, axis) * 8;
      hide Sensitivity;
      NarrowingFails(s, o);
      var worst :| (worst == 4095 || worst == -4095) && !FitsI16((worst * s) / 8192 + o);
      raw := worst;
      ExactFits(t, raw, rhall, axis);
      WideAt(t, raw, rhall, axis, s);
      hide Wide, XyExact;
    }
  }

  lemma ExactFits(t: Trim, raw: I16, rhall: U16, axis: Axis)
    requires EffectiveRhall(t, rhall) != 0
    ensures XyExact(t, raw, rhall, axis) ==> FitsI16(Wide(t, raw, rhall, axis) + Offset(t, axis) * 8)
  {
    hide Wide;
  }

  /** The compensation loses nothing on every sample the sentinel gate lets through if and only
      if the guard holds. */
  lemma XyExactIff(t: Trim, rhall: U16, axis: Axis)
    ensures (forall raw: I16 :: -4096 < raw < 4096 ==> XyExact(t, raw, rhall, axis))
       <==> RangeGuard(t, rhall, axis)
  {
    hide XyExact;
    if RangeGuard(t, rhall, axis) {
      hide RangeGuard;
      forall raw: I16 | -4096 < raw < 4096 ensures XyExact(t, raw, rhall, axis) {
        ExactOnAxis(t, raw, rhall, axis);
      }
    } else {
      var raw := GuardNecessary(t, rhall, axis);
      hide RangeGuard;
    }
  }

  /** Within a hall ratio of 2048 of the centre and a gain trim of at most 40 the guard holds, so
      the result is exact on every axis and it rises with the raw sample. */
  lemma XyTypicalRange(t: Trim, rhall: U16, axis: Axis)
    requires EffectiveRhall(t, rhall) != 0 && -2048 <= ValA(t, rhall) <= 2048 && Gain(t, axis) <= 40
    ensures 0 < Sensitivity(t, rhall, axis) && RangeGuard(t, rhall, axis)
  {
    var a := ValA(t, rhall);
    XyInnerBound(t, a, 2048);
    var inner := (XyTemp1(t, a) + XyTemp2(t, a)) / 512 + 0x10_0000;
    var g := Gain(t, axis) + 0xA0;
    assert 909824 <= inner <= 1187328;
    ProductBound(inner, g, 1187328, 200);
    ProductMonotone(32, g, inner);
  }

  /** Under the guard the result is ordered by the raw sample, in the direction of the
      sensitivity's sign. */
  lemma XyMonotone(t: Trim, lo: I16, hi: I16, rhall: U16, axis: Axis)
    requires RangeGuard(t, rhall, axis) && -4096 < lo <= hi < 4096
    ensures CompensateXy(t, lo, rhall, axis).Value? && CompensateXy(t, hi, rhall, axis).Value?
    ensures var a, b := CompensateXy(t, lo, rhall, axis).v, CompensateXy(t, hi, rhall, axis).v;
            if Sensitivity(t, rhall, axis) >= 0 then a <= b else b <= a
  {
    XyExactIff(t, rhall, axis);
    assert XyExact(t, lo, rhall, axis) && XyExact(t, hi, rhall, axis);
    WideMonotone(lo, hi, Sensitivity(t, rhall, axis));
  }

  lemma WideMonotone(lo: int, hi: int, s: int)
    requires lo <= hi
    ensures if s >= 0 then (lo * s) / 8192 <= (hi * s) / 8192 else (hi * s) / 8192 <= (lo * s) / 8192
  {
    if s >= 0 {
      ProductMonotone(lo, hi, s);
    } else {
      ProductMonotone(lo, hi, -s);
    }
  }

  /** The centred ratio is the quotient less its centre, not a wrapped image of it, if and only if
      the factory value is below three times the hall reading. */
  lemma RatioExactIff(t: Trim, rhall: U16)
    requires EffectiveRhall(t, rhall) != 0
    ensures ValA(t, rhall) == (t.xyz1 * 0x4000) / EffectiveRhall(t, rhall) - 0x4000
       <==> t.xyz1 < 3 * EffectiveRhall(t, rhall)
  {
    var h, q := EffectiveRhall(t, rhall), (t.xyz1 * 0x4000) / EffectiveRhall(t, rhall);
    var r := (t.xyz1 * 0x4000) % h;
    assert t.xyz1 * 0x4000 == h * q + r;
    if q < 0xC000 {
      ProductMonotone(q, 0xBFFF, h);
    } else {
      ProductMonotone(0xC000, q, h);
    }
    Rewrap(q);
  }

  lemma Rewrap(q: nat)
    ensures AsI16(AsU16(AsU16(q) - 0x4000)) == q - 0x4000 <==> q < 0xC000
  {
  }

  /** The compensation polynomial without any rounding, in units of `2^-41` of a count. */
  function Ideal(t: Trim, raw: I16, a: I16, axis: Axis): int {
    raw * (IdealInner(t, a) * (Gain(t, axis) + 0xA0))
  }

  function IdealInner(t: Trim, a: I16): int { t.xy2 * (a * a) + 0x4000 * (a * t.xy1) + 0x10_0000_0000 }

  /** The bracketed sum, in units of `2^-16`. */
  lemma InnerError(t: Trim, a: I16)
    ensures Abs(0x1_0000 * ((XyTemp1(t, a) + XyTemp2(t, a)) / 512 + 0x10_0000) - IdealInner(t, a)) <= 81664
  {
    var q, r := a * a / 128, a * a % 128;
    ProductBound(t.xy2, r, 128, 127);
    Expand(t.xy2, q, r);
    assert a * (t.xy1 * 128) == 128 * (a * t.xy1);
  }

  lemma Expand(x: int, q: int, r: int)
    ensures x * (128 * q + r) == 128 * (x * q) + x * r
  {
  }

  /** An error bound multiplied through by a factor. */
  lemma ScaleError(x: int, y: int, k: int, c: int, e: int, b: int)
    requires Abs(c * x - y) <= e && Abs(k) <= b
    ensures Abs(c * (k * x) - k * y) <= b * e
  {
    ProductBound(k, c * x - y, b, e);
    assert k * (c * x - y) == c * (k * x) - k * y;
  }

  lemma SensitivityError(t: Trim, a: I16, axis: Axis)
    ensures Abs(0x1000_0000 * (XyTemp3(t, a, axis) / 4096) - IdealInner(t, a) * (Gain(t, axis) + 0xA0)) <= 291807488
  {
    InnerError(t, a);
    hide IdealInner, XyTemp1, XyTemp2;
    var inner := (XyTemp1(t, a) + XyTemp2(t, a)) / 512 + 0x10_0000;
    SensitivityErrorOf(inner, IdealInner(t, a), Gain(t, axis) + 0xA0);
  }

  lemma SensitivityErrorOf(inner: int, ideal: int, g: int)
    requires 0 <= g <= 287 && Abs(0x1_0000 * inner - ideal) <= 81664
    ensures Abs(0x1000_0000 * ((inner * g) / 4096) - ideal * g) <= 291807488
  {
    ScaleError(inner, ideal, g, 0x1_0000, 81664, 287);
    ShiftError(inner * g, ideal * g);
  }

  lemma ShiftError(x: int, y: int)
    requires Abs(0x1_0000 * x - y) <= 23437568
    ensures Abs(0x1000_0000 * (x / 4096) - y) <= 291807488
  {
  }

  /** Five truncating steps cost less than 1.6 counts in all: for every trim and every parsed
      sample the scaled value is that close to the unrounded polynomial. */
  lemma XyAccuracy(t: Trim, raw: I16, rhall: U16, axis: Axis)
    requires EffectiveRhall(t, rhall) != 0 && -4096 <= raw < 4096
    ensures 10 * Abs(0x200_0000_0000 * Wide(t, raw, rhall, axis) - Ideal(t, raw, ValA(t, rhall), axis))
          < 16 * 0x200_0000_0000
  {
    var a := ValA(t, rhall);
    SensitivityError(t, a, axis);
    hide ValA, XyTemp3, IdealInner;
    var s, product := Sensitivity(t, rhall, axis), IdealInner(t, a) * (Gain(t, axis) + 0xA0);
    ScaleError(s, product, raw, 0x1000_0000, 291807488, 4096);
    WideAt(t, raw, rhall, axis, s);
  }

  // ---- The compensation in terms of the chip's own numbers ----

  /** The hall ratio: the factory value over the chip's reading, centred on zero, up to the sixteen
      bits it is kept in; with no reading the factory value stands in and the ratio is zero. */
  lemma HallRatio(t: Trim, rhall: U16)
    ensures rhall != 0 ==> EffectiveRhall(t, rhall) == rhall
    ensures rhall != 0 ==> SameLowBits(ValA(t, rhall), (t.xyz1 * 0x4000) / rhall - 0x4000)
    ensures rhall != 0 && t.xyz1 < 3 * rhall ==> ValA(t, rhall) == (t.xyz1 * 0x4000) / rhall - 0x4000
    ensures rhall == 0 && t.xyz1 != 0 ==> EffectiveRhall(t, rhall) != 0 && ValA(t, rhall) == 0
  {
    if rhall != 0 {
      RatioExactIff(t, rhall);
      RatioWraps(t, rhall);
      assert EffectiveRhall(t, rhall) == rhall;
    } else if t.xyz1 != 0 {
      CentredRatio(t);
    }
    hide ValA;
  }

  lemma CentredRatio(t: Trim)
    requires t.xyz1 != 0
    ensures EffectiveRhall(t, 0) == t.xyz1 && ValA(t, 0) == 0
  {
    QuotientUnique(t.xyz1 * 0x4000, t.xyz1, 0x4000, 0);
    assert AsU16(0x4000) == 0x4000 && AsI16(AsU16(0)) == 0;
  }

  lemma RatioWraps(t: Trim, rhall: U16)
    requires EffectiveRhall(t, rhall) != 0
    ensures SameLowBits(ValA(t, rhall), Ratio(t.xyz1, EffectiveRhall(t, rhall)) - 0x4000)
  {
    hide AsI16, AsU16, SameLowBits, EffectiveRhall, Ratio;
    Wrapped(Ratio(t.xyz1, EffectiveRhall(t, rhall)));
  }

  predicate SameLowBits(a: int, b: int) { (a - b) % 0x1_0000 == 0 }

  lemma Wrapped(q: int)
    ensures SameLowBits(AsI16(AsU16(AsU16(q) - 0x4000)), q - 0x4000)
  {
    var w: int, k: int := AsU16(q), q / 0x1_0000;
    assert q == 0x1_0000 * k + w;
    AsI16OfWord(AsU16(w - 0x4000));
    WrapMultiple(w, AsI16(AsU16(w - 0x4000)), k);
  }

  lemma WrapMultiple(w: int, r: int, k: int)
    requires r == w - 0x4000 || r == w - 0x4000 + 0x1_0000 || r == w - 0x4000 - 0x1_0000
    ensures (r - (0x1_0000 * k + w - 0x4000)) % 0x1_0000 == 0
  {
    var d := if r == w - 0x4000 then 0 else if r == w - 0x4000 + 0x1_0000 then 1 else -1;
    assert r - (0x1_0000 * k + w - 0x4000) == 0x1_0000 * (d - k);
  }

  /** `v` is within 1.6 counts of the unrounded compensation of `raw` at hall ratio `a`, for an axis
      of trim gain `gain` and trim offset `offset`. */
  predicate NearIdeal(t: Trim, raw: int, a: int, gain: int, offset: int, v: int) {
    var ideal := raw * ((t.xy2 * (a * a) + 0x4000 * (a * t.xy1) + 0x10_0000_0000) * (gain + 160));
    10 * Abs(0x200_0000_0000 * (v - 8 * offset) - ideal) < 16 * 0x200_0000_0000
  }

  /** X goes with `x1` and `x2`, Y with `y1` and `y2`, both with the chip's own hall reading. */
  lemma XyReading(t: Trim, raw: I16, rhall: U16, axis: Axis)
    requires -4096 < raw < 4096 && rhall != 0 && t.xyz1 < 3 * rhall && RangeGuard(t, rhall, axis)
    ensures CompensateXy(t, raw, rhall, axis).Value?
    ensures NearIdeal(t, raw, Ratio(t.xyz1, rhall) - 0x4000, if axis == X then t.x2 else t.y2,
                      if axis == X then t.x1 else t.y1, CompensateXy(t, raw, rhall, axis).v)
  {
    HallRatio(t, rhall);
    ExactOnAxis(t, raw, rhall, axis);
    XyAccuracy(t, raw, rhall, axis);
    hide ValA, Wide, RangeGuard, CompensateXy, Ratio;
  }

  /** The Z reading is the exact quotient rounded toward zero: never further from zero than it. */
  lemma ZTruncates(t: Trim, raw: I16, rhall: U16)
    requires ZDenominator(t, rhall) != 0
    ensures var n, d, z := ZTemp1(t, raw) - ZTemp2(t, rhall), ZDenominator(t, rhall), CompensateZ(t, raw, rhall);
            && n == (raw - t.z4) * 0x8000 - (t.z3 * (AsI16(rhall) - AsI16(t.xyz1))) / 4
            && Abs(d * z) <= Abs(n) < Abs(d * z) + Abs(d)
            && (n >= 0 ==> d * z >= 0) && (n <= 0 ==> d * z <= 0)
  {
    TruncDivToward(ZTemp1(t, raw) - ZTemp2(t, rhall), ZDenominator(t, rhall));
    hide ZDenominator, TruncDiv;
  }

  lemma TruncDivSign(a: int, d: int)
    requires d != 0
    ensures var x := Abs(d) * (Abs(a) / Abs(d)); d * TruncDiv(a, d) == if a >= 0 then x else -x
  {
    var q: int := Abs(a) / Abs(d);
    if d < 0 {
      DivByNegation(Abs(a), -d);
    }
    assert d * -q == -(d * q) && -d * q == -(d * q);
  }

  lemma TruncDivToward(a: int, d: int)
    requires d != 0
    ensures var p := d * TruncDiv(a, d);
            Abs(p) <= Abs(a) < Abs(p) + Abs(d) && (a >= 0 ==> p >= 0) && (a <= 0 ==> p <= 0)
  {
    TruncDivSign(a, d);
    var m: int, n: int := Abs(a), Abs(d);
    var q: int, r: int := m / n, m % n;
    assert m == n * q + r && 0 <= r < n;
    FloorDivShrinks(m, n);
    ProductMonotone(0, q, n);
    assert q * n == n * q;
    hide TruncDiv;
  }

  // ---- One reading ----

  /** `read_measurement` after the bus read: the sentinel gate, then the three axes in order. */
  function Compensate(t: Trim, raw: RawSample): Reading
    requires Parsed(raw)
  {
    if raw.x == XY_OVERFLOW || raw.y == XY_OVERFLOW || raw.z == Z_OVERFLOW then Overflow else
      var x := CompensateXy(t, raw.x, raw.rhall, X);
      var y := CompensateXy(t, raw.y, raw.rhall, Y);
      ZNeverOverflows(t, raw.z, raw.rhall);
      if x.Value? && y.Value? then Reading(x.v, y.v, CompensateZ(t, raw.z, raw.rhall)) else Panic
  }

  function ReadMeasurement(t: Trim, buf: seq<U8>): Reading
    requires |buf| == 8
  {
    SentinelWords(buf);
    Compensate(t, FromBytes(buf))
  }

  /** When a reading panics: no sentinel, and an axis divides by zero or overflows its addition. */
  lemma PanicIff(t: Trim, s: RawSample)
    requires Parsed(s)
    ensures Compensate(t, s) == Panic <==>
            && s.x != -4096 && s.y != -4096 && s.z != -16384
            && ((s.rhall == 0 && t.xyz1 == 0)
                || !FitsI16(AsI16(Wide(t, s.x, s.rhall, X)) + 8 * t.x1)
                || !FitsI16(AsI16(Wide(t, s.y, s.rhall, Y)) + 8 * t.y1))
  {
    hide Wide, CompensateZ;
  }

  lemma CompensateTotal(t: Trim, s: RawSample)
    requires Parsed(s) && RangeGuard(t, s.rhall, X) && RangeGuard(t, s.rhall, Y)
    ensures Compensate(t, s) == Overflow <==> s.x == XY_OVERFLOW || s.y == XY_OVERFLOW || s.z == Z_OVERFLOW
    ensures Compensate(t, s) != Overflow ==>
              var r := Compensate(t, s);
              && r.Reading? && r.x == Wide(t, s.x, s.rhall, X) + t.x1 * 8
              && r.y == Wide(t, s.y, s.rhall, Y) + t.y1 * 8 && r.z == CompensateZ(t, s.z, s.rhall)
  {
    if s.x != XY_OVERFLOW && s.y != XY_OVERFLOW {
      ExactOnAxis(t, s.x, s.rhall, X);
      ExactOnAxis(t, s.y, s.rhall, Y);
    }
  }

  /** A chip whose trim and hall reading meet the guard on both axes never panics the driver: it
      reports `Overflow` on exactly the sentinel words and an exact reading on all others. */
  lemma ReadMeasurementTotal(t: Trim, buf: seq<U8>)
    requires |buf| == 8
    requires RangeGuard(t, FromBytes(buf).rhall, X) && RangeGuard(t, FromBytes(buf).rhall, Y)
    ensures ReadMeasurement(t, buf) == Overflow <==>
            || 0x8000 <= U16FromLe(buf[0], buf[1]) <= 0x8007
            || 0x8000 <= U16FromLe(buf[2], buf[3]) <= 0x8007
            || 0x8000 <= U16FromLe(buf[4], buf[5]) <= 0x8001
    ensures ReadMeasurement(t, buf) != Overflow ==>
              var s, r := FromBytes(buf), ReadMeasurement(t, buf);
              && r.Reading? && r.x == Wide(t, s.x, s.rhall, X) + t.x1 * 8
              && r.y == Wide(t, s.y, s.rhall, Y) + t.y1 * 8 && r.z == CompensateZ(t, s.z, s.rhall)
  {
    SentinelWords(buf);
    CompensateTotal(t, FromBytes(buf));
  }

  /** The zero trim a driver holds before `init` panics on a zero hall reading: the division by
      zero is reachable, not turned into a zero result. */
  lemma UninitialisedDriverPanics()
    ensures ReadMeasurement(Trim(0, 0, 0, 0, 0, 0, 0, 0, 0, 0, 0), seq(8, i => 0)) == Panic
  {
    var t := Trim(0, 0, 0, 0, 0, 0, 0, 0, 0, 0, 0);
    assert CompensateXy(t, 0, 0, X) == DivideByZero;
  }

  /** With the hall reading at its factory value the ratio is centred, and a raw count is worth
      (160 + gain) / 32 of an output count. */
  lemma CentredSensitivity(t: Trim, axis: Axis)
    requires t.xyz1 != 0
    ensures ValA(t, t.xyz1) == 0
    ensures Sensitivity(t, t.xyz1, axis) == 256 * (Gain(t, axis) + 0xA0)
  {
    QuotientUnique(t.xyz1 * 0x4000, t.xyz1, 0x4000, 0);
    assert AsU16(0x4000) == 0x4000 && AsI16(AsU16(0)) == 0;
    CentredTemp3(t, axis);
  }

  lemma CentredTemp3(t: Trim, axis: Axis)
    ensures XyTemp3(t, 0, axis) == 0x10_0000 * (Gain(t, axis) + 0xA0)
  {
    assert XyTemp1(t, 0) == t.xy2 * 0 == 0 && XyTemp2(t, 0) == 0;
  }

  /** Outside the guard both failures happen, with the hall reading at its centre and every other
      trim free: a raw 4000 panics in the final i16 addition, and a raw 4095 comes back large and
      negative. */
  lemma GuardFailures(t: Trim, axis: Axis)
    requires t.xyz1 != 0 && Gain(t, axis) == 100 && Offset(t, axis) == 127
    ensures CompensateXy(t, 4000, t.xyz1, axis) == AddOverflow
    ensures CompensateXy(t, 4095, t.xyz1, axis) == Value(-31249)
  {
    CentredSensitivity(t, axis);
    assert Sensitivity(t, t.xyz1, axis) == 66560;
    WideAt(t, 4000, t.xyz1, axis, 66560);
    WideAt(t, 4095, t.xyz1, axis, 66560);
    hide Sensitivity, Wide;
  }

  lemma WideAt(t: Trim, raw: I16, rhall: U16, axis: Axis, s: int)
    requires EffectiveRhall(t, rhall) != 0 && Sensitivity(t, rhall, axis) == s
    ensures Wide(t, raw, rhall, axis) == (raw * s) / 8192
  {
  }
}
