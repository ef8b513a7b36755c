/** The integer kernels of the face: the parabolic arc of crates/stackchan-core/src/draw.rs and the
    breath envelope of crates/stackchan-core/src/leds.rs. Rust's `/` truncates, and overflow checks
    are on, so an i32 step that does not fit is a panic. */
module FaceKernels {
  import opened MachineInts

  // ---- Parabolic arc ----

  const ARC_SEGMENTS: int := 24

  datatype Point = Point(x: int, y: int)

  function UScaled(i: nat): int { 2 * i - ARC_SEGMENTS }

  function BulgeNum(i: nat): int { ARC_SEGMENTS * ARC_SEGMENTS - UScaled(i) * UScaled(i) }

  function OffsetX(halfW: int, i: nat): int { TruncDiv(UScaled(i) * halfW, ARC_SEGMENTS) }

  function OffsetY(sag: int, i: nat): int { TruncDiv(sag * BulgeNum(i), ARC_SEGMENTS * ARC_SEGMENTS) }

  function ArcPoint(cx: int, cy: int, halfW: int, sag: int, i: nat): Point {
    Point(cx + OffsetX(halfW, i), cy + OffsetY(sag, i))
  }

  /** Every i32 step of sample `i`. */
  predicate StepsFit(cx: int, cy: int, halfW: int, sag: int, i: nat) {
    && FitsI32(UScaled(i) * halfW) && FitsI32(sag * BulgeNum(i))
    && FitsI32(cx + OffsetX(halfW, i)) && FitsI32(cy + OffsetY(sag, i))
  }

  /** The sampling loop, or the panic of the first step that overflows. */
  method SampleArc(cx: I32, cy: I32, halfW: U16, sag: I32) returns (points: seq<Point>, panicked: bool)
    ensures panicked <==> exists i :: 0 <= i <= 24 && !StepsFit(cx, cy, halfW, sag, i)
    ensures !panicked ==> |points| == 25 && forall i :: 0 <= i <= 24 ==> points[i] == ArcPoint(cx, cy, halfW, sag, i)
  {
    var slots := new Point[25](_ => Point(0, 0));
    var nSq := ARC_SEGMENTS * ARC_SEGMENTS;
    for i := 0 to 25
      invariant forall k :: 0 <= k < i ==> StepsFit(cx, cy, halfW, sag, k)
      invariant forall k :: 0 <= k < i ==> slots[k] == ArcPoint(cx, cy, halfW, sag, k)
    {
      var u := 2 * i - ARC_SEGMENTS;
      var dx := TruncDiv(u * halfW, ARC_SEGMENTS);
      var bulge := nSq - u * u;
      var dy := TruncDiv(sag * bulge, nSq);
      if !(FitsI32(u * halfW) && FitsI32(cx + dx) && FitsI32(sag * bulge) && FitsI32(cy + dy)) {
        assert !StepsFit(cx, cy, halfW, sag, i);
        return [], true;
      }
      slots[i] := Point(cx + dx, cy + dy);
    }
    points, panicked := slots[..], false;
  }

  // The three callers: a closed eye, a curved eye, and a curved mouth.

  function ClosedEyeSag(scaledRy: U16): int { TruncDiv(-(scaledRy as int), 2) }

  function CurvedEyeSag(curve: I8, scaledRy: U16): int { TruncDiv(-(curve as int) * scaledRy, 100) }

  function MouthSag(curve: I8, radiusY: U16): int { TruncDiv(curve * radiusY, 100) }

  const MAX_SAG: int := 83884

  lemma CallerSags(curve: I8, ry: U16)
    ensures Abs(ClosedEyeSag(ry)) <= MAX_SAG
    ensures FitsI32(-(curve as int) * ry) && Abs(CurvedEyeSag(curve, ry)) <= MAX_SAG
    ensures FitsI32(curve * ry) && Abs(MouthSag(curve, ry)) <= MAX_SAG
  {
    ProductBound(curve, ry, 128, 0xFFFF);
    ProductBound(-(curve as int), ry, 128, 0xFFFF);
  }

  /** The sags in numbers: a closed eye bows up by half its radius; a curved eye bows against its
      curve and a mouth with it, by that many hundredths of the radius, truncated. */
  lemma SagsInNumbers(curve: I8, ry: U16)
    ensures ClosedEyeSag(ry) == -(ry / 2)
    ensures CurvedEyeSag(curve, ry) == -MouthSag(curve, ry)
    ensures 0 <= Abs(curve * ry) - 100 * Abs(MouthSag(curve, ry)) < 100
    ensures (curve >= 0 ==> MouthSag(curve, ry) >= 0) && (curve <= 0 ==> MouthSag(curve, ry) <= 0)
  {
    var c: int, r: int := curve, ry;
    assert -c * r == -(c * r);
    TruncDivGap(c * r, 100);
    SignOfProduct(c, r);
    assert -(-c * r) == c * r;
  }

  lemma SignOfProduct(a: int, b: int)
    requires 0 <= b
    ensures (a >= 0 ==> a * b >= 0) && (a <= 0 ==> a * b <= 0)
  {
  }

  lemma BulgeRange(i: nat)
    requires i <= 24
    ensures 0 <= BulgeNum(i) <= 576 && -24 <= UScaled(i) <= 24
    ensures BulgeNum(24 - i) == BulgeNum(i) && UScaled(24 - i) == -UScaled(i)
  {
    ProductBound(UScaled(i), UScaled(i), 24, 24);
    SquareNonNegative(UScaled(i));
  }

  /** An offset never leaves the span between nothing and its full value. */
  lemma OffsetRange(halfW: int, sag: int, i: nat)
    requires i <= 24 && 0 <= halfW
    ensures -halfW <= OffsetX(halfW, i) <= halfW
    ensures if sag >= 0 then 0 <= OffsetY(sag, i) <= sag else sag <= OffsetY(sag, i) <= 0
  {
    BulgeRange(i);
    ProductBound(UScaled(i), halfW, 24, halfW);
    var m := Abs(sag);
    ProductMonotone(0, m, BulgeNum(i));
    ProductMonotone(BulgeNum(i), 576, m);
    assert sag * BulgeNum(i) == if sag >= 0 then m * BulgeNum(i) else -(m * BulgeNum(i));
  }

  /** For every sag a caller can produce the arc overflows if and only if an extreme point lies
      outside i32: an end of the baseline or the middle of the bow. */
  lemma ArcFitsIff(cx: I32, cy: I32, halfW: U16, sag: int)
    requires Abs(sag) <= MAX_SAG
    ensures (forall i :: 0 <= i <= 24 ==> StepsFit(cx, cy, halfW, sag, i))
       <==> FitsI32(cx - halfW) && FitsI32(cx + halfW) && FitsI32(cy + sag)
  {
    ArcEnds(halfW, sag);
    if forall i :: 0 <= i <= 24 ==> StepsFit(cx, cy, halfW, sag, i) {
      assert StepsFit(cx, cy, halfW, sag, 0) && StepsFit(cx, cy, halfW, sag, 12) && StepsFit(cx, cy, halfW, sag, 24);
    }
    if FitsI32(cx - halfW) && FitsI32(cx + halfW) && FitsI32(cy + sag) {
      forall i: nat | i <= 24 ensures StepsFit(cx, cy, halfW, sag, i) {
        BulgeRange(i);
        OffsetRange(halfW, sag, i);
        ProductBound(UScaled(i), halfW, 24, 0xFFFF);
        ProductBound(sag, BulgeNum(i), MAX_SAG, 576);
      }
    }
  }

  /** The ends sit on the baseline at full half-width, the middle at the full sag. */
  lemma ArcEnds(halfW: int, sag: int)
    ensures OffsetX(halfW, 0) == -halfW && OffsetX(halfW, 24) == halfW && OffsetX(halfW, 12) == 0
    ensures OffsetY(sag, 0) == OffsetY(sag, 24) == 0 && OffsetY(sag, 12) == sag
  {
    assert UScaled(0) == -24 && UScaled(24) == 24 && UScaled(12) == 0;
    assert BulgeNum(0) == 0 && BulgeNum(24) == 0 && BulgeNum(12) == 576;
    assert sag * BulgeNum(0) == 0 && sag * BulgeNum(24) == 0;
  }

  /** The arc is its own mirror image about the middle. */
  lemma ArcMirror(cx: int, cy: int, halfW: int, sag: int, i: nat)
    requires i <= 24
    ensures var p, q := ArcPoint(cx, cy, halfW, sag, i), ArcPoint(cx, cy, halfW, sag, 24 - i);
            p.x - cx == cx - q.x && p.y == q.y
  {
    BulgeRange(i);
    assert UScaled(24 - i) * halfW == -(UScaled(i) * halfW);
  }

  /** The arc in numbers: sample `i` sits on the parabola through the two ends and the bow, truncated
      toward the baseline and toward the middle by less than a pixel. */
  lemma ArcOnParabola(halfW: int, sag: int, i: nat)
    requires i <= 24 && 0 <= halfW
    ensures var u: int := 2 * i - 24;
            && 0 <= Abs(u * halfW) - 24 * Abs(OffsetX(halfW, i)) < 24
            && 0 <= Abs(sag * (576 - u * u)) - 576 * Abs(OffsetY(sag, i)) < 576
            && (u >= 0 ==> OffsetX(halfW, i) >= 0) && (u <= 0 ==> OffsetX(halfW, i) <= 0)
            && (sag >= 0 ==> OffsetY(sag, i) >= 0) && (sag <= 0 ==> OffsetY(sag, i) <= 0)
  {
    BulgeRange(i);
    OffsetRange(halfW, sag, i);
    TruncDivGap(UScaled(i) * halfW, 24);
    TruncDivGap(sag * BulgeNum(i), 576);
    ProductMonotone(0, Abs(UScaled(i)), halfW);
    assert UScaled(i) < 0 ==> UScaled(i) * halfW == -(Abs(UScaled(i)) * halfW);
    hide TruncDiv;
  }

  lemma TruncDivGap(a: int, d: int)
    requires 0 < d
    ensures 0 <= Abs(a) - d * Abs(TruncDiv(a, d)) < d
    ensures (a >= 0 ==> TruncDiv(a, d) >= 0) && (a <= 0 ==> TruncDiv(a, d) <= 0)
  {
    FloorDivShrinks(Abs(a), d);
  }

  lemma BulgeRises(i: nat, j: nat)
    requires i <= j <= 12
    ensures BulgeNum(i) <= BulgeNum(j)
  {
    var a, b := -UScaled(i), -UScaled(j);
    assert 0 <= b <= a;
    ProductMonotone(b, a, b);
    ProductMonotone(b, a, a);
    assert UScaled(i) * UScaled(i) == a * a && UScaled(j) * UScaled(j) == b * b;
  }

  /** Sample `j` is bent at least as far as sample `i`, in the direction of the sag. */
  predicate BentFurther(sag: int, i: nat, j: nat) {
    if sag >= 0 then OffsetY(sag, i) <= OffsetY(sag, j) else OffsetY(sag, j) <= OffsetY(sag, i)
  }

  lemma ArcBends(sag: int, i: nat, j: nat)
    requires i <= j <= 12
    ensures BentFurther(sag, i, j)
  {
    BulgeRises(i, j);
    if sag >= 0 {
      ProductMonotone(BulgeNum(i), BulgeNum(j), sag);
      TruncDivMonotone(sag * BulgeNum(i), sag * BulgeNum(j), 576);
    } else {
      ProductMonotone(BulgeNum(i), BulgeNum(j), -sag);
      assert sag * BulgeNum(j) == -(-sag * BulgeNum(j)) && sag * BulgeNum(i) == -(-sag * BulgeNum(i));
      TruncDivMonotone(sag * BulgeNum(j), sag * BulgeNum(i), 576);
    }
  }

  /** From end to end x never steps back; from either end to the middle y moves one way only,
      toward the sag. */
  lemma ArcMonotone(halfW: int, sag: int, i: nat, j: nat)
    requires 0 <= halfW && i <= j <= 24
    ensures OffsetX(halfW, i) <= OffsetX(halfW, j)
    ensures j <= 12 ==> BentFurther(sag, i, j)
    ensures 12 <= i ==> BentFurther(sag, j, i)
  {
    ProductMonotone(UScaled(i), UScaled(j), halfW);
    TruncDivMonotone(UScaled(i) * halfW, UScaled(j) * halfW, 24);
    hide OffsetX, BulgeNum;
    if j <= 12 {
      ArcBends(sag, i, j);
    }
    if 12 <= i {
      ArcBends(sag, 24 - j, 24 - i);
      BulgeRange(i);
      BulgeRange(j);
    }
  }

  // ---- Breath envelope ----

  const BRIGHTNESS_PEAK: U8 := 102
  const BREATH_TROUGH_NUM: int := 6
  const BREATH_TROUGH_DEN: int := 10
  const BREATH_CYCLE_MS: int := 6000

  function Within(now: U64): int {
    var phase := now % BREATH_CYCLE_MS;
    if phase < BREATH_CYCLE_MS / 2 then phase else BREATH_CYCLE_MS - phase
  }

  /** The saturating product and the two fallbacks are written out; `BreathRange` shows that none
      of them is ever taken. */
  function BreathBrightness(now: U64): U8 {
    var half := BREATH_CYCLE_MS / 2;
    var tU64 := Min(Within(now) * 255, U64_MAX) / Max(half, 1);
    var t := if tU64 <= U32_MAX then tU64 else 255;
    var peak: int := BRIGHTNESS_PEAK;
    var trough := peak * BREATH_TROUGH_NUM / BREATH_TROUGH_DEN;
    var envelope := trough + (peak - trough) * t / 255;
    if 0 <= envelope < 0x100 then envelope else BRIGHTNESS_PEAK
  }

  lemma WithinRange(now: U64)
    ensures 0 <= Within(now) <= 3000
    ensures now + 1 <= U64_MAX ==> -1 <= Within(now + 1) - Within(now) <= 1
  {
  }

  /** The envelope as a function of the distance from the trough. */
  lemma BreathClosedForm(now: U64)
    ensures BreathBrightness(now) == 61 + 41 * (Within(now) * 255 / 3000) / 255
    ensures 0 <= Within(now) * 255 / 3000 <= 255
  {
    WithinRange(now);
  }

  /** Never above the peak, never below the trough, and when each is reached. */
  lemma BreathRange(now: U64)
    ensures 61 <= BreathBrightness(now) <= BRIGHTNESS_PEAK
    ensures BreathBrightness(now) == BRIGHTNESS_PEAK <==> now % BREATH_CYCLE_MS == 3000
    ensures BreathBrightness(now) == 61 <==> now % BREATH_CYCLE_MS <= 82 || 5918 <= now % BREATH_CYCLE_MS
  {
    BreathClosedForm(now);
    WithinRange(now);
  }

  /** The envelope in numbers: within 1.17 steps below the line from 61 at the ends of the six-second
      cycle to 102 in its middle. */
  lemma BreathOnTriangle(now: U64)
    ensures var phase := now % 6000;
            var distance := if phase < 3000 then phase else 6000 - phase;
            0 <= 41 * distance - 3000 * ((BreathBrightness(now) as int) - 61) < 3510
  {
    BreathClosedForm(now);
    WithinRange(now);
    Triangular(Within(now));
  }

  lemma Triangular(d: nat)
    requires d <= 3000
    ensures 0 <= 41 * d - 3000 * (41 * (d * 255 / 3000) / 255) < 3510
  {
    var t, r := d * 255 / 3000, d * 255 % 3000;
    assert d * 255 == 3000 * t + r;
    var q, p := 41 * t / 255, 41 * t % 255;
    assert 41 * t == 255 * q + p;
    assert 255 * (41 * d - 3000 * q) == 41 * r + 3000 * p;
  }

  lemma BreathPeriod(now: U64)
    requires now + BREATH_CYCLE_MS <= U64_MAX
    ensures BreathBrightness(now + BREATH_CYCLE_MS) == BreathBrightness(now)
  {
    assert (now + BREATH_CYCLE_MS) % BREATH_CYCLE_MS == now % BREATH_CYCLE_MS;
  }

  /** The light never jumps: at most one step of brightness per millisecond. */
  lemma BreathSmooth(now: U64)
    requires now < U64_MAX
    ensures -1 <= BreathBrightness(now + 1) - BreathBrightness(now) <= 1
  {
    BreathClosedForm(now);
    BreathClosedForm(now + 1);
    WithinRange(now);
  }

  /** Further from the trough is never dimmer. */
  lemma BreathMonotone(a: U64, b: U64)
    requires Within(a) <= Within(b)
    ensures BreathBrightness(a) <= BreathBrightness(b)
  {
    BreathClosedForm(a);
    BreathClosedForm(b);
    hide BreathBrightness, Within;
    FloorDivMonotone(Within(a) * 255, Within(b) * 255, 3000);
    FloorDivMonotone(41 * (Within(a) * 255 / 3000), 41 * (Within(b) * 255 / 3000), 255);
  }
}
