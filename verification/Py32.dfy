/** The PY32 IO expander driver (crates/py32/src/lib.rs): read-modify-write calls on a register bank
    over a bus that may fail between any two transactions, shown to refine a plain device of pins,
    an LED count, a refresh trigger and a pixel memory. */
module Py32 {
  import opened Bits
  import opened MachineInts

  const MAX_LEDS: nat := 32
  const PIN_MAX: nat := 13
  const REG_DIR_LO: nat := 0x03
  const REG_DIR_HI: nat := 0x04
  const REG_OUT_LO: nat := 0x05
  const REG_OUT_HI: nat := 0x06
  const REG_PULLUP_LO: nat := 0x09
  const REG_PULLUP_HI: nat := 0x0A
  const REG_LED_CFG: nat := 0x24
  const REG_LED_RAM: nat := 0x30
  const LED_COUNT_MASK: U8 := 0x3F
  const LED_REFRESH_BIT: U8 := 0x40

  datatype Result = Done | I2c | InvalidPin | TooManyLeds

  /** The register triplet of a pin, and its bit position; the mask is `1 << bit`. */
  datatype PinRegs = PinRegs(dir: nat, out: nat, pullUp: nat, bit: nat)

  function PinRegsOf(pin: nat): PinRegs
    requires pin <= PIN_MAX
  {
    if pin < 8 then PinRegs(REG_DIR_LO, REG_OUT_LO, REG_PULLUP_LO, pin)
    else PinRegs(REG_DIR_HI, REG_OUT_HI, REG_PULLUP_HI, pin - 8)
  }

  // ---- The device the registers stand for ----

  datatype Pin = Pin(output: bool, pullUp: bool, level: bool)

  /** `reserved` is the top bit of the LED configuration, which no call touches. */
  datatype Device = Device(pins: seq<Pin>, count: nat, refresh: bool, reserved: bool, pixels: seq<int>)

  predicate IsBank(regs: seq<int>) {
    |regs| == 256 && forall r :: 0 <= r < 256 ==> 0 <= regs[r] < 256
  }

  function PinAt(regs: seq<int>, pin: nat): Pin
    requires IsBank(regs) && pin <= PIN_MAX
  {
    var p := PinRegsOf(pin);
    Pin(Bit(regs[p.dir], p.bit), Bit(regs[p.pullUp], p.bit), Bit(regs[p.out], p.bit))
  }

  /** Pixels are stored low byte first. */
  function PixelAt(regs: seq<int>, i: nat): int
    requires IsBank(regs) && i < MAX_LEDS
  {
    regs[REG_LED_RAM + 2 * i] + 0x100 * regs[REG_LED_RAM + 2 * i + 1]
  }

  function PixelsOf(regs: seq<int>): (p: seq<int>)
    requires IsBank(regs)
    ensures |p| == MAX_LEDS && forall i :: 0 <= i < MAX_LEDS ==> p[i] == PixelAt(regs, i)
  {
    seq(MAX_LEDS, i requires 0 <= i < MAX_LEDS => PixelAt(regs, i))
  }

  function Abs(regs: seq<int>): (d: Device)
    requires IsBank(regs)
    ensures |d.pins| == 14 && |d.pixels| == MAX_LEDS
  {
    Device(seq(14, i requires 0 <= i < 14 => PinAt(regs, i)),
           And(regs[REG_LED_CFG], LED_COUNT_MASK), Bit(regs[REG_LED_CFG], 6), Bit(regs[REG_LED_CFG], 7),
           PixelsOf(regs))
  }

  // ---- The calls, on registers ----

  /** Each call carries how many of its bus transactions succeed before one fails. The chip clears
      the refresh trigger by itself when the latch is done: between calls (`LatchDone`), or, in the
      two calls on the trigger's own register, between their read and their write (`latched`). */
  datatype Op = ConfigureOutputPin(pin: U8, level: bool, budget: nat)
              | SetLedCount(count: U8, budget: nat, latched: bool)
              | WriteLedPixels(pixels: seq<U16>, budget: nat)
              | RefreshLeds(budget: nat, latched: bool)
              | LatchDone

  /** A read-modify-write: nothing changes unless both its transactions succeed. */
  function SetBit(regs: seq<int>, reg: nat, mask: nat, budget: nat): seq<int>
    requires IsBank(regs) && reg < 256
  {
    if budget >= 2 then regs[reg := Or(regs[reg], mask)] else regs
  }

  function ClearBit(regs: seq<int>, reg: nat, mask: U8, budget: nat): seq<int>
    requires IsBank(regs) && reg < 256
  {
    if budget >= 2 then regs[reg := And(regs[reg], 0xFF - mask)] else regs
  }

  /** What is left of a budget after one read-modify-write. */
  function Left(budget: nat): nat { if budget >= 2 then budget - 2 else 0 }

  function Ended(budget: nat, cost: nat): Result { if budget >= cost then Done else I2c }

  /** What the chip does to its registers when it finishes a latch. */
  function Latch(regs: seq<int>, happens: bool): seq<int>
    requires IsBank(regs)
  {
    if happens then ClearBit(regs, REG_LED_CFG, LED_REFRESH_BIT, 2) else regs
  }

  // ---- One bit of one register ----

  lemma ByteWidth()
    ensures Shl(1, 8) == 0x100 && Shl(1, 6) == 0x40
  {
    Shl8(1);
    assert Shl(1, 6) == 2 * Shl(1, 5) == 4 * Shl(1, 4) == 8 * Shl(1, 3) == 16 * Shl(1, 2);
    assert Shl(1, 2) == 2 * Shl(1, 1) == 4;
  }

  lemma {:induction false} ShlMonotone(m: nat, n: nat)
    requires m <= n
    ensures 0 < Shl(1, m) <= Shl(1, n)
    decreases n
  {
    if n == 0 {
    } else if m < n {
      ShlMonotone(m, n - 1);
    } else {
      ShlMonotone(m - 1, n - 1);
    }
  }

  lemma MaskIsByte(bit: nat)
    requires bit < 8
    ensures 0 < Shl(1, bit) < 0x100
  {
    ByteWidth();
    ShlMonotone(bit, 7);
  }

  /** Setting a bit of a register changes that bit of that register and nothing else. */
  lemma SetBitView(regs: seq<int>, reg: nat, bit: nat, budget: nat, r: nat, i: nat)
    requires IsBank(regs) && reg < 256 && r < 256 && bit < 8 && i < 8
    ensures var next := SetBit(regs, reg, Shl(1, bit), budget);
            IsBank(next) && (Bit(next[r], i) <==> Bit(regs[r], i) || (budget >= 2 && r == reg && i == bit))
  {
    ByteWidth();
    MaskIsByte(bit);
    OrBound(regs[reg], Shl(1, bit), 8);
    BitOr(regs[reg], Shl(1, bit), i);
    BitOfMask(bit, i);
    hide Or, Shl, Bit;
  }

  lemma ClearedBit(v: nat, bit: nat, i: nat)
    requires v < 256 && bit < 8 && i < 8 && Shl(1, bit) < 0x100
    ensures And(v, 0xFF - Shl(1, bit)) < 256
    ensures Bit(And(v, 0xFF - Shl(1, bit)), i) <==> Bit(v, i) && i != bit
  {
    ByteWidth();
    var mask := Shl(1, bit);
    AndBound(v, 0xFF - mask, 8);
    BitAnd(v, 0xFF - mask, i);
    BitOfComplement(mask, 8, i);
    BitOfMask(bit, i);
    hide And, Shl, Bit;
  }

  lemma ClearBitView(regs: seq<int>, reg: nat, bit: nat, budget: nat, r: nat, i: nat)
    requires IsBank(regs) && reg < 256 && r < 256 && bit < 8 && i < 8 && Shl(1, bit) < 0x100
    ensures var next := ClearBit(regs, reg, Shl(1, bit), budget);
            IsBank(next) && (Bit(next[r], i) <==> Bit(regs[r], i) && !(budget >= 2 && r == reg && i == bit))
  {
    hide And, Shl, Bit;
    ClearedBit(regs[reg], bit, i);
  }

  // ---- Configuring a pin ----

  /** The three read-modify-writes of one configure call. */
  function Configure(regs: seq<int>, pin: nat, level: bool, budget: nat): seq<int>
    requires IsBank(regs) && pin <= PIN_MAX
  {
    var p := PinRegsOf(pin);
    MaskIsByte(p.bit);
    SetBitView(regs, p.dir, p.bit, budget, 0, 0);
    var r1 := SetBit(regs, p.dir, Shl(1, p.bit), budget);
    SetBitView(r1, p.pullUp, p.bit, Left(budget), 0, 0);
    var r2 := SetBit(r1, p.pullUp, Shl(1, p.bit), Left(budget));
    if level then SetBit(r2, p.out, Shl(1, p.bit), Left(Left(budget)))
    else ClearBit(r2, p.out, Shl(1, p.bit), Left(Left(budget)))
  }

  /** What it does to any bit of any register. */
  lemma ConfigureView(regs: seq<int>, pin: nat, level: bool, budget: nat, r: nat, i: nat)
    requires IsBank(regs) && pin <= PIN_MAX && r < 256 && i < 8
    ensures var p, next := PinRegsOf(pin), Configure(regs, pin, level, budget);
            && IsBank(next)
            && (Bit(next[r], i) <==>
                  if i == p.bit && r == p.dir then budget >= 2 || Bit(regs[r], i)
                  else if i == p.bit && r == p.pullUp then budget >= 4 || Bit(regs[r], i)
                  else if i == p.bit && r == p.out then (if budget >= 6 then level else Bit(regs[r], i))
                  else Bit(regs[r], i))
  {
    var p := PinRegsOf(pin);
    MaskIsByte(p.bit);
    var r1 := SetBit(regs, p.dir, Shl(1, p.bit), budget);
    SetBitView(regs, p.dir, p.bit, budget, r, i);
    var r2 := SetBit(r1, p.pullUp, Shl(1, p.bit), Left(budget));
    SetBitView(r1, p.pullUp, p.bit, Left(budget), r, i);
    if level {
      SetBitView(r2, p.out, p.bit, Left(Left(budget)), r, i);
    } else {
      ClearBitView(r2, p.out, p.bit, Left(Left(budget)), r, i);
    }
    hide SetBit, ClearBit, Bit, Shl;
  }

  /** A pin after `n` of the three writes. */
  function Configured(p: Pin, level: bool, n: nat): Pin {
    Pin(n >= 1 || p.output, n >= 2 || p.pullUp, if n >= 3 then level else p.level)
  }

  /** One configure call moves its own pin through the writes that got out, and no other pin. */
  lemma ConfigurePins(regs: seq<int>, pin: nat, level: bool, budget: nat, q: nat)
    requires IsBank(regs) && pin <= PIN_MAX && q <= PIN_MAX
    ensures var next := Configure(regs, pin, level, budget);
            && IsBank(next)
            && PinAt(next, q) == if q == pin then Configured(PinAt(regs, q), level, budget / 2) else PinAt(regs, q)
  {
    var p := PinRegsOf(q);
    ConfigureView(regs, pin, level, budget, p.dir, p.bit);
    ConfigureView(regs, pin, level, budget, p.pullUp, p.bit);
    ConfigureView(regs, pin, level, budget, p.out, p.bit);
    hide Configure, Bit;
  }

  // ---- The LED configuration register ----

  lemma CountMaskBits(i: nat)
    requires i < 8
    ensures Bit(LED_COUNT_MASK, i) <==> i < 6
    ensures Bit(0xFF - LED_COUNT_MASK, i) <==> i >= 6
    ensures Shl(1, 6) == LED_REFRESH_BIT
  {
    ByteWidth();
    BitOfComplement(0, 6, if i < 6 then i else 0);
    BitZero(if i < 6 then i else 0);
    if i >= 6 {
      BitAbove(LED_COUNT_MASK, 6, i);
    }
    BitOfComplement(LED_COUNT_MASK, 8, i);
  }

  function CountInto(cfg: nat, count: nat): nat {
    Or(And(cfg, 0xFF - LED_COUNT_MASK), And(count, LED_COUNT_MASK))
  }

  lemma CountIntoBits(cfg: nat, count: nat, i: nat)
    requires i < 8
    ensures Bit(CountInto(cfg, count), i) <==> if i < 6 then Bit(count, i) else Bit(cfg, i)
  {
    CountMaskBits(i);
    BitOr(And(cfg, 0xFF - LED_COUNT_MASK), And(count, LED_COUNT_MASK), i);
    BitAnd(cfg, 0xFF - LED_COUNT_MASK, i);
    BitAnd(count, LED_COUNT_MASK, i);
    hide Or, And, Bit;
  }

  /** Setting the count replaces the count field and keeps the refresh trigger and the top bit. */
  lemma CountIntoField(cfg: nat, count: nat)
    requires cfg < 256 && count <= 32
    ensures CountInto(cfg, count) < 256 && And(CountInto(cfg, count), LED_COUNT_MASK) == count
    ensures Bit(CountInto(cfg, count), 6) == Bit(cfg, 6) && Bit(CountInto(cfg, count), 7) == Bit(cfg, 7)
  {
    var v := CountInto(cfg, count);
    ByteWidth();
    AndBound(cfg, 0xFF - LED_COUNT_MASK, 8);
    AndBound(count, LED_COUNT_MASK, 8);
    OrBound(And(cfg, 0xFF - LED_COUNT_MASK), And(count, LED_COUNT_MASK), 8);
    AndBound(v, LED_COUNT_MASK, 8);
    CountIntoBits(cfg, count, 6);
    CountIntoBits(cfg, count, 7);
    forall i | 0 <= i < 8 ensures Bit(And(v, LED_COUNT_MASK), i) <==> Bit(count, i) {
      BitAnd(v, LED_COUNT_MASK, i);
      CountMaskBits(i);
      CountIntoBits(cfg, count, i);
      if i >= 6 {
        BitAbove(count, 6, i);
      }
    }
    hide And, CountInto, Bit;
    SameBits(And(v, LED_COUNT_MASK), count, 8);
  }

  /** The count field depends on the low six bits only. */
  lemma CountFieldByBits(v: nat, w: nat)
    requires v < 256 && w < 256 && forall i :: 0 <= i < 6 ==> (Bit(v, i) <==> Bit(w, i))
    ensures And(v, LED_COUNT_MASK) == And(w, LED_COUNT_MASK)
  {
    ByteWidth();
    AndBound(v, LED_COUNT_MASK, 8);
    AndBound(w, LED_COUNT_MASK, 8);
    forall i | 0 <= i < 8 ensures Bit(And(v, LED_COUNT_MASK), i) <==> Bit(And(w, LED_COUNT_MASK), i) {
      BitAnd(v, LED_COUNT_MASK, i);
      BitAnd(w, LED_COUNT_MASK, i);
      CountMaskBits(i);
    }
    hide And, Bit;
    SameBits(And(v, LED_COUNT_MASK), And(w, LED_COUNT_MASK), 8);
  }

  // ---- Pixels ----

  predicate AreBytes(b: seq<int>) { forall i :: 0 <= i < |b| ==> 0 <= b[i] < 256 }

  /** The payload: each pixel's low byte, then its high byte. */
  function PixelBytes(pixels: seq<U16>): (b: seq<int>)
    ensures |b| == 2 * |pixels|
  {
    if pixels == [] then [] else
      var n := |pixels| - 1;
      PixelBytes(pixels[..n]) + [pixels[n] % 0x100, pixels[n] / 0x100]
  }

  lemma {:induction false} PixelBytesAre(pixels: seq<U16>)
    ensures AreBytes(PixelBytes(pixels))
  {
    if pixels == [] {
    } else {
      PixelBytesAre(pixels[..|pixels| - 1]);
    }
  }

  lemma {:induction false} PixelBytesAt(pixels: seq<U16>, i: nat)
    requires i < |pixels|
    ensures PixelBytes(pixels)[2 * i] == pixels[i] % 0x100 && PixelBytes(pixels)[2 * i + 1] == pixels[i] / 0x100
    decreases |pixels|
  {
    if i == |pixels| - 1 {
    } else {
      PixelBytesAt(pixels[..|pixels| - 1], i);
    }
  }

  lemma NoPixels()
    ensures PixelBytes([]) == []
  {
  }

  lemma PixelBytesStep(pixels: seq<U16>, n: nat)
    requires n < |pixels|
    ensures PixelBytes(pixels[..n + 1])
         == PixelBytes(pixels[..n]) + [pixels[n] % 0x100, pixels[n] / 0x100 % 0x100]
  {
    assert pixels[..n + 1][..n] == pixels[..n];
    assert pixels[n] / 0x100 % 0x100 == pixels[n] / 0x100;
  }

  /** A bulk write from register `at`, auto-incrementing. */
  function Burst(regs: seq<int>, at: nat, bytes: seq<int>): seq<int>
    requires IsBank(regs) && at + |bytes| <= 256
  {
    regs[..at] + bytes + regs[at + |bytes|..]
  }

  lemma BurstBank(regs: seq<int>, at: nat, bytes: seq<int>)
    requires IsBank(regs) && at + |bytes| <= 256 && AreBytes(bytes)
    ensures IsBank(Burst(regs, at, bytes))
  {
  }

  lemma BurstAt(regs: seq<int>, at: nat, bytes: seq<int>, r: nat)
    requires IsBank(regs) && at + |bytes| <= 256 && r < 256
    ensures |Burst(regs, at, bytes)| == 256
    ensures Burst(regs, at, bytes)[r] == if at <= r < at + |bytes| then bytes[r - at] else regs[r]
  {
  }

  // ---- Steps and their refinement ----

  function Step(regs: seq<int>, op: Op): (seq<int>, Result)
    requires IsBank(regs)
  {
    match op
    case ConfigureOutputPin(pin, level, budget) =>
      if pin > PIN_MAX then (regs, InvalidPin) else (Configure(regs, pin, level, budget), Ended(budget, 6))
    case SetLedCount(count, budget, latched) =>
      if count > MAX_LEDS then (regs, TooManyLeds)
      else if budget < 2 then (Latch(regs, latched), I2c)
      else (Latch(regs, latched)[REG_LED_CFG := CountInto(regs[REG_LED_CFG], count)], Done)
    case WriteLedPixels(pixels, budget) =>
      if |pixels| > MAX_LEDS then (regs, TooManyLeds)
      else if pixels == [] then (regs, Done)
      else if budget == 0 then (regs, I2c)
      else (Burst(regs, REG_LED_RAM, PixelBytes(pixels)), Done)
    case RefreshLeds(budget, latched) =>
      if budget < 2 then (Latch(regs, latched), I2c)
      else (Latch(regs, latched)[REG_LED_CFG := Or(regs[REG_LED_CFG], LED_REFRESH_BIT)], Done)
    case LatchDone => (Latch(regs, true), Done)
  }

  function DeviceStep(d: Device, op: Op): (Device, Result)
    requires |d.pins| == 14 && |d.pixels| == MAX_LEDS
  {
    match op
    case ConfigureOutputPin(pin, level, budget) =>
      if pin > PIN_MAX then (d, InvalidPin)
      else (d.(pins := d.pins[pin := Configured(d.pins[pin], level, budget / 2)]), Ended(budget, 6))
    case SetLedCount(count, budget, latched) =>
      if count > MAX_LEDS then (d, TooManyLeds) else
        var after := d.(refresh := d.refresh && !latched);
        if budget < 2 then (after, I2c) else (after.(count := count), Done)
    case WriteLedPixels(pixels, budget) =>
      if |pixels| > MAX_LEDS then (d, TooManyLeds)
      else if pixels == [] then (d, Done)
      else if budget == 0 then (d, I2c)
      else (d.(pixels := pixels + d.pixels[|pixels|..]), Done)
    case RefreshLeds(budget, latched) =>
      (d.(refresh := budget >= 2 || (d.refresh && !latched)), Ended(budget, 2))
    case LatchDone => (d.(refresh := false), Done)
  }

  lemma ConfigureRefines(regs: seq<int>, pin: nat, level: bool, budget: nat)
    requires IsBank(regs) && pin <= PIN_MAX
    ensures var next, d := Configure(regs, pin, level, budget), Abs(regs);
            IsBank(next) && Abs(next) == d.(pins := d.pins[pin := Configured(d.pins[pin], level, budget / 2)])
  {
    var next, d := Configure(regs, pin, level, budget), Abs(regs);
    ConfigurePins(regs, pin, level, budget, pin);
    assert forall r :: REG_LED_CFG <= r < 256 ==> next[r] == regs[r];
    hide Configure, Bit, And;
    forall q | 0 <= q < 14
      ensures Abs(next).pins[q] == d.pins[pin := Configured(d.pins[pin], level, budget / 2)][q]
    {
      ConfigurePins(regs, pin, level, budget, q);
    }
    assert forall i :: 0 <= i < MAX_LEDS ==> Abs(next).pixels[i] == d.pixels[i];
  }

  /** A change of the LED configuration register alone shows in its three fields alone. */
  lemma LedCfgOnly(regs: seq<int>, v: int)
    requires IsBank(regs) && 0 <= v < 256
    ensures var next, d := regs[REG_LED_CFG := v], Abs(regs);
            && IsBank(next)
            && Abs(next) == d.(count := And(v, LED_COUNT_MASK), refresh := Bit(v, 6), reserved := Bit(v, 7))
  {
    var next := regs[REG_LED_CFG := v];
    hide Bit, And;
    assert forall q :: 0 <= q < 14 ==> Abs(next).pins[q] == Abs(regs).pins[q];
    assert forall i :: 0 <= i < MAX_LEDS ==> Abs(next).pixels[i] == Abs(regs).pixels[i];
  }

  /** Setting or clearing the refresh trigger changes no count, pin or pixel. */
  lemma RefreshRefines(regs: seq<int>, set': bool)
    requires IsBank(regs)
    ensures var next := if set' then SetBit(regs, REG_LED_CFG, LED_REFRESH_BIT, 2) else Latch(regs, true);
            IsBank(next) && Abs(next) == Abs(regs).(refresh := set')
  {
    CountMaskBits(0);
    var next := if set' then SetBit(regs, REG_LED_CFG, LED_REFRESH_BIT, 2) else Latch(regs, true);
    forall i | 0 <= i < 8
      ensures IsBank(next) && (Bit(next[REG_LED_CFG], i) <==> if i == 6 then set' else Bit(regs[REG_LED_CFG], i))
    {
      if set' {
        SetBitView(regs, REG_LED_CFG, 6, 2, REG_LED_CFG, i);
      } else {
        ClearBitView(regs, REG_LED_CFG, 6, 2, REG_LED_CFG, i);
      }
    }
    assert next == regs[REG_LED_CFG := next[REG_LED_CFG]];
    assert IsBank(next) by {
      assert Bit(next[REG_LED_CFG], 0) <==> Bit(regs[REG_LED_CFG], 0);
    }
    hide Bit, And, Or, SetBit, ClearBit, Latch;
    CountFieldByBits(next[REG_LED_CFG], regs[REG_LED_CFG]);
    LedCfgOnly(regs, next[REG_LED_CFG]);
  }

  /** A latch that happens, or not. */
  lemma LatchRefines(regs: seq<int>, happens: bool)
    requires IsBank(regs)
    ensures IsBank(Latch(regs, happens))
    ensures Abs(Latch(regs, happens)) == Abs(regs).(refresh := Abs(regs).refresh && !happens)
  {
    RefreshRefines(regs, false);
    hide Abs, ClearBit;
  }

  /** A write of the trigger's register undoes whatever the chip did to it since the read. */
  lemma LatchOverwritten(regs: seq<int>, happens: bool, v: int)
    requires IsBank(regs)
    ensures |Latch(regs, happens)| == 256 && Latch(regs, happens)[REG_LED_CFG := v] == regs[REG_LED_CFG := v]
  {
  }

  /** A latch during a pin call is a latch before or after it: other registers, other order. */
  lemma LatchCommutes(regs: seq<int>, reg: nat, mask: U8, happens: bool, budget: nat)
    requires IsBank(regs) && IsBank(Latch(regs, happens)) && reg < 256 && reg != REG_LED_CFG
    requires IsBank(SetBit(regs, reg, mask, budget)) && IsBank(ClearBit(regs, reg, mask, budget))
    ensures SetBit(Latch(regs, happens), reg, mask, budget) == Latch(SetBit(regs, reg, mask, budget), happens)
    ensures ClearBit(Latch(regs, happens), reg, mask, budget) == Latch(ClearBit(regs, reg, mask, budget), happens)
  {
    hide And, Or;
  }

  lemma PixelFromBytes(regs: seq<int>, b: seq<int>, i: nat)
    requires IsBank(regs) && AreBytes(b) && |b| % 2 == 0 && |b| <= 2 * MAX_LEDS && i < MAX_LEDS
    ensures var next := Burst(regs, REG_LED_RAM, b);
            && IsBank(next)
            && PixelAt(next, i) == if 2 * i < |b| then b[2 * i] + 0x100 * b[2 * i + 1] else PixelAt(regs, i)
  {
    BurstBank(regs, REG_LED_RAM, b);
    BurstAt(regs, REG_LED_RAM, b, REG_LED_RAM + 2 * i);
    BurstAt(regs, REG_LED_RAM, b, REG_LED_RAM + 2 * i + 1);
    hide Burst, IsBank, AreBytes;
  }

  lemma PixelAfterBurst(regs: seq<int>, pixels: seq<U16>, i: nat)
    requires IsBank(regs) && |pixels| <= MAX_LEDS && i < MAX_LEDS
    ensures var next := Burst(regs, REG_LED_RAM, PixelBytes(pixels));
            IsBank(next) && PixelAt(next, i) == if i < |pixels| then pixels[i] else PixelAt(regs, i)
  {
    var b := PixelBytes(pixels);
    PixelBytesAre(pixels);
    hide Burst, PixelBytes, IsBank, PixelAt, AreBytes;
    assert |b| == 2 * |pixels|;
    PixelFromBytes(regs, b, i);
    if i < |pixels| {
      PixelBytesAt(pixels, i);
      WordOfBytes(pixels[i]);
    }
  }

  lemma WordOfBytes(w: U16)
    ensures w % 0x100 + 0x100 * (w / 0x100) == w
  {
  }

  /** Everything but the pixels is read from below the pixel memory. */
  lemma SameBelowRam(regs: seq<int>, next: seq<int>)
    requires IsBank(regs) && IsBank(next) && forall r :: 0 <= r < REG_LED_RAM ==> next[r] == regs[r]
    ensures Abs(next) == Abs(regs).(pixels := Abs(next).pixels)
  {
    hide Bit, And, PixelAt;
    assert forall q :: 0 <= q < 14 ==> Abs(next).pins[q] == Abs(regs).pins[q];
  }

  lemma PixelsRefine(regs: seq<int>, pixels: seq<U16>)
    requires IsBank(regs) && |pixels| <= MAX_LEDS
    ensures var next, d := Burst(regs, REG_LED_RAM, PixelBytes(pixels)), Abs(regs);
            IsBank(next) && Abs(next) == d.(pixels := pixels + d.pixels[|pixels|..])
  {
    var b := PixelBytes(pixels);
    var next := Burst(regs, REG_LED_RAM, b);
    PixelBytesAre(pixels);
    BurstBank(regs, REG_LED_RAM, b);
    hide PixelBytes, Burst, PixelAt, PinAt;
    forall r | 0 <= r < REG_LED_RAM ensures next[r] == regs[r] {
      BurstAt(regs, REG_LED_RAM, b, r);
    }
    SameBelowRam(regs, next);
    RamRefines(regs, pixels);
    hide Abs;
  }

  lemma RamRefines(regs: seq<int>, pixels: seq<U16>)
    requires IsBank(regs) && |pixels| <= MAX_LEDS
    ensures var next := Burst(regs, REG_LED_RAM, PixelBytes(pixels));
            IsBank(next) && PixelsOf(next) == pixels + PixelsOf(regs)[|pixels|..]
  {
    hide PixelBytes, Burst, PixelAt, IsBank, PixelsOf;
    PixelAfterBurst(regs, pixels, 0);
    var next := Burst(regs, REG_LED_RAM, PixelBytes(pixels));
    var got, want: seq<int> := PixelsOf(next), pixels + PixelsOf(regs)[|pixels|..];
    forall i | 0 <= i < MAX_LEDS ensures got[i] == want[i] {
      PixelAfterBurst(regs, pixels, i);
      assert got[i] == PixelAt(next, i);
      assert i >= |pixels| ==> want[i] == PixelsOf(regs)[i] == PixelAt(regs, i);
    }
  }

  /** The latch ends between the read and the write of a count call: the stale trigger is written
      back and a second latch starts. */
  predicate Rearms(d: Device, op: Op) {
    op.SetLedCount? && op.count <= MAX_LEDS && op.budget >= 2 && op.latched && d.refresh
  }

  /** Every call on the registers is the same call on the device, results included, but for the
      trigger that a count call re-arms. */
  lemma StepRefines(regs: seq<int>, op: Op)
    requires IsBank(regs)
    ensures var (next, r), (d, s) := Step(regs, op), DeviceStep(Abs(regs), op);
            IsBank(next) && r == s && Abs(next) == if Rearms(Abs(regs), op) then d.(refresh := true) else d
  {
    hide Abs, Latch, Configure, Burst, CountInto, PixelBytes, Or, SetBit;
    match op
    case ConfigureOutputPin(pin, level, budget) =>
      if pin <= PIN_MAX {
        ConfigureRefines(regs, pin, level, budget);
      }
    case SetLedCount(count, budget, latched) =>
      if count <= MAX_LEDS {
        SetCountRefines(regs, count, latched);
        LatchRefines(regs, latched);
      }
    case WriteLedPixels(pixels, budget) =>
      if |pixels| <= MAX_LEDS {
        PixelsRefine(regs, pixels);
      }
    case RefreshLeds(budget, latched) =>
      LatchRefines(regs, latched);
      SetTriggerRefines(regs, latched);
    case LatchDone => LatchRefines(regs, true);
  }

  /** The call and the device part company exactly on the re-armed trigger. */
  lemma StepRefinesIff(regs: seq<int>, op: Op)
    requires IsBank(regs)
    ensures IsBank(Step(regs, op).0)
    ensures DeviceStep(Abs(regs), op) == (Abs(Step(regs, op).0), Step(regs, op).1) <==> !Rearms(Abs(regs), op)
  {
    StepRefines(regs, op);
    hide Abs, Step;
  }

  lemma SetTriggerRefines(regs: seq<int>, latched: bool)
    requires IsBank(regs)
    ensures var next := Latch(regs, latched)[REG_LED_CFG := Or(regs[REG_LED_CFG], LED_REFRESH_BIT)];
            IsBank(next) && Abs(next) == Abs(regs).(refresh := true)
  {
    LatchOverwritten(regs, latched, Or(regs[REG_LED_CFG], LED_REFRESH_BIT));
    RefreshRefines(regs, true);
    hide Abs, Latch, Or;
  }

  lemma SetCountRefines(regs: seq<int>, count: nat, latched: bool)
    requires IsBank(regs) && count <= MAX_LEDS
    ensures var next := Latch(regs, latched)[REG_LED_CFG := CountInto(regs[REG_LED_CFG], count)];
            IsBank(next) && Abs(next) == Abs(regs).(count := count)
  {
    LatchOverwritten(regs, latched, CountInto(regs[REG_LED_CFG], count));
    CountIntoField(regs[REG_LED_CFG], count);
    LedCfgOnly(regs, CountInto(regs[REG_LED_CFG], count));
    hide CountInto, And, Bit, Latch;
  }

  // ---- The registers in numbers ----

  /** A successful configure in numbers: bit `pin % 8` of the low registers for pins 0 to 7 and of the
      next ones up for 8 to 13; direction 0x03, output 0x05, pull-up 0x09; nothing else changes. */
  lemma ConfigureInNumbers(regs: seq<int>, pin: nat, level: bool, budget: nat, r: nat, i: nat)
    requires IsBank(regs) && pin <= 13 && budget >= 6 && r < 256 && i < 8
    ensures var hi := if pin < 8 then 0 else 1;
            var next := Configure(regs, pin, level, budget);
            IsBank(next) &&
            (Bit(next[r], i) <==>
               if i == pin % 8 && (r == 0x03 + hi || r == 0x09 + hi) then true
               else if i == pin % 8 && r == 0x05 + hi then level
               else Bit(regs[r], i))
  {
    ConfigureView(regs, pin, level, budget, r, i);
    hide Configure, Bit;
  }

  /** What a pin of the device is, in numbers. */
  lemma PinInNumbers(regs: seq<int>, pin: nat)
    requires IsBank(regs) && pin <= 13
    ensures var hi := if pin < 8 then 0 else 1;
            PinAt(regs, pin) == Pin(Bit(regs[0x03 + hi], pin % 8), Bit(regs[0x09 + hi], pin % 8),
                                    Bit(regs[0x05 + hi], pin % 8))
  {
    hide Bit;
  }

  /** The LED calls in numbers: the count is the low six bits of register 0x24, the trigger is its
      bit 6, and pixel `k` is the two bytes from 0x30 + 2k on. */
  lemma LedsInNumbers(regs: seq<int>, count: U8, pixels: seq<U16>, k: nat, r: nat, i: nat)
    requires IsBank(regs) && count <= 32 && |pixels| <= 32 && k < |pixels| && r < 256 && i < 8
    ensures var next := Step(regs, SetLedCount(count, 2, false)).0;
            && (r != 0x24 ==> next[r] == regs[r])
            && (Bit(next[0x24], i) <==> if i < 6 then Bit(count, i) else Bit(regs[0x24], i))
    ensures var next := Step(regs, RefreshLeds(2, false)).0;
            && (r != 0x24 ==> next[r] == regs[r])
            && (Bit(next[0x24], i) <==> Bit(regs[0x24], i) || i == 6)
    ensures var next := Step(regs, WriteLedPixels(pixels, 1)).0;
            && |next| == 256
            && next[0x30 + 2 * k] == pixels[k] % 0x100 && next[0x31 + 2 * k] == pixels[k] / 0x100
            && (r < 0x30 || 0x30 + 2 * |pixels| <= r ==> next[r] == regs[r])
  {
    CountIntoBits(regs[0x24], count, i);
    CountMaskBits(0);
    SetBitView(regs, 0x24, 6, 2, 0x24, i);
    PixelBytesAt(pixels, k);
    BurstAt(regs, 0x30, PixelBytes(pixels), 0x30 + 2 * k);
    BurstAt(regs, 0x30, PixelBytes(pixels), 0x31 + 2 * k);
    BurstAt(regs, 0x30, PixelBytes(pixels), r);
    hide Bit, CountInto, Or, And, Burst, PixelBytes;
  }

  /** What is refused, in numbers: pins above 13, more than 32 LEDs or pixels. */
  lemma RefusedInNumbers(regs: seq<int>, op: Op)
    requires IsBank(regs)
    ensures Step(regs, op).1 == InvalidPin <==> op.ConfigureOutputPin? && op.pin > 13
    ensures Step(regs, op).1 == TooManyLeds
       <==> (op.SetLedCount? && op.count > 32) || (op.WriteLedPixels? && |op.pixels| > 32)
    ensures Step(regs, op).1 in {InvalidPin, TooManyLeds} ==> Step(regs, op).0 == regs
  {
    hide Configure, Latch, Burst, CountInto, Or;
  }

  // ---- Whole runs ----

  function Run(regs: seq<int>, ops: seq<Op>): (r: seq<int>)
    requires IsBank(regs)
    ensures IsBank(r)
    decreases |ops|
  {
    if ops == [] then regs else
      StepRefines(regs, ops[0]);
      Run(Step(regs, ops[0]).0, ops[1..])
  }

  function DeviceRun(d: Device, ops: seq<Op>): (r: Device)
    requires |d.pins| == 14 && |d.pixels| == MAX_LEDS
    ensures |r.pins| == 14 && |r.pixels| == MAX_LEDS
    decreases |ops|
  {
    if ops == [] then d else DeviceRun(DeviceStep(d, ops[0]).0, ops[1..])
  }

  ghost predicate InStep(regs: seq<int>, ops: seq<Op>)
    requires IsBank(regs)
  {
    Abs(Run(regs, ops)) == DeviceRun(Abs(regs), ops)
  }

  ghost predicate InStepThroughout(regs: seq<int>, ops: seq<Op>)
    requires IsBank(regs)
  {
    forall n :: 0 <= n <= |ops| ==> InStep(regs, ops[..n])
  }

  /** A run by its first call. */
  lemma RunsFrom(regs: seq<int>, d: Device, ops: seq<Op>)
    requires IsBank(regs) && ops != [] && |d.pins| == 14 && |d.pixels| == MAX_LEDS
    ensures IsBank(Step(regs, ops[0]).0) && Run(regs, ops) == Run(Step(regs, ops[0]).0, ops[1..])
    ensures DeviceRun(d, ops) == DeviceRun(DeviceStep(d, ops[0]).0, ops[1..])
    ensures |ops| == 1 ==> Run(regs, ops) == Step(regs, ops[0]).0 && DeviceRun(d, ops) == DeviceStep(d, ops[0]).0
  {
    StepRefinesIff(regs, ops[0]);
    hide Step, Rearms, Abs;
    assert |ops| == 1 ==> ops[1..] == [];
  }

  lemma InStepAfter(regs: seq<int>, ops: seq<Op>)
    requires IsBank(regs) && ops != []
    ensures IsBank(Step(regs, ops[0]).0)
    ensures !Rearms(Abs(regs), ops[0]) ==> (InStep(regs, ops) <==> InStep(Step(regs, ops[0]).0, ops[1..]))
    ensures Rearms(Abs(regs), ops[0]) && |ops| == 1 ==> !InStep(regs, ops)
  {
    StepRefinesIff(regs, ops[0]);
    hide Abs, Step, DeviceStep, Run, DeviceRun, Rearms;
    RunsFrom(regs, Abs(regs), ops);
    StepRefines(regs, ops[0]);
  }

  lemma {:induction false} ThroughoutAfter(regs: seq<int>, ops: seq<Op>)
    requires IsBank(regs) && ops != []
    ensures IsBank(Step(regs, ops[0]).0)
    ensures InStepThroughout(regs, ops)
       <==> !Rearms(Abs(regs), ops[0]) && InStepThroughout(Step(regs, ops[0]).0, ops[1..])
  {
    StepRefinesIff(regs, ops[0]);
    var next := Step(regs, ops[0]).0;
    assert ops[..0] == [] && InStep(regs, ops[..0]);
    hide Abs, Step, DeviceStep, Rearms, InStep;
    forall n | 1 <= n <= |ops|
      ensures Rearms(Abs(regs), ops[0]) || (InStep(regs, ops[..n]) <==> InStep(next, ops[1..][..n - 1]))
      ensures Rearms(Abs(regs), ops[0]) && n == 1 ==> !InStep(regs, ops[..n])
    {
      InStepAfter(regs, ops[..n]);
      assert ops[..n][0] == ops[0] && ops[..n][1..] == ops[1..][..n - 1];
    }
    if InStepThroughout(regs, ops) {
      assert InStep(regs, ops[..1]);
      forall m | 0 <= m <= |ops[1..]| ensures InStep(next, ops[1..][..m]) {
        assert InStep(regs, ops[..m + 1]);
      }
    }
    if !Rearms(Abs(regs), ops[0]) && InStepThroughout(next, ops[1..]) {
      forall n | 0 <= n <= |ops| ensures InStep(regs, ops[..n]) {
        assert n > 0 ==> InStep(next, ops[1..][..n - 1]);
      }
    }
  }

  /** After every prefix of a run of calls, failing anywhere and with latches ending anywhere, the
      registers stand for the device, if and only if no count call re-arms the trigger. */
  lemma {:induction false} RegistersRefineDeviceIff(regs: seq<int>, ops: seq<Op>)
    requires IsBank(regs)
    ensures InStepThroughout(regs, ops) <==> NeverRearms(Abs(regs), ops)
    decreases |ops|
  {
    if ops == [] {
      assert forall n :: 0 <= n <= |ops| ==> ops[..n] == [];
      assert InStep(regs, []);
    } else {
      StepRefinesIff(regs, ops[0]);
      ThroughoutAfter(regs, ops);
      RegistersRefineDeviceIff(Step(regs, ops[0]).0, ops[1..]);
      hide Abs, Step, DeviceStep, InStepThroughout, Rearms;
    }
  }

  predicate NeverRearms(d: Device, ops: seq<Op>)
    requires |d.pins| == 14 && |d.pixels| == MAX_LEDS
    decreases |ops|
  {
    ops == [] || (!Rearms(d, ops[0]) && NeverRearms(DeviceStep(d, ops[0]).0, ops[1..]))
  }

  /** Pins, count and pixels follow the device in every run, re-armed trigger or not. */
  lemma {:induction false} AllButTrigger(regs: seq<int>, d: Device, ops: seq<Op>)
    requires IsBank(regs) && Abs(regs).(refresh := false) == d.(refresh := false)
    ensures Abs(Run(regs, ops)).(refresh := false) == DeviceRun(d, ops).(refresh := false)
    decreases |ops|
  {
    if ops == [] {
    } else {
      StepRefines(regs, ops[0]);
      TriggerApart(Abs(regs), d, ops[0]);
      hide Abs, Step, DeviceStep;
      AllButTrigger(Step(regs, ops[0]).0, DeviceStep(d, ops[0]).0, ops[1..]);
    }
  }

  /** Nothing but the trigger depends on the trigger. */
  lemma TriggerApart(d: Device, e: Device, op: Op)
    requires |d.pins| == 14 && |d.pixels| == MAX_LEDS && d.(refresh := false) == e.(refresh := false)
    ensures DeviceStep(d, op).0.(refresh := false) == DeviceStep(e, op).0.(refresh := false)
  {
  }

  predicate Configures(op: Op, pin: nat) { op.ConfigureOutputPin? && op.pin == pin }

  lemma {:induction false} PinUntouched(d: Device, ops: seq<Op>, pin: nat)
    requires |d.pins| == 14 && |d.pixels| == MAX_LEDS && pin <= PIN_MAX
    requires forall k :: 0 <= k < |ops| ==> !Configures(ops[k], pin)
    ensures DeviceRun(d, ops).pins[pin] == d.pins[pin]
    decreases |ops|
  {
    if ops == [] {
    } else {
      assert !Configures(ops[0], pin);
      forall k | 0 <= k < |ops| - 1 ensures !Configures(ops[1..][k], pin) {
        assert !Configures(ops[k + 1], pin);
      }
      PinUntouched(DeviceStep(d, ops[0]).0, ops[1..], pin);
    }
  }

  lemma {:induction false} DeviceRunAppend(d: Device, ops: seq<Op>, more: seq<Op>)
    requires |d.pins| == 14 && |d.pixels| == MAX_LEDS
    ensures DeviceRun(d, ops + more) == DeviceRun(DeviceRun(d, ops), more)
    decreases |ops|
  {
    if ops == [] {
      assert ops + more == more;
    } else {
      DeviceRunAppend(DeviceStep(d, ops[0]).0, ops[1..], more);
      assert (ops + more)[1..] == ops[1..] + more;
    }
  }

  /** Calls of the run that configure `pin` all fail somewhere. */
  ghost predicate ConfiguresFail(ops: seq<Op>, pin: nat) {
    forall k :: 0 <= k < |ops| && Configures(ops[k], pin) ==> ops[k].budget < 6
  }

  /** A pin that is an output with its pull-up on is kept by every configure that fails: the level
      is the last thing written. */
  lemma {:induction false} PinKept(d: Device, ops: seq<Op>, pin: nat)
    requires |d.pins| == 14 && |d.pixels| == MAX_LEDS && pin <= PIN_MAX
    requires d.pins[pin].output && d.pins[pin].pullUp && ConfiguresFail(ops, pin)
    ensures DeviceRun(d, ops).pins[pin] == d.pins[pin]
    decreases |ops|
  {
    if ops == [] {
    } else {
      assert Configures(ops[0], pin) ==> ops[0].budget < 6;
      forall k | 0 <= k < |ops| - 1 && Configures(ops[1..][k], pin) ensures ops[1..][k].budget < 6 {
        assert Configures(ops[k + 1], pin);
      }
      PinKept(DeviceStep(d, ops[0]).0, ops[1..], pin);
    }
  }

  /** The pin's registers reflect its last successful configure: after any calls at all, that
      configure, and any further calls whose own configures of the pin fail, wherever they fail,
      they read output, pulled up, at the level asked for. */
  lemma PinFollowsLastConfigure(regs: seq<int>, before: seq<Op>, pin: nat, level: bool, budget: nat, after: seq<Op>)
    requires IsBank(regs) && pin <= PIN_MAX && budget >= 6 && ConfiguresFail(after, pin)
    ensures PinAt(Run(regs, before + [ConfigureOutputPin(pin, level, budget)] + after), pin) == Pin(true, true, level)
  {
    var op := ConfigureOutputPin(pin, level, budget);
    var all := before + [op] + after;
    AllButTrigger(regs, Abs(regs), all);
    DeviceRunAppend(Abs(regs), before + [op], after);
    DeviceRunAppend(Abs(regs), before, [op]);
    var d := DeviceRun(Abs(regs), before);
    assert [op][1..] == [];
    assert DeviceRun(d, [op]) == DeviceStep(d, op).0;
    PinKept(DeviceStep(d, op).0, after, pin);
    assert Abs(Run(regs, all)).pins[pin] == PinAt(Run(regs, all), pin);
  }

  // ---- The driver ----

  class Py32 {
    var regs: seq<int>
    var budget: nat  // bus transactions that still succeed

    ghost predicate Valid()
      reads this
    {
      IsBank(regs)
    }

    method ReadReg(reg: nat) returns (ok: bool, v: nat)
      requires Valid() && reg < 256
      modifies this`budget
      ensures ok <==> old(budget) >= 1
      ensures ok ==> v == regs[reg] && v < 256
      ensures budget == if ok then old(budget) - 1 else 0
    {
      ok, v := budget >= 1, regs[reg];
      budget := if ok then budget - 1 else 0;
    }

    method WriteReg(reg: nat, v: nat) returns (ok: bool)
      requires Valid() && reg < 256 && v < 256
      modifies this
      ensures Valid() && (ok <==> old(budget) >= 1)
      ensures regs == if ok then old(regs)[reg := v] else old(regs)
      ensures budget == if ok then old(budget) - 1 else 0
    {
      ok := budget >= 1;
      if ok {
        regs := regs[reg := v];
      }
      budget := if ok then budget - 1 else 0;
    }

    /** The chip finishing a latch while a call is under way. */
    method ChipLatch(happens: bool)
      requires Valid()
      modifies this`regs
      ensures Valid() && regs == Latch(old(regs), happens)
    {
      LatchRefines(regs, happens);
      hide ClearBit;
      regs := Latch(regs, happens);
    }

    method SetBitOf(reg: nat, bit: nat, latched: bool) returns (ok: bool)
      requires Valid() && reg < 256 && bit < 8
      modifies this
      ensures Valid() && (ok <==> old(budget) >= 2) && budget == Left(old(budget))
      ensures regs == if ok then Latch(old(regs), latched)[reg := Or(old(regs)[reg], Shl(1, bit))]
                      else Latch(old(regs), latched)
    {
      SetBitView(regs, reg, bit, 2, reg, 0);
      hide Latch;
      var v;
      ok, v := ReadReg(reg);
      ChipLatch(latched);
      if !ok {
        return;
      }
      ok := WriteReg(reg, Or(v, Shl(1, bit)));
    }

    method ClearBitOf(reg: nat, bit: nat) returns (ok: bool)
      requires Valid() && reg < 256 && bit < 8 && Shl(1, bit) < 0x100
      modifies this
      ensures Valid() && (ok <==> old(budget) >= 2)
      ensures regs == ClearBit(old(regs), reg, Shl(1, bit), old(budget)) && budget == Left(old(budget))
    {
      ClearBitView(regs, reg, bit, 2, reg, 0);
      var v;
      ok, v := ReadReg(reg);
      if !ok {
        return;
      }
      ok := WriteReg(reg, And(v, 0xFF - Shl(1, bit)));
    }

    method ConfigurePin(pin: U8, level: bool) returns (r: Result)
      requires Valid()
      modifies this
      ensures Valid() && (regs, r) == Step(old(regs), ConfigureOutputPin(pin, level, old(budget)))
    {
      if pin > PIN_MAX {
        return InvalidPin;
      }
      var p := PinRegsOf(pin);
      MaskIsByte(p.bit);
      hide ClearBit, Shl;
      var ok := SetBitOf(p.dir, p.bit, false);
      if !ok {
        UnspentConfigure(old(regs), pin, level, old(budget));
        return I2c;
      }
      ok := SetBitOf(p.pullUp, p.bit, false);
      if !ok {
        UnspentConfigure(old(regs), pin, level, old(budget));
        return I2c;
      }
      if level {
        ok := SetBitOf(p.out, p.bit, false);
      } else {
        ok := ClearBitOf(p.out, p.bit);
      }
      r := if ok then Done else I2c;
    }

    method SetCount(count: U8, latched: bool) returns (r: Result)
      requires Valid()
      modifies this
      ensures Valid() && (regs, r) == Step(old(regs), SetLedCount(count, old(budget), latched))
    {
      if count > MAX_LEDS {
        return TooManyLeds;
      }
      var ok, current := ReadReg(REG_LED_CFG);
      ChipLatch(latched);
      if !ok {
        return I2c;
      }
      CountIntoField(current, count);
      hide CountInto, Latch;
      ok := WriteReg(REG_LED_CFG, CountInto(current, count));
      r := if ok then Done else I2c;
    }

    method WritePixels(pixels: seq<U16>) returns (r: Result)
      requires Valid()
      modifies this
      ensures Valid() && (regs, r) == Step(old(regs), WriteLedPixels(pixels, old(budget)))
    {
      if |pixels| > MAX_LEDS {
        return TooManyLeds;
      }
      if pixels == [] {
        return Done;
      }
      var buf := StagePixels(pixels);
      if budget == 0 {
        return I2c;
      }
      PixelsRefine(regs, pixels);
      hide PixelBytes, Burst;
      budget := budget - 1;
      regs := Burst(regs, buf[0], buf[1..]);
      r := Done;
    }

    /** The staging loop: register byte, then each pixel low byte first. */
    static method StagePixels(pixels: seq<U16>) returns (payload: seq<int>)
      requires |pixels| <= MAX_LEDS
      ensures payload == [REG_LED_RAM] + PixelBytes(pixels)
    {
      hide PixelBytes;
      var buf := new int[1 + MAX_LEDS * 2](_ => 0);
      buf[0] := REG_LED_RAM;
      NoPixels();
      for i := 0 to |pixels|
        invariant buf[..1 + 2 * i] == [REG_LED_RAM] + PixelBytes(pixels[..i])
      {
        PixelBytesStep(pixels, i);
        ghost var done := buf[..1 + 2 * i];
        var low, high := pixels[i] % 0x100, pixels[i] / 0x100 % 0x100;
        buf[1 + i * 2] := low;
        buf[2 + i * 2] := high;
        assert buf[..1 + 2 * (i + 1)] == done + [low, high];
      }
      assert pixels[..|pixels|] == pixels;
      payload := buf[..1 + 2 * |pixels|];
    }

    method Refresh(latched: bool) returns (r: Result)
      requires Valid()
      modifies this
      ensures Valid() && (regs, r) == Step(old(regs), RefreshLeds(old(budget), latched))
    {
      CountMaskBits(0);
      hide Latch, Or, Shl;
      var ok := SetBitOf(REG_LED_CFG, 6, latched);
      r := if ok then Done else I2c;
    }
  }

  /** A call that stops early has done what the whole call does on the same budget. */
  lemma UnspentConfigure(regs: seq<int>, pin: nat, level: bool, budget: nat)
    requires IsBank(regs) && pin <= PIN_MAX && budget < 4
    ensures Configure(regs, pin, level, budget) == SetBit(regs, PinRegsOf(pin).dir, Shl(1, PinRegsOf(pin).bit), budget)
  {
  }
}
