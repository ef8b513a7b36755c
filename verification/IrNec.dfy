/** The NEC infrared codec (crates/ir-nec/src/lib.rs): an encoder, and a decoder that tolerates
    jitter. */
module IrNec {
  import opened Bits
  import opened MachineInts
  import opened Options

  datatype Pulse = Pulse(level: bool, durationUs: U32)

  datatype NecCommand = NecCommand(address: U16, command: U8)

  const TOLERANCE_US: U32 := 200
  const PREAMBLE_MARK_US: U32 := 9000
  const PREAMBLE_SPACE_US: U32 := 4500
  const BIT_MARK_US: U32 := 560
  const BIT_ZERO_SPACE_US: U32 := 560
  const BIT_ONE_SPACE_US: U32 := 1690
  const DATA_BITS: nat := 32
  const FRAME_PULSES: nat := 67

  // ---- The frame ----

  function IsClose(actual: U32, expected: U32): bool {
    Max(expected - TOLERANCE_US, 0) <= actual <= Min(expected + TOLERANCE_US, U32_MAX)
  }

  /** Address low byte first, then the command and its complement. */
  function WireBytes(c: NecCommand): (b: seq<U8>)
    ensures |b| == 4
  {
    [c.address % 0x100, c.address / 0x100, c.command, 0xFF - c.command]
  }

  /** The eight bits of a byte, lowest first. */
  function ByteBits(v: U8): (f: seq<bool>)
    ensures |f| == 8 && forall i :: 0 <= i < 8 ==> f[i] == (Shr(v, i) % 2 != 0)
  {
    seq(8, i requires 0 <= i < 8 => Shr(v, i) % 2 != 0)
  }

  /** The 32 data bits in wire order. */
  function WireBits(c: NecCommand): (f: seq<bool>)
    ensures |f| == DATA_BITS
  {
    var b := WireBytes(c);
    ByteBits(b[0]) + ByteBits(b[1]) + ByteBits(b[2]) + ByteBits(b[3])
  }

  lemma WireBitAt(c: NecCommand, j: nat, i: nat)
    requires j < 4 && i < 8
    ensures WireBits(c)[8 * j + i] == (Shr(WireBytes(c)[j], i) % 2 != 0)
  {
    hide Shr;
    assert j == 0 || j == 1 || j == 2 || j == 3;
  }

  function FramePulse(c: NecCommand, i: nat): Pulse
    requires i < FRAME_PULSES
  {
    if i == 0 then Pulse(true, PREAMBLE_MARK_US)
    else if i == 1 then Pulse(false, PREAMBLE_SPACE_US)
    else if i % 2 == 0 then Pulse(true, BIT_MARK_US)
    else Pulse(false, if WireBits(c)[(i - 3) / 2] then BIT_ONE_SPACE_US else BIT_ZERO_SPACE_US)
  }

  function Encoded(c: NecCommand): (pulses: seq<Pulse>)
    ensures |pulses| == FRAME_PULSES
  {
    seq(FRAME_PULSES, i requires 0 <= i < FRAME_PULSES => FramePulse(c, i))
  }

  /** The source's encoder: bytes, then bits, filling an array by a running index. */
  method Encode(c: NecCommand) returns (pulses: array<Pulse>)
    ensures fresh(pulses) && pulses[..] == Encoded(c)
  {
    FrameEnds(c);
    hide FramePulse, Shr;
    var bytes := WireBytes(c);
    hide WireBytes;
    pulses := new Pulse[FRAME_PULSES](_ => Pulse(false, 0));
    pulses[0] := Pulse(true, PREAMBLE_MARK_US);
    pulses[1] := Pulse(false, PREAMBLE_SPACE_US);
    var i := 2;
    for b := 0 to 4
      invariant i == 2 + 16 * b
      invariant forall j :: 0 <= j < i ==> pulses[j] == FramePulse(c, j)
    {
      for bit := 0 to 8
        invariant i == 2 + 16 * b + 2 * bit
        invariant forall j :: 0 <= j < i ==> pulses[j] == FramePulse(c, j)
      {
        PulsesOfBit(c, b, bit);
        pulses[i] := Pulse(true, BIT_MARK_US);
        var one := Shr(bytes[b], bit) % 2 != 0;
        pulses[i + 1] := Pulse(false, if one then BIT_ONE_SPACE_US else BIT_ZERO_SPACE_US);
        i := i + 2;
      }
    }
    pulses[i] := Pulse(true, BIT_MARK_US);
  }

  lemma FrameEnds(c: NecCommand)
    ensures FramePulse(c, 0) == Pulse(true, PREAMBLE_MARK_US) && FramePulse(c, 1) == Pulse(false, PREAMBLE_SPACE_US)
    ensures FramePulse(c, FRAME_PULSES - 1) == Pulse(true, BIT_MARK_US)
  {
  }

  /** The two pulses of bit `bit` of byte `b`. */
  lemma PulsesOfBit(c: NecCommand, b: nat, bit: nat)
    requires b < 4 && bit < 8
    ensures var i, one := 2 + 16 * b + 2 * bit, Shr(WireBytes(c)[b], bit) % 2 != 0;
            && FramePulse(c, i) == Pulse(true, BIT_MARK_US)
            && FramePulse(c, i + 1) == Pulse(false, if one then BIT_ONE_SPACE_US else BIT_ZERO_SPACE_US)
  {
    hide FramePulse, Shr, WireBits, WireBytes;
    var k := 8 * b + bit;
    WireBitAt(c, b, bit);
    BitPulses(c, k);
    assert 2 + 2 * k == 2 + 16 * b + 2 * bit;
  }

  /** The mark and the space of data bit `k`. */
  lemma BitPulses(c: NecCommand, k: nat)
    requires k < DATA_BITS
    ensures FramePulse(c, 2 + 2 * k) == Pulse(true, BIT_MARK_US)
    ensures FramePulse(c, 3 + 2 * k) == Pulse(false, if WireBits(c)[k] then BIT_ONE_SPACE_US else BIT_ZERO_SPACE_US)
  {
    hide WireBits;
    assert (2 + 2 * k) % 2 == 0 && (3 + 2 * k) % 2 == 1 && (3 + 2 * k - 3) / 2 == k;
  }

  /** The frame in numbers: a 9000 us mark and a 4500 us space, 32 bits of a 560 us mark and a 560 us
      or 1690 us space, and a 560 us stop mark. */
  lemma FrameInNumbers(c: NecCommand, k: nat)
    requires k < 32
    ensures |Encoded(c)| == 67
    ensures Encoded(c)[0] == Pulse(true, 9000) && Encoded(c)[1] == Pulse(false, 4500)
    ensures Encoded(c)[2 + 2 * k] == Pulse(true, 560)
    ensures Encoded(c)[3 + 2 * k] == Pulse(false, if WireBits(c)[k] then 1690 else 560)
    ensures Encoded(c)[66] == Pulse(true, 560)
  {
    FrameEnds(c);
    BitPulses(c, k);
    hide FramePulse, WireBits;
  }

  // ---- Matching ----

  /** Within 200 microseconds, either way. */
  predicate Near(a: int, b: int) { -200 <= a - b <= 200 }

  ghost predicate PulseMatches(pulses: seq<Pulse>, c: NecCommand, i: nat)
    requires i < FRAME_PULSES <= |pulses|
  {
    pulses[i].level == Encoded(c)[i].level && Near(pulses[i].durationUs, Encoded(c)[i].durationUs)
  }

  /** The first 66 pulses are those of `c`, in level and, within the tolerance, in duration. The
      stop mark and whatever follows do not matter. */
  ghost predicate Matches(pulses: seq<Pulse>, c: NecCommand)
    requires FRAME_PULSES <= |pulses|
  {
    forall i :: 0 <= i < FRAME_PULSES - 1 ==> PulseMatches(pulses, c, i)
  }

  ghost predicate PreambleOk(pulses: seq<Pulse>)
    requires FRAME_PULSES <= |pulses|
  {
    && pulses[0].level && Near(pulses[0].durationUs, PREAMBLE_MARK_US)
    && !pulses[1].level && Near(pulses[1].durationUs, PREAMBLE_SPACE_US)
  }

  /** The mark and space of data bit `k` read as `bit`. */
  ghost predicate BitRead(pulses: seq<Pulse>, k: nat, bit: bool)
    requires FRAME_PULSES <= |pulses| && k < DATA_BITS
  {
    && pulses[2 + 2 * k].level && Near(pulses[2 + 2 * k].durationUs, BIT_MARK_US)
    && !pulses[3 + 2 * k].level
    && Near(pulses[3 + 2 * k].durationUs, if bit then BIT_ONE_SPACE_US else BIT_ZERO_SPACE_US)
  }

  ghost predicate Unreadable(pulses: seq<Pulse>, k: nat)
    requires FRAME_PULSES <= |pulses| && k < DATA_BITS
  {
    !BitRead(pulses, k, false) && !BitRead(pulses, k, true)
  }

  lemma BitMatches(pulses: seq<Pulse>, c: NecCommand, k: nat)
    requires FRAME_PULSES <= |pulses| && k < DATA_BITS
    ensures BitRead(pulses, k, WireBits(c)[k])
       <==> PulseMatches(pulses, c, 2 + 2 * k) && PulseMatches(pulses, c, 3 + 2 * k)
  {
    BitPulses(c, k);
    hide WireBits, FramePulse;
    assert Encoded(c)[2 + 2 * k] == FramePulse(c, 2 + 2 * k);
    assert Encoded(c)[3 + 2 * k] == FramePulse(c, 3 + 2 * k);
  }

  lemma PreambleMatches(pulses: seq<Pulse>, c: NecCommand)
    requires FRAME_PULSES <= |pulses|
    ensures PreambleOk(pulses) <==> PulseMatches(pulses, c, 0) && PulseMatches(pulses, c, 1)
  {
    hide WireBits;
    assert Encoded(c)[0] == FramePulse(c, 0) && Encoded(c)[1] == FramePulse(c, 1);
  }

  ghost predicate BitsMatch(pulses: seq<Pulse>, c: NecCommand)
    requires FRAME_PULSES <= |pulses|
  {
    forall k :: 0 <= k < DATA_BITS ==> BitRead(pulses, k, WireBits(c)[k])
  }

  lemma MatchesByBits(pulses: seq<Pulse>, c: NecCommand)
    requires FRAME_PULSES <= |pulses|
    ensures Matches(pulses, c) <==> PreambleOk(pulses) && BitsMatch(pulses, c)
  {
    PreambleMatches(pulses, c);
    hide PreambleOk, BitRead, PulseMatches, WireBits;
    if Matches(pulses, c) {
      forall k | 0 <= k < DATA_BITS ensures BitRead(pulses, k, WireBits(c)[k]) {
        BitMatches(pulses, c, k);
      }
    }
    if PreambleOk(pulses) && BitsMatch(pulses, c) {
      forall i | 0 <= i < FRAME_PULSES - 1 ensures PulseMatches(pulses, c, i) {
        if i >= 2 {
          var k := (i - 2) / 2;
          BitMatches(pulses, c, k);
          assert BitRead(pulses, k, WireBits(c)[k]) && (i == 2 + 2 * k || i == 3 + 2 * k);
        }
      }
    }
  }

  /** A recording whose bits read as `f` matches exactly the commands whose wire bits are `f`. */
  lemma MatchesIffSpelled(pulses: seq<Pulse>, f: seq<bool>, c: NecCommand)
    requires FRAME_PULSES <= |pulses| && |f| == DATA_BITS && PreambleOk(pulses)
    requires forall k :: 0 <= k < DATA_BITS ==> BitRead(pulses, k, f[k])
    ensures Matches(pulses, c) <==> f == WireBits(c)
  {
    MatchesByBits(pulses, c);
    hide Matches, PreambleOk, WireBits;
    forall k | 0 <= k < DATA_BITS ensures BitRead(pulses, k, WireBits(c)[k]) <==> f[k] == WireBits(c)[k] {
      assert BitRead(pulses, k, f[k]);
    }
  }

  // ---- The received word ----

  lemma ByteValue(v: U8)
    ensures Value(ByteBits(v)) == v
  {
    Shl8(1);
    forall i | 0 <= i < 8 ensures BitOf(ByteBits(v)[i]) == Shr(v, i) % 2 {
    }
    BitsOfValue(v, ByteBits(v));
  }

  lemma PrependByte(v: U8, f: seq<bool>)
    ensures Value(ByteBits(v) + f) == v + 0x100 * Value(f)
  {
    ByteValue(v);
    ValueSplit(ByteBits(v), f);
    Shl8(Value(f));
  }

  /** The wire bits of a command, read as one word. */
  function Word(c: NecCommand): nat {
    var address: int, command: int := c.address, c.command;
    address + 0x1_0000 * command + 0x100_0000 * (0xFF - command)
  }

  lemma WordOfWireBits(c: NecCommand)
    ensures Value(WireBits(c)) == Word(c)
  {
    var b := WireBytes(c);
    var f3 := ByteBits(b[3]);
    ByteValue(b[3]);
    PrependByte(b[2], f3);
    PrependByte(b[1], ByteBits(b[2]) + f3);
    PrependByte(b[0], ByteBits(b[1]) + (ByteBits(b[2]) + f3));
    assert WireBits(c) == ByteBits(b[0]) + (ByteBits(b[1]) + (ByteBits(b[2]) + f3));
  }

  lemma SpelledByWord(f: seq<bool>, c: NecCommand)
    requires |f| == DATA_BITS
    ensures f == WireBits(c) <==> Value(f) == Word(c)
  {
    WordOfWireBits(c);
    if Value(f) == Word(c) {
      ValueInjective(f, WireBits(c));
    }
  }

  // ---- Decoding ----

  /** Some command if and only if the slice is long enough and matches it. */
  method Decode(pulses: seq<Pulse>) returns (r: Option<NecCommand>)
    ensures |pulses| < FRAME_PULSES ==> r == None
    ensures FRAME_PULSES <= |pulses| ==> forall c :: r == Some(c) <==> Matches(pulses, c)
  {
    if |pulses| < FRAME_PULSES {
      return None;
    }
    forall c: NecCommand
      ensures Matches(pulses, c)
         <==> PreambleOk(pulses) && BitsMatch(pulses, c)
    {
      MatchesByBits(pulses, c);
    }
    hide Matches, BitRead, WireBits;
    if !pulses[0].level || !IsClose(pulses[0].durationUs, PREAMBLE_MARK_US) {
      return None;
    }
    if pulses[1].level || !IsClose(pulses[1].durationUs, PREAMBLE_SPACE_US) {
      return None;
    }
    var bits, f, stuck := ReadBits(pulses);
    if bits.None? {
      forall c: NecCommand ensures !Matches(pulses, c) {
        assert Unreadable(pulses, stuck) && !BitRead(pulses, stuck, WireBits(c)[stuck]);
      }
      return None;
    }
    ValueBound(f);
    r := Unpack(bits.value);
    forall c: NecCommand ensures Matches(pulses, c) <==> bits.value == Word(c) {
      MatchesIffSpelled(pulses, f, c);
      SpelledByWord(f, c);
    }
  }

  /** The data loop of `decode`: all 32 bits in reception order, or none when one is unreadable. */
  method ReadBits(pulses: seq<Pulse>) returns (word: Option<nat>, ghost f: seq<bool>, ghost stuck: nat)
    requires FRAME_PULSES <= |pulses|
    ensures word.None? ==> stuck < DATA_BITS && Unreadable(pulses, stuck)
    ensures word.Some? ==> |f| == DATA_BITS && word.value == Value(f)
    ensures word.Some? ==> forall k :: 0 <= k < DATA_BITS ==> BitRead(pulses, k, f[k])
  {
    var bits: nat := 0;
    f, stuck := [], 0;
    for bitIndex := 0 to DATA_BITS
      invariant |f| == bitIndex && bits == Value(f)
      invariant forall k :: 0 <= k < bitIndex ==> BitRead(pulses, k, f[k])
    {
      var bit := ReadBit(pulses[2 + bitIndex * 2], pulses[2 + bitIndex * 2 + 1]);
      if bit.None? {
        return None, f, bitIndex;
      }
      OrAppends(f, bit.value == 1);
      bits := Or(bits, Shl(bit.value, bitIndex));
      f := f + [bit.value == 1];
    }
    word := Some(bits);
  }

  /** The body of the data loop: the bit that one mark and space stand for, if any. */
  function ReadBit(mark: Pulse, space: Pulse): (r: Option<nat>)
    ensures r.Some? ==> r.value == 0 || r.value == 1
  {
    if !mark.level || !IsClose(mark.durationUs, BIT_MARK_US) then None
    else if space.level then None
    else if IsClose(space.durationUs, BIT_ZERO_SPACE_US) then Some(0)
    else if IsClose(space.durationUs, BIT_ONE_SPACE_US) then Some(1)
    else None
  }

  lemma Halves(bits: nat)
    requires bits < 0x1_0000_0000
    ensures bits % 0x100 + bits / 0x100 % 0x100 * 0x100 == bits % 0x1_0000
    ensures bits / 0x100_0000 == bits / 0x1_0000 / 0x100 < 0x100
  {
    var q, r := bits / 0x1_0000, bits % 0x1_0000;
    QuotientUnique(bits, 0x100, 0x100 * q + r / 0x100, r % 0x100);
    QuotientUnique(0x100 * q + r / 0x100, 0x100, q, r / 0x100);
    QuotientUnique(bits, 0x100_0000, q / 0x100, q % 0x100 * 0x1_0000 + r);
  }

  /** A 32-bit word is the word of `c` if and only if its bytes are those of `c`. */
  lemma WordByBytes(bits: nat, c: NecCommand)
    requires bits < 0x1_0000_0000
    ensures bits == Word(c) <==>
            && c.address == bits % 0x100 + bits / 0x100 % 0x100 * 0x100
            && c.command == bits / 0x1_0000 % 0x100
            && bits / 0x1_0000 % 0x100 + bits / 0x100_0000 % 0x100 == 0xFF
  {
    Halves(bits);
    HalvesOfWord(bits / 0x1_0000, bits % 0x1_0000, c);
  }

  lemma HalvesOfWord(high: nat, low: U16, c: NecCommand)
    requires high < 0x1_0000
    ensures 0x1_0000 * high + low == Word(c)
       <==> c.address == low && c.command == high % 0x100 && high % 0x100 + high / 0x100 == 0xFF
  {
    var command: int := c.command;
    assert Word(c) == 0x1_0000 * (command + 0x100 * (0xFF - command)) + c.address;
  }

  lemma ComplementCheck(a: U8, b: U8)
    ensures Xor(a, b) == 0xFF <==> a + b == 0xFF
  {
    Shl8(1);
    XorComplement(a, b, 8);
    hide Xor, Shl;
  }

  lemma JoinBytes(low: U8, high: U8)
    ensures Or(low, Shl(high, 8)) == low + high * 0x100 < 0x1_0000
  {
    Shl8(1);
    Shl8(high);
    OrDisjoint(low, high, 8);
    hide Or, Shl;
  }

  /** The tail of `decode`: split the word into bytes and check the command against its inverse.
      Every 32-bit word is the word of at most one command, and that is the one returned. */
  method Unpack(bits: nat) returns (r: Option<NecCommand>)
    requires bits < Shl(1, DATA_BITS)
    ensures forall c :: r == Some(c) <==> bits == Word(c)
  {
    hide Xor, Or, Shl, Shr, Word;
    Shl32();
    ShiftsByBytes(bits);
    var addrLow, addrHigh := bits % 0x100, Shr(bits, 8) % 0x100;
    var command, commandInv := Shr(bits, 16) % 0x100, Shr(bits, 24) % 0x100;
    ComplementCheck(command, commandInv);
    JoinBytes(addrLow, addrHigh);
    forall c: NecCommand ensures bits == Word(c) <==>
        && c.address == addrLow + addrHigh * 0x100 && c.command == command && command + commandInv == 0xFF {
      WordByBytes(bits, c);
    }
    if Xor(command, commandInv) != 0xFF {
      return None;
    }
    r := Some(NecCommand(Or(addrLow, Shl(addrHigh, 8)), command));
  }

  // ---- What follows ----

  /** No two commands match one recording: decoding is unambiguous under any jitter. */
  lemma MatchUnique(pulses: seq<Pulse>, c: NecCommand, d: NecCommand)
    requires FRAME_PULSES <= |pulses| && Matches(pulses, c) && Matches(pulses, d)
    ensures c == d
  {
    MatchesByBits(pulses, c);
    MatchesIffSpelled(pulses, WireBits(c), d);
    WordOfWireBits(c);
    WordOfWireBits(d);
    WordInjective(c, d);
  }

  lemma WordInjective(c: NecCommand, d: NecCommand)
    requires Word(c) == Word(d)
    ensures c == d
  {
  }

  /** What was encoded is decoded. */
  method RoundTrip(c: NecCommand) returns (r: Option<NecCommand>)
    ensures r == Some(c)
  {
    var frame := Encode(c);
    r := Decode(frame[..]);
    assert Matches(frame[..], c);
  }
}
