/** The Feetech servo bus driver (crates/scservo/src/lib.rs): packet framing, and a driver over a
    half-duplex link to an arbitrary peer. */
module Scservo {
  import opened MachineInts
  import opened Options

  type Bytes = seq<U8>

  const BROADCAST_ID: U8 := 0xFE
  const HEADER_BYTE: U8 := 0xFF
  const ADDR_GOAL_POSITION: U8 := 42
  const ADDR_PRESENT_POSITION: U8 := 56
  const POSITION_MAX: U16 := 1023
  const MAX_DATA_BYTES: nat := 6

  const PING: U8 := 0x01
  const READ: U8 := 0x02
  const WRITE: U8 := 0x03

  // ---- Framing ----

  function Sum(s: Bytes): nat {
    if s == [] then 0 else Sum(s[..|s| - 1]) + s[|s| - 1]
  }

  function WrappingAdd(a: U8, b: U8): U8 { (a as int + b as int) % 0x100 }

  /** `!sum` of a wrapping byte sum. */
  function Checksum(s: Bytes): U8 { 0xFF - Sum(s) % 0x100 }

  /** ID, length byte and body: what the checksum covers. The length counts body and checksum. */
  function Covered(id: U8, body: Bytes): Bytes
    requires |body| < 0xFF
  {
    [id, |body| + 1] + body
  }

  function Frame(id: U8, body: Bytes): Bytes
    requires |body| < 0xFF
  {
    [HEADER_BYTE, HEADER_BYTE] + Covered(id, body) + [Checksum(Covered(id, body))]
  }

  function WritePacket(id: U8, memAddr: U8, data: Bytes): Bytes
    requires |data| <= MAX_DATA_BYTES
  {
    Frame(id, [WRITE, memAddr] + data)
  }

  function ReadPacket(id: U8, memAddr: U8, n: nat): Bytes
    requires n <= MAX_DATA_BYTES
  {
    Frame(id, [READ, memAddr, n])
  }

  function PingPacket(id: U8): Bytes { Frame(id, [PING]) }

  /** A reference receiver for one packet. */
  function Parse(b: Bytes): Option<(U8, Bytes)> {
    if |b| >= 5 && b[0] == HEADER_BYTE && b[1] == HEADER_BYTE && b[3] == |b| - 4
       && b[|b| - 1] == Checksum(b[2..|b| - 1])
    then Some((b[2], b[4..|b| - 1])) else None
  }

  /** A frame, part by part. */
  lemma FrameParts(id: U8, body: Bytes)
    requires |body| < 0xFF
    ensures var f := Frame(id, body);
            && |f| == 5 + |body| && f[0] == f[1] == HEADER_BYTE && f[2] == id && f[3] == |body| + 1
            && f[2..|f| - 1] == Covered(id, body) && f[4..|f| - 1] == body
            && f[|f| - 1] == Checksum(Covered(id, body))
  {
    hide Checksum;
    var head: Bytes := [HEADER_BYTE, HEADER_BYTE, id, |body| + 1];
    assert Frame(id, body) == head + body + [Checksum(Covered(id, body))];
  }

  /** A byte string of at least five bytes, part by part. */
  lemma FiveParts(b: Bytes)
    requires |b| >= 5
    ensures b[2..|b| - 1] == [b[2], b[3]] + b[4..|b| - 1]
    ensures b == [b[0], b[1]] + b[2..|b| - 1] + [b[|b| - 1]]
  {
  }

  /** The receiver accepts exactly the frames, and reads back what was framed. */
  lemma ParseIffFrame(b: Bytes, id: U8, body: Bytes)
    requires |body| < 0xFF
    ensures Parse(b) == Some((id, body)) <==> b == Frame(id, body)
  {
    FrameParts(id, body);
    hide Checksum;
    if Parse(b) == Some((id, body)) {
      FiveParts(b);
    }
  }

  lemma {:induction false} SumUpdate(s: Bytes, k: nat, b: U8)
    requires k < |s|
    ensures Sum(s[k := b]) == Sum(s) - s[k] + b
  {
    var n := |s| - 1;
    if k < n {
      SumUpdate(s[..n], k, b);
      assert s[k := b][..n] == s[..n][k := b];
    } else {
      assert s[k := b][..n] == s[..n];
    }
  }

  lemma {:induction false} SumAppend(s: Bytes, t: Bytes)
    ensures Sum(s + t) == Sum(s) + Sum(t)
  {
    if t == [] {
      assert s + t == s;
    } else {
      var n := |t| - 1;
      SumAppend(s, t[..n]);
      assert (s + t)[..|s + t| - 1] == s + t[..n];
    }
  }

  /** The bytes from ID through checksum sum to 0xFF modulo 256. */
  lemma FrameSum(id: U8, body: Bytes)
    requires |body| < 0xFF
    ensures Sum(Frame(id, body)[2..]) % 0x100 == 0xFF
  {
    var c := Covered(id, body);
    assert Frame(id, body)[2..] == c + [Checksum(c)];
    SumAppend(c, [Checksum(c)]);
    assert [Checksum(c)][..0] == [] && Sum([Checksum(c)]) == Checksum(c);
  }

  lemma SameResidue(x: int, y: int)
    requires x % 0x100 == y % 0x100 && -0x100 < x - y < 0x100
    ensures x == y
  {
  }

  /** A changed byte behind the header breaks the sum. */
  lemma ChangedSum(f: Bytes, k: nat, b: U8)
    requires 2 <= k < |f| && b != f[k]
    ensures Sum(f[k := b][2..]) % 0x100 != Sum(f[2..]) % 0x100
  {
    assert f[k := b][2..] == f[2..][k - 2 := b];
    SumUpdate(f[2..], k - 2, b);
    hide Sum;
    var x, y := Sum(f[k := b][2..]), Sum(f[2..]);
    if x % 0x100 == y % 0x100 {
      SameResidue(x, y);
    }
  }

  /** No single changed byte goes unnoticed: header, ID, length, body or checksum. */
  lemma CorruptionDetected(id: U8, body: Bytes, k: nat, b: U8)
    requires |body| < 0xFF && k < |Frame(id, body)| && b != Frame(id, body)[k]
    ensures Parse(Frame(id, body)[k := b]) == None
  {
    FrameParts(id, body);
    hide Sum, Checksum, Covered, Frame;
    var f, g := Frame(id, body), Frame(id, body)[k := b];
    if Parse(g) != None && k >= 2 {
      var gid, gbody := g[2], g[4..|g| - 1];
      ParseIffFrame(g, gid, gbody);
      FrameSum(id, body);
      FrameSum(gid, gbody);
      ChangedSum(f, k, b);
      assert false;
    }
  }

  function BigEndian(word: U16): Bytes { [word / 0x100, word % 0x100] }

  function FromBigEndian(b: Bytes): U16
    requires |b| == 2
  {
    var hi: int, lo: int := b[0], b[1];
    hi * 0x100 + lo
  }

  function PositionData(position: U16, timeMs: U16, speed: U16): Bytes {
    BigEndian(position) + BigEndian(timeMs) + BigEndian(speed)
  }

  /** A receiver recovers ID, address and the three words of every accepted pose command. */
  lemma PositionRoundTrip(id: U8, position: U16, timeMs: U16, speed: U16)
    ensures var parsed := Parse(WritePacket(id, ADDR_GOAL_POSITION, PositionData(position, timeMs, speed)));
            && parsed.Some? && parsed.value.0 == id && |parsed.value.1| == 8
            && parsed.value.1[..2] == [3, 42]
            && FromBigEndian(parsed.value.1[2..4]) == position
            && FromBigEndian(parsed.value.1[4..6]) == timeMs
            && FromBigEndian(parsed.value.1[6..8]) == speed
  {
    var body := [WRITE, ADDR_GOAL_POSITION] + PositionData(position, timeMs, speed);
    ParseIffFrame(Frame(id, body), id, body);
  }

  /** A pose command's data in numbers: three words, high byte first. */
  lemma PositionInNumbers(position: U16, timeMs: U16, speed: U16, hi: U8, lo: U8)
    ensures PositionData(position, timeMs, speed) ==
            [position / 0x100, position % 0x100, timeMs / 0x100, timeMs % 0x100, speed / 0x100, speed % 0x100]
    ensures FromBigEndian([hi, lo]) == 0x100 * hi as int + lo
  {
  }

  // ---- One exchange over a link ----

  datatype Status = Done | PayloadTooLarge | NoResponse | MalformedResponse | ChecksumMismatch
                  | PositionOutOfRange(position: U16) | BroadcastNotAllowed

  datatype Reply = Reply(error: U8, data: Bytes) | Failed(why: Status)

  /** The far end of the wire and the bytes received and not yet read. */
  datatype Link<W> = Link(world: W, rx: Bytes)

  type Peer<!W> = (W, Bytes) -> (W, Bytes)

  function Send<W>(peer: Peer<W>, l: Link<W>, packet: Bytes): Link<W> {
    var (world, reply) := peer(l.world, packet);
    Link(world, l.rx + reply)
  }

  /** The outcome of reading an `n`-byte response from `avail`, check by check. */
  function Verdict(id: U8, n: nat, avail: Bytes): Reply
    requires n <= MAX_DATA_BYTES
  {
    if |avail| < 6 + n then Failed(NoResponse)
    else if avail[0] != HEADER_BYTE || avail[1] != HEADER_BYTE || avail[2] != id || avail[3] != n + 2
      then Failed(MalformedResponse)
    else if avail[5 + n] != Checksum(avail[2..5 + n]) then Failed(ChecksumMismatch)
    else Reply(avail[4], avail[5..5 + n])
  }

  /** A read succeeds with `error` and `data` if and only if the bytes that arrived are exactly the
      frame built from them. */
  lemma VerdictIffFrame(id: U8, n: nat, avail: Bytes, error: U8, data: Bytes)
    requires n <= MAX_DATA_BYTES && |data| < 0xFE
    ensures Verdict(id, n, avail) == Reply(error, data)
       <==> |data| == n && 6 + n <= |avail| && avail[..6 + n] == Frame(id, [error] + data)
  {
    if 6 + n <= |avail| {
      var b := avail[..6 + n];
      SliceOfPrefix(avail, 6 + n, 2, 5 + n);
      SliceOfPrefix(avail, 6 + n, 4, 5 + n);
      assert avail[4..5 + n] == [avail[4]] + avail[5..5 + n];
      if |data| == n {
        ParseIffFrame(b, id, [error] + data);
      }
      assert [error] + data == [avail[4]] + avail[5..5 + n] <==> error == avail[4] && data == avail[5..5 + n] by {
        assert ([error] + data)[1..] == data;
        assert ([avail[4]] + avail[5..5 + n])[1..] == avail[5..5 + n];
      }
    }
  }

  /** Which failure a bad response is: too short; or not opening with the header, the servo's own ID
      and the length asked for; or, opening so, not the frame of what it carries. */
  lemma VerdictCases(id: U8, n: nat, avail: Bytes)
    requires n <= 6
    ensures Verdict(id, n, avail) == Failed(NoResponse) <==> |avail| < 6 + n
    ensures Verdict(id, n, avail) == Failed(MalformedResponse)
       <==> 6 + n <= |avail| && avail[..4] != [0xFF, 0xFF, id, n + 2]
    ensures Verdict(id, n, avail) == Failed(ChecksumMismatch)
       <==> && 6 + n <= |avail| && avail[..4] == [0xFF, 0xFF, id, n + 2]
            && avail[..6 + n] != Frame(id, [avail[4]] + avail[5..5 + n])
  {
    if 6 + n <= |avail| {
      Opening(avail, [0xFF, 0xFF, id, n + 2]);
      VerdictIffFrame(id, n, avail, avail[4], avail[5..5 + n]);
      hide Checksum, Frame;
    }
  }

  lemma Opening(b: Bytes, four: Bytes)
    requires |b| >= 4 && |four| == 4
    ensures b[..4] == four <==> b[0] == four[0] && b[1] == four[1] && b[2] == four[2] && b[3] == four[3]
  {
  }

  /** So no read accepts a response with a single byte changed. */
  lemma CorruptedReplyRejected(id: U8, error: U8, data: Bytes, k: nat, b: U8)
    requires |data| <= MAX_DATA_BYTES && k < 6 + |data| && b != Frame(id, [error] + data)[k]
    ensures Verdict(id, |data|, Frame(id, [error] + data)[k := b]).Failed?
  {
    var g, n := Frame(id, [error] + data)[k := b], |data|;
    CorruptionDetected(id, [error] + data, k, b);
    assert g[2..|g| - 1] == g[2..5 + n];
  }

  lemma VerdictOfPrefix(id: U8, n: nat, avail: Bytes)
    requires n <= MAX_DATA_BYTES && 6 + n <= |avail|
    ensures Verdict(id, n, avail) == Verdict(id, n, avail[..6 + n])
  {
    SliceOfPrefix(avail, 6 + n, 2, 5 + n);
    SliceOfPrefix(avail, 6 + n, 5, 5 + n);
  }

  function Consume<W>(l: Link<W>, n: nat): Link<W> {
    l.(rx := if |l.rx| < n then [] else l.rx[n..])
  }

  function WriteStep<W>(peer: Peer<W>, l: Link<W>, id: U8, memAddr: U8, data: Bytes): (Link<W>, Status) {
    if |data| > MAX_DATA_BYTES then (l, PayloadTooLarge)
    else (Send(peer, l, WritePacket(id, memAddr, data)), Done)
  }

  function DrainStep<W>(l: Link<W>): (Link<W>, Status) {
    (Consume(l, 6), if |l.rx| < 6 then NoResponse else Done)
  }

  function PingStep<W>(peer: Peer<W>, l: Link<W>, id: U8): (Link<W>, Status) {
    if id == BROADCAST_ID then (l, BroadcastNotAllowed) else
      var sent := Send(peer, l, PingPacket(id));
      (Consume(sent, 6), match Verdict(id, 0, sent.rx) case Reply(_, _) => Done case Failed(why) => why)
  }

  function ReadStep<W>(peer: Peer<W>, l: Link<W>, id: U8, memAddr: U8, n: nat): (Link<W>, Reply) {
    if id == BROADCAST_ID then (l, Failed(BroadcastNotAllowed))
    else if n > MAX_DATA_BYTES then (l, Failed(PayloadTooLarge)) else
      var sent := Send(peer, l, ReadPacket(id, memAddr, n));
      (Consume(sent, 6 + n), Verdict(id, n, sent.rx))
  }

  /** What is refused before anything is sent, in numbers: more than six bytes, and a ping or a read
      of the broadcast ID, whatever its size. */
  lemma RefusalsInNumbers<W>(peer: Peer<W>, l: Link<W>, id: U8, memAddr: U8, data: Bytes, n: nat)
    ensures |data| > 6 ==> WriteStep(peer, l, id, memAddr, data) == (l, PayloadTooLarge)
    ensures id == 254 ==> PingStep(peer, l, id) == (l, BroadcastNotAllowed)
    ensures id == 254 ==> ReadStep(peer, l, id, memAddr, n) == (l, Failed(BroadcastNotAllowed))
    ensures id != 254 && n > 6 ==> ReadStep(peer, l, id, memAddr, n) == (l, Failed(PayloadTooLarge))
    ensures |data| <= 6 ==> WriteStep(peer, l, id, memAddr, data).1 == Done
  {
    hide Send, WritePacket;
  }

  // ---- The driver ----

  /** `peer` answers each packet written; a response that never comes, which the caller's timeout
      ends, shows as `NoResponse` with whatever had arrived consumed. */
  class Scservo<W> {
    const peer: Peer<W>
    var world: W
    var rx: Bytes

    function State(): Link<W>
      reads this
    {
      Link(world, rx)
    }

    constructor (peer: Peer<W>, world: W)
      ensures this.peer == peer && State() == Link(world, [])
    {
      this.peer := peer;
      this.world, rx := world, [];
    }

    method WriteAll(packet: Bytes)
      modifies this
      ensures State() == Send(peer, old(State()), packet)
    {
      var (next, reply) := peer(world, packet);
      world, rx := next, rx + reply;
    }

    method ReadExact(n: nat) returns (bytes: Option<Bytes>)
      modifies this`rx
      ensures bytes == if |old(rx)| < n then None else Some(old(rx)[..n])
      ensures State() == Consume(old(State()), n)
    {
      if |rx| < n {
        bytes, rx := None, [];
      } else {
        bytes, rx := Some(rx[..n]), rx[n..];
      }
    }

    method WriteMemory(id: U8, memAddr: U8, data: Bytes) returns (r: Status)
      modifies this
      ensures (State(), r) == WriteStep(peer, old(State()), id, memAddr, data)
    {
      if |data| > MAX_DATA_BYTES {
        return PayloadTooLarge;
      }
      var packet := BuildWrite(id, memAddr, data);
      WriteAll(packet);
      return Done;
    }

    /** The packet of `WriteMemory`, filled in place. */
    static method BuildWrite(id: U8, memAddr: U8, data: Bytes) returns (bytes: Bytes)
      requires |data| <= MAX_DATA_BYTES
      ensures bytes == WritePacket(id, memAddr, data)
    {
      var packet := StageWrite(id, memAddr, data);
      ghost var prefix := packet[..6 + |data|];
      WritePrefix(id, memAddr, data);
      hide Checksum, Sum, WritePacket;
      assert packet[2..6 + |data|] == prefix[2..];
      var sum := RunningSum(packet, 2, 6 + |data|);
      packet[6 + |data|] := 0xFF - sum;
      bytes := packet[..7 + |data|];
      assert bytes == prefix + [0xFF - sum];
    }

    /** The packet buffer with everything but the checksum in place. */
    static method StageWrite(id: U8, memAddr: U8, data: Bytes) returns (packet: array<U8>)
      requires |data| <= MAX_DATA_BYTES
      ensures fresh(packet) && packet.Length == 7 + MAX_DATA_BYTES
      ensures packet[..6 + |data|] == [HEADER_BYTE, HEADER_BYTE, id, |data| + 3, WRITE, memAddr] + data
    {
      packet := new U8[7 + MAX_DATA_BYTES](_ => 0);
      packet[0], packet[1], packet[2], packet[3] := HEADER_BYTE, HEADER_BYTE, id, |data| + 3;
      packet[4], packet[5] := WRITE, memAddr;
      forall i | 0 <= i < |data| {
        packet[6 + i] := data[i];
      }
    }

    method WritePosition(id: U8, position: U16, timeMs: U16, speed: U16) returns (r: Status)
      modifies this
      ensures position > 1023 ==> r == PositionOutOfRange(position) && State() == old(State())
      ensures position <= 1023 ==>
                (State(), r) == WriteStep(peer, old(State()), id, 42, PositionData(position, timeMs, speed))
    {
      if position > POSITION_MAX {
        return PositionOutOfRange(position);
      }
      var data := [position / 0x100, position % 0x100, timeMs / 0x100, timeMs % 0x100, speed / 0x100, speed % 0x100];
      assert data == PositionData(position, timeMs, speed);
      r := WriteMemory(id, ADDR_GOAL_POSITION, data);
    }

    /** Six bytes read and thrown away unparsed. */
    method DrainWriteStatus() returns (r: Status)
      modifies this
      ensures (State(), r) == DrainStep(old(State()))
    {
      var scratch := ReadExact(6);
      r := if scratch.None? then NoResponse else Done;
    }

    method Ping(id: U8) returns (r: Status)
      modifies this
      ensures (State(), r) == PingStep(peer, old(State()), id)
    {
      if id == BROADCAST_ID {
        return BroadcastNotAllowed;
      }
      PingBytes(id);
      WriteAll([HEADER_BYTE, HEADER_BYTE, id, 0x02, PING, 0xFF - WrappingAdd(WrappingAdd(id, 0x02), PING)]);
      hide PingPacket;
      ghost var avail := rx;
      var response := ReadExact(6);
      if response.None? {
        return NoResponse;
      }
      VerdictOfPrefix(id, 0, avail);
      hide Verdict;
      r := CheckPing(id, response.value);
    }

    static method CheckPing(id: U8, b: Bytes) returns (r: Status)
      requires |b| == 6
      ensures r == match Verdict(id, 0, b) case Reply(_, _) => Done case Failed(why) => why
    {
      if b[0] != HEADER_BYTE || b[1] != HEADER_BYTE {
        return MalformedResponse;
      }
      if b[2] != id {
        return MalformedResponse;
      }
      if b[3] != 0x02 {
        return MalformedResponse;
      }
      assert b[2..5] == [b[2], b[3], b[4]];
      SumOfThree(b[2], b[3], b[4]);
      if b[5] != 0xFF - WrappingAdd(WrappingAdd(b[2], b[3]), b[4]) {
        return ChecksumMismatch;
      }
      return Done;
    }

    method ReadMemory(id: U8, memAddr: U8, n: nat) returns (r: Reply)
      modifies this
      ensures (State(), r) == ReadStep(peer, old(State()), id, memAddr, n)
    {
      if id == BROADCAST_ID {
        return Failed(BroadcastNotAllowed);
      }
      if n > MAX_DATA_BYTES {
        return Failed(PayloadTooLarge);
      }
      var sum := WrappingAdd(WrappingAdd(WrappingAdd(WrappingAdd(id, 0x04), READ), memAddr), n);
      ReadBytes(id, memAddr, n);
      WriteAll([HEADER_BYTE, HEADER_BYTE, id, 0x04, READ, memAddr, n, 0xFF - sum]);
      hide ReadPacket;
      ghost var avail := rx;
      var response := ReadExact(6 + n);
      if response.None? {
        return Failed(NoResponse);
      }
      VerdictOfPrefix(id, n, avail);
      hide Verdict;
      r := CheckRead(id, n, response.value);
    }

    static method CheckRead(id: U8, n: nat, response: Bytes) returns (r: Reply)
      requires n <= MAX_DATA_BYTES && |response| == 6 + n
      ensures r == Verdict(id, n, response)
    {
      var b := new U8[6 + n](i requires 0 <= i < 6 + n => response[i]);
      assert b[..] == response;
      if b[0] != HEADER_BYTE || b[1] != HEADER_BYTE {
        return Failed(MalformedResponse);
      }
      if b[2] != id {
        return Failed(MalformedResponse);
      }
      if b[3] != n + 2 {
        return Failed(MalformedResponse);
      }
      var checkSum := RunningSum(b, 2, 5 + n);
      assert b[2..5 + n] == response[2..5 + n] && b[5..5 + n] == response[5..5 + n];
      if b[5 + n] != 0xFF - checkSum {
        return Failed(ChecksumMismatch);
      }
      return Reply(b[4], b[5..5 + n]);
    }

    method ReadPosition(id: U8) returns (r: Option<U16>, why: Status)
      modifies this
      ensures var (l, reply) := ReadStep(peer, old(State()), id, 56, 2);
              && State() == l
              && match reply
                 case Reply(_, data) => |data| == 2 && r == Some(FromBigEndian(data))
                 case Failed(w) => r == None && why == w
    {
      why := Done;
      var reply := ReadMemory(id, ADDR_PRESENT_POSITION, 2);
      match reply
      case Reply(_, data) => r := Some(FromBigEndian(data));
      case Failed(w) => r, why := None, w;
    }

    /** The wrapping checksum loop. */
    static method RunningSum(b: array<U8>, lo: nat, hi: nat) returns (sum: U8)
      requires lo <= hi <= b.Length
      ensures sum == Sum(b[lo..hi]) % 0x100
    {
      sum := 0;
      var i := lo;
      while i < hi
        invariant lo <= i <= hi && sum == Sum(b[lo..i]) % 0x100
      {
        WrapStep(b[lo..i], b[i]);
        assert b[lo..i + 1] == b[lo..i] + [b[i]];
        sum := WrappingAdd(sum, b[i]);
        i := i + 1;
      }
    }
  }

  /** One wrapping addition, on the running sum of any prefix. */
  lemma WrapStep(s: Bytes, b: U8)
    ensures Sum(s + [b]) == Sum(s) + b
    ensures WrappingAdd(Sum(s) % 0x100, b) == Sum(s + [b]) % 0x100
  {
    assert (s + [b])[..|s|] == s;
    WrapOf(Sum(s), b);
  }

  lemma WrapOf(total: nat, b: U8)
    ensures WrappingAdd(total % 0x100, b) == (total + b) % 0x100
  {
    var q, r := total / 0x100, total % 0x100;
    if r + b < 0x100 {
      QuotientUnique(total + b, 0x100, q, r + b);
    } else {
      QuotientUnique(total + b, 0x100, q + 1, r + b - 0x100);
    }
  }

  lemma SumOfThree(a: U8, b: U8, c: U8)
    ensures Sum([a, b, c]) % 0x100 == WrappingAdd(WrappingAdd(a, b), c)
  {
    assert Sum([]) == 0;
    hide WrappingAdd, Sum;
    WrapStep([], a);
    assert [] + [a] == [a];
    WrapStep([a], b);
    assert [a] + [b] == [a, b];
    WrapStep([a, b], c);
    assert [a, b] + [c] == [a, b, c];
  }

  lemma SumOfFive(a: U8, b: U8, c: U8, d: U8, e: U8)
    ensures Sum([a, b, c, d, e]) % 0x100
         == WrappingAdd(WrappingAdd(WrappingAdd(WrappingAdd(a, b), c), d), e)
  {
    hide WrappingAdd, Sum;
    SumOfThree(a, b, c);
    WrapStep([a, b, c], d);
    WrapStep([a, b, c, d], e);
    assert [a, b, c] + [d] == [a, b, c, d] && [a, b, c, d] + [e] == [a, b, c, d, e];
  }

  /** A write packet before its checksum. */
  lemma WritePrefix(id: U8, memAddr: U8, data: Bytes)
    requires |data| <= MAX_DATA_BYTES
    ensures var p: Bytes := [HEADER_BYTE, HEADER_BYTE, id, |data| + 3, WRITE, memAddr] + data;
            WritePacket(id, memAddr, data) == p + [0xFF - Sum(p[2..]) % 0x100]
  {
    var p: Bytes := [HEADER_BYTE, HEADER_BYTE, id, |data| + 3, WRITE, memAddr] + data;
    assert p[2..] == Covered(id, [WRITE, memAddr] + data);
    hide Sum;
    assert p == [HEADER_BYTE, HEADER_BYTE] + p[2..];
  }

  lemma PingBytes(id: U8)
    ensures PingPacket(id)
         == [HEADER_BYTE, HEADER_BYTE, id, 0x02, PING, 0xFF - WrappingAdd(WrappingAdd(id, 0x02), PING)]
  {
    SumOfThree(id, 0x02, PING);
    hide Sum, WrappingAdd;
    assert Covered(id, [PING]) == [id, 0x02, PING];
  }

  lemma ReadBytes(id: U8, memAddr: U8, n: nat)
    requires n <= MAX_DATA_BYTES
    ensures var sum := WrappingAdd(WrappingAdd(WrappingAdd(WrappingAdd(id, 0x04), READ), memAddr), n);
            ReadPacket(id, memAddr, n) == [HEADER_BYTE, HEADER_BYTE, id, 0x04, READ, memAddr, n, 0xFF - sum]
  {
    SumOfFive(id, 0x04, READ, memAddr, n);
    hide Sum, WrappingAdd;
    var body: Bytes := [READ, memAddr, n];
    CoveredThree(id, READ, memAddr, n);
    hide Covered;
    var covered, sum := Covered(id, body), Checksum(Covered(id, body));
    hide Checksum;
    assert Frame(id, body) == [HEADER_BYTE, HEADER_BYTE] + covered + [sum];
  }

  lemma CoveredThree(id: U8, x: U8, y: U8, z: U8)
    ensures Covered(id, [x, y, z]) == [id, 0x04, x, y, z]
  {
  }

  /** The three packets in numbers, checksums included. */
  lemma PingInNumbers(id: U8)
    ensures PingPacket(id) == [0xFF, 0xFF, id, 0x02, 0x01, 0xFF - (id as int + 3) % 0x100]
  {
    PingBytes(id);
    WrapOf(id + 2, 1);
    hide PingPacket;
  }

  lemma ReadInNumbers(id: U8, memAddr: U8, n: nat)
    requires n <= 6
    ensures ReadPacket(id, memAddr, n)
         == [0xFF, 0xFF, id, 0x04, 0x02, memAddr, n, 0xFF - (id as int + 6 + memAddr + n) % 0x100]
  {
    ReadBytes(id, memAddr, n);
    var i: int, m: int := id, memAddr;
    WrapOf(i + 4, READ);
    WrapOf(i + 6, memAddr);
    WrapOf(i + 6 + m, n);
    assert WrappingAdd(id, 0x04) == (i + 4) % 0x100;
    hide ReadPacket, WrappingAdd;
  }

  lemma SumOfFour(a: U8, b: U8, c: U8, d: U8)
    ensures Sum([a, b, c, d]) == a as int + b + c + d
  {
    assert Sum([]) == 0;
    hide Sum, WrappingAdd;
    WrapStep([], a);
    assert [] + [a] == [a];
    WrapStep([a], b);
    assert [a] + [b] == [a, b];
    WrapStep([a, b], c);
    assert [a, b] + [c] == [a, b, c];
    WrapStep([a, b, c], d);
    assert [a, b, c] + [d] == [a, b, c, d];
  }

  lemma WriteInNumbers(id: U8, memAddr: U8, data: Bytes)
    requires |data| <= 6
    ensures var p, n := WritePacket(id, memAddr, data), |data|;
            && |p| == 7 + n && p[0] == 0xFF && p[1] == 0xFF && p[2] == id && p[3] == n + 3 && p[4] == 0x03
            && p[5] == memAddr && p[6..6 + n] == data
            && p[6 + n] == 0xFF - (id as int + n + 6 + memAddr + Sum(data)) % 0x100
  {
    var body: Bytes := [WRITE, memAddr] + data;
    FrameParts(id, body);
    WriteSum(id, memAddr, data);
    hide Sum, Covered, Frame;
    var p, n := WritePacket(id, memAddr, data), |data|;
    assert p[4..6 + n] == body;
    BodyParts(p, memAddr, data);
  }

  lemma BodyParts(p: Bytes, memAddr: U8, data: Bytes)
    requires |p| == 7 + |data| && p[4..6 + |data|] == [WRITE, memAddr] + data
    ensures p[4] == 0x03 && p[5] == memAddr && p[6..6 + |data|] == data
  {
    var b := p[4..6 + |data|];
    assert p[4] == b[0] && p[5] == b[1] && p[6..6 + |data|] == b[2..];
  }

  lemma WriteSum(id: U8, memAddr: U8, data: Bytes)
    requires |data| <= 6
    ensures Sum(Covered(id, [WRITE, memAddr] + data)) == id as int + |data| + 6 + memAddr + Sum(data)
  {
    hide Sum, Covered;
    CoveredWrite(id, |data| + 3, WRITE, memAddr, data);
    SumOfFour(id, |data| + 3, WRITE, memAddr);
    SumAppend([id, |data| + 3, WRITE, memAddr], data);
  }

  lemma CoveredWrite(id: U8, k: U8, x: U8, y: U8, data: Bytes)
    requires |data| <= 6 && k == |data| + 3
    ensures Covered(id, [x, y] + data) == [id, k, x, y] + data
  {
    assert [id, k] + ([x, y] + data) == ([id, k] + [x, y]) + data;
    assert [id, k] + [x, y] == [id, k, x, y];
  }

  lemma SliceOfPrefix(s: Bytes, n: nat, lo: nat, hi: nat)
    requires lo <= hi <= n <= |s|
    ensures s[..n][lo..hi] == s[lo..hi]
  {
  }
}
