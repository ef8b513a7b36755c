/** The BMI270 initialisation (crates/bmi270/src/lib.rs): a configuration blob uploaded in 128-byte
    chunks through an address pair and an auto-incrementing data port, then a status poll, then the
    sensor configuration. The bus may fail at any transaction. */
module Bmi270 {
  import opened MachineInts
  import opened Options

  const CHIP_ID: U8 := 0x24
  const REG_ACC_CONF: U8 := 0x40
  const REG_ACC_RANGE: U8 := 0x41
  const REG_GYR_CONF: U8 := 0x42
  const REG_GYR_RANGE: U8 := 0x43
  const REG_INIT_CTRL: U8 := 0x59
  const REG_INIT_ADDR_0: U8 := 0x5B
  const REG_INIT_ADDR_1: U8 := 0x5C
  const REG_INIT_DATA: U8 := 0x5E
  const REG_PWR_CONF: U8 := 0x7C
  const REG_PWR_CTRL: U8 := 0x7D
  const REG_CMD: U8 := 0x7E
  const CMD_SOFTRESET: U8 := 0xB6
  const BLOB_CHUNK_BYTES: nat := 128
  const BLOB_CHUNK_WORDS: nat := 64
  const INIT_POLL_MAX_ATTEMPTS: nat := 15

  type Bytes = seq<U8>

  /** One I2C write as the chip sees it. */
  datatype Write = Reg(reg: U8, value: U8) | Burst(reg: U8, data: Bytes)

  // ---- What is written ----

  const PROLOGUE: seq<Write> := [Reg(REG_CMD, CMD_SOFTRESET), Reg(REG_PWR_CONF, 0x00), Reg(REG_INIT_CTRL, 0x00)]

  const CONFIGURATION: seq<Write> := [
    Reg(REG_ACC_CONF, 0xA8), Reg(REG_ACC_RANGE, 0x01), Reg(REG_GYR_CONF, 0xE9), Reg(REG_GYR_RANGE, 0x01),
    Reg(REG_PWR_CTRL, 0x0E)]

  function Chunk(blob: Bytes, k: nat): (c: Bytes)
    requires BLOB_CHUNK_BYTES * (k + 1) <= |blob|
    ensures |c| == BLOB_CHUNK_BYTES
  {
    blob[BLOB_CHUNK_BYTES * k..BLOB_CHUNK_BYTES * (k + 1)]
  }

  function ChunkCount(blob: Bytes): nat { |blob| / BLOB_CHUNK_BYTES }

  /** The u16 word offset in front of chunk `k`, with its saturating additions. */
  function WordOffset(k: nat): U16 { Min(BLOB_CHUNK_WORDS * k, U16_MAX) }

  /** The low four bits of the word offset, and the rest cast to a byte. */
  function AddrLow(k: nat): U8 { WordOffset(k) % 16 }

  function AddrHigh(k: nat): U8 { WordOffset(k) / 16 % 0x100 }

  function ChunkWrites(blob: Bytes, k: nat): seq<Write>
    requires BLOB_CHUNK_BYTES * (k + 1) <= |blob|
  {
    Addressed(AddrLow(k), AddrHigh(k), Chunk(blob, k))
  }

  function Addressed(low: U8, high: U8, data: Bytes): seq<Write> {
    [Reg(REG_INIT_ADDR_0, low), Reg(REG_INIT_ADDR_1, high), Burst(REG_INIT_DATA, data)]
  }

  /** The writes of the first `n` chunks. */
  function Upload(blob: Bytes, n: nat): (ws: seq<Write>)
    requires n <= ChunkCount(blob)
    ensures |ws| == 3 * n
  {
    if n == 0 then [] else Upload(blob, n - 1) + ChunkWrites(blob, n - 1)
  }

  /** Everything before the poll. A blob whose length the chunk size does not divide loses its
      tail: the source only asserts divisibility in debug builds. */
  function Script(blob: Bytes): seq<Write> {
    PROLOGUE + Upload(blob, ChunkCount(blob)) + [Reg(REG_INIT_CTRL, 0x01)]
  }

  /** The fixed writes in numbers: soft reset, power save off, upload open; and afterwards the sensor
      configuration, with the power switched on last. */
  lemma WritesInNumbers()
    ensures PROLOGUE == [Reg(0x7E, 0xB6), Reg(0x7C, 0x00), Reg(0x59, 0x00)]
    ensures CONFIGURATION == [Reg(0x40, 0xA8), Reg(0x41, 0x01), Reg(0x42, 0xE9), Reg(0x43, 0x01), Reg(0x7D, 0x0E)]
  {
  }

  /** One identity read, the script, every poll and the configuration. */
  function MaxTransactions(blob: Bytes): nat {
    1 + |Script(blob)| + INIT_POLL_MAX_ATTEMPTS + |CONFIGURATION|
  }

  // ---- The chip ----

  /** Configuration memory by byte address, the two address registers, whether advanced power save is
      on, whether an upload is open, and what the chip was last started with. */
  datatype Chip = Chip(memory: map<int, U8>, addr0: U8, addr1: U8, powerSave: bool, loading: bool,
                       started: Option<map<int, U8>>)

  const RESET: Chip := Chip(map[], 0, 0, true, false, None)

  /** Ready for an upload. */
  predicate Ready(c: Chip) { c.loading && !c.powerSave }

  function ByteFor(data: Bytes, at: nat, a: int): U8
    requires at <= a < at + |data|
  {
    data[a - at]
  }

  function Fill(memory: map<int, U8>, at: nat, data: Bytes): map<int, U8> {
    memory + (map a: int | at <= a < at + |data| :: ByteFor(data, at, a))
  }

  /** The chip's reading of the address pair: four low bits and eight high bits of a word number. */
  function ByteAddress(addr0: U8, addr1: U8): nat { 2 * (addr0 % 16 + 16 * addr1) }

  /** The chip by its own register numbers: a soft reset forgets everything; the data port stores from
      the addressed 16-bit word on, during an upload and out of power save; the end of the upload
      starts the chip with what is stored. */
  function React(c: Chip, w: Write): Chip {
    match w
    case Reg(reg, value) =>
      if reg == 0x7E && value == 0xB6 then RESET
      else if reg == 0x7C then c.(powerSave := value % 2 == 1)
      else if reg == 0x59 && value == 0 then c.(loading := true)
      else if reg == 0x59 && value == 1 && Ready(c) then c.(loading := false, started := Some(c.memory))
      else if reg == 0x5B then c.(addr0 := value)
      else if reg == 0x5C then c.(addr1 := value) else c
    case Burst(reg, data) =>
      if reg == 0x5E && Ready(c) then c.(memory := Fill(c.memory, ByteAddress(c.addr0, c.addr1), data)) else c
  }

  function Replay(c: Chip, ws: seq<Write>): Chip {
    if ws == [] then c else React(Replay(c, ws[..|ws| - 1]), ws[|ws| - 1])
  }

  lemma {:induction false} ReplayAppend(c: Chip, ws: seq<Write>, more: seq<Write>)
    ensures Replay(c, ws + more) == Replay(Replay(c, ws), more)
  {
    if more == [] {
      assert ws + more == ws;
    } else {
      var n := |more| - 1;
      ReplayAppend(c, ws, more[..n]);
      assert (ws + more)[..|ws + more| - 1] == ws + more[..n];
    }
  }

  lemma ReplayOne(c: Chip, w: Write)
    ensures Replay(c, [w]) == React(c, w)
  {
    assert [w][..0] == [];
  }

  lemma ReplayThree(c: Chip, x: Write, y: Write, z: Write)
    ensures Replay(c, [x, y, z]) == React(React(React(c, x), y), z)
  {
    hide React;
    ReplayOne(c, x);
    assert [x, y][..1] == [x] && [x, y, z][..2] == [x, y];
    assert Replay(c, [x, y]) == React(Replay(c, [x]), y);
  }

  lemma ReplayAddressed(c: Chip, low: U8, high: U8, data: Bytes)
    requires Ready(c)
    ensures Ready(Replay(c, Addressed(low, high, data)))
    ensures Replay(c, Addressed(low, high, data)).memory == Fill(c.memory, ByteAddress(low, high), data)
  {
    ReplayThree(c, Reg(REG_INIT_ADDR_0, low), Reg(REG_INIT_ADDR_1, high), Burst(REG_INIT_DATA, data));
    hide Fill, Replay, ByteAddress;
  }

  /** The byte address the chip makes of the two address writes of chunk `k`. */
  function AddressSent(k: nat): nat { ByteAddress(AddrLow(k), AddrHigh(k)) }

  /** Up to 4096 words the split into four and eight bits loses nothing. */
  lemma AddressLossless(k: nat)
    requires k < 64
    ensures AddressSent(k) == BLOB_CHUNK_BYTES * k
  {
    assert WordOffset(k) == 64 * k;
    assert AddrLow(k) == 0;
    assert AddrHigh(k) == 4 * k;
  }

  lemma AddressBound(k: nat)
    ensures AddressSent(k) <= 8190
  {
    hide WordOffset;
  }

  lemma ReplayChunk(c: Chip, blob: Bytes, k: nat)
    requires BLOB_CHUNK_BYTES * (k + 1) <= |blob| && Ready(c)
    ensures Ready(Replay(c, ChunkWrites(blob, k)))
    ensures Replay(c, ChunkWrites(blob, k)).memory == Fill(c.memory, AddressSent(k), Chunk(blob, k))
  {
    ReplayAddressed(c, AddrLow(k), AddrHigh(k), Chunk(blob, k));
    hide Fill, Replay, Chunk, AddrLow, AddrHigh, Addressed, ByteAddress;
  }

  /** `memory` holds `b` from address 0 and nothing else. */
  ghost predicate Holds(memory: map<int, U8>, b: Bytes) {
    && (forall a :: a in memory <==> 0 <= a < |b|)
    && (forall a :: 0 <= a < |b| ==> memory[a] == b[a])
  }

  lemma FillExtends(memory: map<int, U8>, b: Bytes, data: Bytes)
    requires Holds(memory, b)
    ensures Holds(Fill(memory, |b|, data), b + data)
  {
  }

  ghost predicate Below(memory: map<int, U8>, limit: int) { forall a :: a in memory ==> a < limit }

  lemma FillKeys(memory: map<int, U8>, at: nat, data: Bytes, limit: int)
    requires Below(memory, limit) && at + |data| <= limit
    ensures Below(Fill(memory, at, data), limit)
  {
  }

  lemma {:induction false} UploadKeepsReady(c: Chip, blob: Bytes, n: nat)
    requires n <= ChunkCount(blob) && Ready(c)
    ensures Ready(Replay(c, Upload(blob, n)))
    decreases n
  {
    hide Ready, Replay, ChunkWrites, Fill, AddressSent;
    if n == 0 {
      UploadNone(c, blob);
    } else {
      var m: nat := n - 1;
      UploadKeepsReady(c, blob, m);
      ReplayAppend(c, Upload(blob, m), ChunkWrites(blob, m));
      ReplayChunk(Replay(c, Upload(blob, m)), blob, m);
    }
  }

  lemma UploadStep(c: Chip, blob: Bytes, n: nat)
    requires n < ChunkCount(blob) && Ready(c)
    ensures Replay(c, Upload(blob, n + 1)).memory
         == Fill(Replay(c, Upload(blob, n)).memory, AddressSent(n), Chunk(blob, n))
  {
    UploadKeepsReady(c, blob, n);
    ReplayAppend(c, Upload(blob, n), ChunkWrites(blob, n));
    ReplayChunk(Replay(c, Upload(blob, n)), blob, n);
    hide Fill, AddressSent, Replay, ChunkWrites;
  }

  lemma ReassembleStep(c: Chip, blob: Bytes, n: nat)
    requires n < ChunkCount(blob) && n < 64 && Ready(c)
    requires Holds(Replay(c, Upload(blob, n)).memory, blob[..BLOB_CHUNK_BYTES * n])
    ensures Holds(Replay(c, Upload(blob, n + 1)).memory, blob[..BLOB_CHUNK_BYTES * (n + 1)])
  {
    UploadStep(c, blob, n);
    AddressLossless(n);
    hide AddressSent, Replay, Fill, Holds, Upload;
    FillExtends(Replay(c, Upload(blob, n)).memory, blob[..BLOB_CHUNK_BYTES * n], Chunk(blob, n));
    assert blob[..BLOB_CHUNK_BYTES * n] + Chunk(blob, n) == blob[..BLOB_CHUNK_BYTES * (n + 1)];
  }

  lemma UploadNone(c: Chip, blob: Bytes)
    ensures Replay(c, Upload(blob, 0)) == c
  {
  }

  /** Up to 64 chunks the chip's memory is the uploaded part of the blob. */
  lemma {:induction false} UploadReassembles(c: Chip, blob: Bytes, n: nat)
    requires n <= ChunkCount(blob) && n <= 64 && c.memory == map[] && Ready(c)
    ensures Holds(Replay(c, Upload(blob, n)).memory, blob[..BLOB_CHUNK_BYTES * n])
    decreases n
  {
    hide Replay, Upload;
    if n == 0 {
      UploadNone(c, blob);
    } else {
      hide Holds;
      var m: nat := n - 1;
      UploadReassembles(c, blob, m);
      ReassembleStep(c, blob, m);
    }
  }

  lemma LowStep(c: Chip, blob: Bytes, n: nat)
    requires n < ChunkCount(blob) && Ready(c)
    requires Below(Replay(c, Upload(blob, n)).memory, 8318)
    ensures Below(Replay(c, Upload(blob, n + 1)).memory, 8318)
  {
    UploadStep(c, blob, n);
    AddressBound(n);
    hide Replay, AddressSent, Fill, Chunk, Upload, Below;
    FillKeys(Replay(c, Upload(blob, n)).memory, AddressSent(n), Chunk(blob, n), 8318);
  }

  /** Beyond that the addresses wrap: whatever the blob, no cell from 8318 on is ever written. */
  lemma {:induction false} UploadStaysLow(c: Chip, blob: Bytes, n: nat)
    requires n <= ChunkCount(blob) && c.memory == map[] && Ready(c)
    ensures Below(Replay(c, Upload(blob, n)).memory, 8318)
    decreases n
  {
    hide Replay, Upload;
    if n == 0 {
      UploadNone(c, blob);
    } else {
      hide Below;
      var m: nat := n - 1;
      UploadStaysLow(c, blob, m);
      LowStep(c, blob, m);
    }
  }

  /** The prologue resets the chip and opens an upload, whatever its state was. */
  lemma PrologueReadies(c: Chip)
    ensures Replay(c, PROLOGUE) == RESET.(powerSave := false, loading := true)
  {
    ReplayThree(c, PROLOGUE[0], PROLOGUE[1], PROLOGUE[2]);
    assert PROLOGUE == [PROLOGUE[0], PROLOGUE[1], PROLOGUE[2]];
    hide Replay;
  }

  /** The whole script starts the chip with what the upload stored. */
  lemma ScriptStarts(c: Chip, blob: Bytes)
    ensures var ready := RESET.(powerSave := false, loading := true);
            Replay(c, Script(blob)).started == Some(Replay(ready, Upload(blob, ChunkCount(blob))).memory)
  {
    var up, last := Upload(blob, ChunkCount(blob)), [Reg(REG_INIT_CTRL, 0x01)];
    var ready := RESET.(powerSave := false, loading := true);
    PrologueReadies(c);
    ReplayAppend(c, PROLOGUE, up);
    ReplayAppend(c, PROLOGUE + up, last);
    ReplayOne(Replay(c, PROLOGUE + up), last[0]);
    UploadKeepsReady(ready, blob, ChunkCount(blob));
    hide Replay, Upload, Fill, ByteAddress;
  }

  /** Whatever state the chip was in, the script starts it with exactly the blob in memory, if and
      only if the chunk size divides the blob's length and it fits the twelve-bit word address. */
  lemma BlobReassembledIff(c: Chip, blob: Bytes)
    ensures Replay(c, Script(blob)).started.Some?
    ensures Holds(Replay(c, Script(blob)).started.value, blob) <==> |blob| % 128 == 0 && |blob| <= 8192
  {
    ScriptStarts(c, blob);
    var ready := RESET.(powerSave := false, loading := true);
    hide Replay, Upload, Script;
    var n := ChunkCount(blob);
    if n <= 64 {
      UploadReassembles(ready, blob, n);
      if |blob| % 128 == 0 {
        assert blob[..BLOB_CHUNK_BYTES * n] == blob;
      } else {
        assert |blob| - 1 !in Replay(ready, Upload(blob, n)).memory;
      }
    } else {
      UploadStaysLow(ready, blob, n);
      assert |blob| - 1 !in Replay(ready, Upload(blob, n)).memory;
    }
  }

  // ---- The driver ----

  datatype InitResult = Done | I2c | BadChipId(id: U8) | InitTimeout

  /** `budget` is how many more transactions the bus carries out before one fails. */
  class Bmi270 {
    var log: seq<Write>
    var budget: nat

    method WriteRegister(reg: U8, value: U8) returns (ok: bool)
      modifies this
      ensures ok <==> old(budget) > 0
      ensures log == if ok then old(log) + [Reg(reg, value)] else old(log)
      ensures budget == if ok then old(budget) - 1 else 0
    {
      if budget == 0 {
        return false;
      }
      budget, log := budget - 1, log + [Reg(reg, value)];
      return true;
    }

    /** A slice longer than the buffer is dropped with an `Ok`, as in the source. */
    method BurstWrite(reg: U8, data: Bytes) returns (ok: bool)
      modifies this
      ensures |data| > BLOB_CHUNK_BYTES ==> ok && log == old(log) && budget == old(budget)
      ensures |data| <= BLOB_CHUNK_BYTES ==>
                && (ok <==> old(budget) > 0)
                && log == (if ok then old(log) + [Burst(reg, data)] else old(log))
                && budget == if ok then old(budget) - 1 else 0
    {
      var buf := new U8[BLOB_CHUNK_BYTES + 1](_ => 0);
      buf[0] := reg;
      if |data| > BLOB_CHUNK_BYTES {
        return true;
      }
      forall i | 0 <= i < |data| {
        buf[1 + i] := data[i];
      }
      if budget == 0 {
        return false;
      }
      assert buf[1..1 + |data|] == data;
      budget, log := budget - 1, log + [Burst(buf[0], buf[1..1 + |data|])];
      return true;
    }

    method ReadRegister(answer: U8) returns (ok: bool, value: U8)
      modifies this`budget
      ensures value == answer && (ok <==> old(budget) > 0)
      ensures budget == if ok then old(budget) - 1 else 0
    {
      ok, value := budget > 0, answer;
      budget := if budget > 0 then budget - 1 else 0;
    }

    /** `id` is what the chip answers to the identity read, `statuses(k)` to poll `k`. Whatever
        fails and whenever, the chip has received the first `n` writes of script and configuration:
        all of them on success, and none of the configuration without an init-ok poll. Only a bus
        that gives out within the longest possible run makes it report a bus error, so on a sound
        bus it succeeds exactly for the right chip with an init-ok among its polls. */
    method Init(id: U8, blob: Bytes, statuses: nat -> U8) returns (r: InitResult, ghost n: nat)
      modifies this
      ensures n <= |Script(blob)| + |CONFIGURATION|
      ensures log == old(log) + (Script(blob) + CONFIGURATION)[..n]
      ensures r == Done <==> n == |Script(blob)| + |CONFIGURATION|
      ensures n > |Script(blob)| ==> exists k :: 0 <= k < 15 && statuses(k) % 16 == 1
      ensures r == InitTimeout ==> n == |Script(blob)|
      ensures r == InitTimeout ==> forall k :: 0 <= k < 15 ==> statuses(k) % 16 != 1
      ensures r.BadChipId? ==> r.id == id != 0x24 && n == 0
      ensures n > 0 ==> id == 0x24
      ensures r == I2c ==> old(budget) < MaxTransactions(blob)
    {
      var ok, answer := ReadRegister(id);
      n := 0;
      if !ok {
        return I2c, 0;
      }
      if answer != CHIP_ID {
        return BadChipId(answer), 0;
      }
      ghost var script := Script(blob);
      ok, n := SendScript(blob);
      assert (script + CONFIGURATION)[..n] == script[..n];
      if !ok {
        return I2c, n;
      }
      var k := 0;
      while k < INIT_POLL_MAX_ATTEMPTS
        invariant 0 <= k <= INIT_POLL_MAX_ATTEMPTS && log == old(log) + script
        invariant budget == old(budget) - 1 - n - k
        invariant forall j :: 0 <= j < k ==> !InitOk(statuses(j))
      {
        var read, status := ReadRegister(statuses(k));
        if !read {
          return I2c, n;
        }
        if InitOk(status) {
          ghost var m;
          ok, m := SendConfiguration();
          n := n + m;
          assert (script + CONFIGURATION)[..n] == script + CONFIGURATION[..m];
          return if ok then Done else I2c, n;
        }
        k := k + 1;
      }
      r := InitTimeout;
    }

    /** `init` from the soft reset to the start command. */
    method SendScript(blob: Bytes) returns (ok: bool, ghost n: nat)
      modifies this
      ensures n <= |Script(blob)| && log == old(log) + Script(blob)[..n]
      ensures ok <==> n == |Script(blob)|
      ensures budget == old(budget) - n && (!ok ==> budget == 0)
    {
      ghost var script := Script(blob);
      ok, n := SendPrologue();
      assert script[..n] == PROLOGUE[..n];
      if !ok {
        return;
      }
      var wordOffset: U16 := 0;
      var k := 0;
      while k < |blob| / BLOB_CHUNK_BYTES
        invariant 0 <= k <= ChunkCount(blob) && wordOffset == WordOffset(k)
        invariant n == 3 + 3 * k && log == old(log) + script[..n] && budget == old(budget) - n
      {
        ghost var m;
        ok, m := SendChunk(blob, k, wordOffset);
        ScriptPrefix(blob, k, m);
        n := n + m;
        if !ok {
          return;
        }
        wordOffset := Min(wordOffset + BLOB_CHUNK_WORDS, U16_MAX);
        k := k + 1;
      }
      ok := WriteRegister(REG_INIT_CTRL, 0x01);
      if ok {
        n := n + 1;
        assert script[..n] == script[..n - 1] + [Reg(REG_INIT_CTRL, 0x01)];
      }
    }

    method SendPrologue() returns (ok: bool, ghost n: nat)
      modifies this
      ensures n <= 3 && log == old(log) + PROLOGUE[..n] && (ok <==> n == 3)
      ensures budget == old(budget) - n && (!ok ==> budget == 0)
    {
      n := 0;
      ok := WriteRegister(REG_CMD, CMD_SOFTRESET);
      if !ok {
        return;
      }
      n := 1;
      ok := WriteRegister(REG_PWR_CONF, 0x00);
      if !ok {
        return;
      }
      n := 2;
      ok := WriteRegister(REG_INIT_CTRL, 0x00);
      n := if ok then 3 else 2;
    }

    method SendChunk(blob: Bytes, k: nat, wordOffset: U16) returns (ok: bool, ghost n: nat)
      requires BLOB_CHUNK_BYTES * (k + 1) <= |blob| && wordOffset == WordOffset(k)
      modifies this
      ensures n <= 3 && log == old(log) + ChunkWrites(blob, k)[..n] && (ok <==> n == 3)
      ensures budget == old(budget) - n && (!ok ==> budget == 0)
    {
      n := 0;
      ok := WriteRegister(REG_INIT_ADDR_0, wordOffset % 16);
      if !ok {
        return;
      }
      n := 1;
      ok := WriteRegister(REG_INIT_ADDR_1, wordOffset / 16 % 0x100);
      if !ok {
        return;
      }
      n := 2;
      ok := BurstWrite(REG_INIT_DATA, blob[BLOB_CHUNK_BYTES * k..BLOB_CHUNK_BYTES * (k + 1)]);
      n := if ok then 3 else 2;
    }

    method SendConfiguration() returns (ok: bool, ghost n: nat)
      modifies this
      ensures n <= 5 && log == old(log) + CONFIGURATION[..n] && (ok <==> n == 5)
      ensures budget == old(budget) - n && (!ok ==> budget == 0)
    {
      n := 0;
      ok := WriteRegister(REG_ACC_CONF, 0xA8);
      if !ok {
        return;
      }
      n := 1;
      ok := WriteRegister(REG_ACC_RANGE, 0x01);
      if !ok {
        return;
      }
      n := 2;
      ok := WriteRegister(REG_GYR_CONF, 0xE9);
      if !ok {
        return;
      }
      n := 3;
      ok := WriteRegister(REG_GYR_RANGE, 0x01);
      if !ok {
        return;
      }
      n := 4;
      ok := WriteRegister(REG_PWR_CTRL, 0x0E);
      n := if ok then 5 else 4;
    }
  }

  /** The low nibble of the status says init-ok. */
  predicate InitOk(status: U8) { status % 16 == 1 }

  lemma {:induction false} UploadPrefix(blob: Bytes, k: nat, n: nat)
    requires k <= n <= ChunkCount(blob)
    ensures Upload(blob, n)[..3 * k] == Upload(blob, k)
    decreases n
  {
    if k == n {
    } else {
      UploadPrefix(blob, k, n - 1);
    }
  }

  lemma ScriptPrefix(blob: Bytes, k: nat, m: nat)
    requires k < ChunkCount(blob) && m <= 3
    ensures Script(blob)[..3 + 3 * k + m] == Script(blob)[..3 + 3 * k] + ChunkWrites(blob, k)[..m]
  {
    var n := ChunkCount(blob);
    var up, writes := Upload(blob, n), ChunkWrites(blob, k);
    UploadAt(blob, k, n);
    hide Upload, ChunkWrites;
    ScriptAt(PROLOGUE, up, [Reg(REG_INIT_CTRL, 0x01)], 3 * k, m);
    SliceOfSlice(up, 3 * k, 3, m);
  }

  lemma SliceOfSlice(s: seq<Write>, i: nat, n: nat, m: nat)
    requires m <= n && i + n <= |s|
    ensures s[i..i + n][..m] == s[i..i + m]
  {
  }

  lemma UploadAt(blob: Bytes, k: nat, n: nat)
    requires k < n <= ChunkCount(blob)
    ensures |ChunkWrites(blob, k)| == 3 && Upload(blob, n)[3 * k..3 * k + 3] == ChunkWrites(blob, k)
  {
    UploadPrefix(blob, k + 1, n);
    var up, writes := Upload(blob, n), ChunkWrites(blob, k);
    assert up[..3 * (k + 1)] == Upload(blob, k) + writes;
    assert up[3 * k..3 * k + 3] == up[..3 * (k + 1)][3 * k..];
  }

  /** A slice of the middle of three parts. */
  lemma ScriptAt(head: seq<Write>, up: seq<Write>, last: seq<Write>, i: nat, m: nat)
    requires i + m <= |up|
    ensures var s := head + up + last;
            s[..|head| + i + m] == s[..|head| + i] + up[i..i + m]
  {
  }

  /** The chip has been started with the whole blob before the first configuration write, in every
      run of `init`. */
  lemma ConfiguredOnlyWhenLoaded(c: Chip, blob: Bytes, n: nat)
    requires |blob| % 128 == 0 && |blob| <= 8192
    requires |Script(blob)| <= n <= |Script(blob)| + |CONFIGURATION|
    ensures var chip := Replay(c, (Script(blob) + CONFIGURATION)[..n]);
            chip.started.Some? && Holds(chip.started.value, blob)
    decreases n
  {
    var all, script := Script(blob) + CONFIGURATION, Script(blob);
    if n == |script| {
      assert all[..n] == script;
      BlobReassembledIff(c, blob);
    } else {
      ConfiguredOnlyWhenLoaded(c, blob, n - 1);
      assert all[..n][..n - 1] == all[..n - 1];
      ConfigurationKeepsStart(Replay(c, all[..n - 1]), n - 1 - |script|);
      assert all[..n][n - 1] == CONFIGURATION[n - 1 - |script|];
      hide React, Script, Holds;
    }
  }

  lemma ConfigurationKeepsStart(c: Chip, k: nat)
    requires k < |CONFIGURATION|
    ensures React(c, CONFIGURATION[k]).started == c.started
  {
  }
}
