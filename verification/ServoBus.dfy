/** The servo bus as a whole: the driver of `Scservo` against servos that parse each packet and
    answer each command addressed to them with one correct frame. Over any sequence of commands the
    packets, checksums and queue add up to plain access to the servos' memories. */
module ServoBus {
  import opened MachineInts
  import opened Options
  import opened Scservo

  /** Memory cells never written read as zero. */
  datatype Servo = Servo(memory: map<int, U8>, fault: U8)

  type Servos = map<int, Servo>

  function Load(memory: map<int, U8>, at: nat, n: nat): (b: Bytes)
    ensures |b| == n
    decreases n
  {
    if n == 0 then [] else [if at in memory then memory[at] else 0] + Load(memory, at + 1, n - 1)
  }

  function Store(memory: map<int, U8>, at: nat, data: Bytes): map<int, U8>
    decreases |data|
  {
    if data == [] then memory else Store(memory[at := data[0]], at + 1, data[1..])
  }

  lemma {:induction false} StoreElsewhere(memory: map<int, U8>, at: nat, data: Bytes, a: nat)
    requires a < at || at + |data| <= a
    ensures a in Store(memory, at, data) <==> a in memory
    ensures a in memory ==> Store(memory, at, data)[a] == memory[a]
    decreases |data|
  {
    if data == [] {
    } else {
      StoreElsewhere(memory[at := data[0]], at + 1, data[1..], a);
    }
  }

  /** What was stored is what is loaded. */
  lemma {:induction false} LoadAfterStore(memory: map<int, U8>, at: nat, data: Bytes)
    ensures Load(Store(memory, at, data), at, |data|) == data
    decreases |data|
  {
    if data == [] {
    } else {
      var next := memory[at := data[0]];
      LoadAfterStore(next, at + 1, data[1..]);
      StoreElsewhere(next, at + 1, data[1..], at);
    }
  }

  /** One servo's reaction to a command body: its next state and the body of its answer. */
  function React(s: Servo, body: Bytes): (Servo, Option<Bytes>) {
    if body == [PING] then (s, Some([s.fault]))
    else if |body| == 3 && body[0] == READ && body[2] <= 0xF0
      then (s, Some([s.fault] + Load(s.memory, body[1], body[2])))
    else if |body| >= 2 && body[0] == WRITE
      then (s.(memory := Store(s.memory, body[1], body[2..])), Some([s.fault]))
    else (s, None)
  }

  lemma ReactPing(s: Servo)
    ensures React(s, [PING]) == (s, Some([s.fault] + []))
  {
    assert [s.fault] + [] == [s.fault];
  }

  lemma ReactRead(s: Servo, memAddr: U8, n: nat)
    requires n <= MAX_DATA_BYTES
    ensures React(s, [READ, memAddr, n]) == (s, Some([s.fault] + Load(s.memory, memAddr, n)))
  {
    hide Load;
  }

  lemma ReactWrite(s: Servo, memAddr: U8, data: Bytes)
    ensures React(s, [WRITE, memAddr] + data)
         == (s.(memory := Store(s.memory, memAddr, data)), Some([s.fault] + []))
  {
    hide Store, Load;
    var body: Bytes := [WRITE, memAddr] + data;
    assert body[0] == WRITE && body[1] == memAddr && body[2..] == data;
    assert [s.fault] + [] == [s.fault];
  }

  function ReactAll(w: Servos, body: Bytes): Servos { map k | k in w :: React(w[k], body).0 }

  function StoreAll(w: Servos, at: nat, data: Bytes): Servos {
    map k | k in w :: w[k].(memory := Store(w[k].memory, at, data))
  }

  lemma BroadcastWrite(w: Servos, memAddr: U8, data: Bytes)
    ensures ReactAll(w, [WRITE, memAddr] + data) == StoreAll(w, memAddr, data)
  {
    var body: Bytes := [WRITE, memAddr] + data;
    assert body[2..] == data;
    forall k | k in w ensures ReactAll(w, body)[k] == StoreAll(w, memAddr, data)[k] {
    }
  }

  /** The servos as a peer. Every servo acts on a broadcast and none answers it. */
  function Respond(w: Servos, packet: Bytes): (Servos, Bytes) {
    match Parse(packet)
    case None => (w, [])
    case Some((id, body)) =>
      if id == BROADCAST_ID then (ReactAll(w, body), [])
      else if id !in w then (w, [])
      else
        var (s, answer) := React(w[id], body);
        (w[id := s], if answer.Some? && |answer.value| < 0xFF then Frame(id, answer.value) else [])
  }

  datatype Command = PingServo(id: U8) | ReadServo(id: U8, memAddr: U8, n: nat)
                   | WriteAndDrain(id: U8, memAddr: U8, data: Bytes)

  datatype Outcome = Acked(status: Status) | Read(reply: Reply)

  /** What the driver does for a command, packets and all. */
  function Execute(l: Link<Servos>, c: Command): (Link<Servos>, Outcome) {
    match c
    case PingServo(id) => var (l', r) := PingStep(Respond, l, id); (l', Acked(r))
    case ReadServo(id, memAddr, n) => var (l', r) := ReadStep(Respond, l, id, memAddr, n); (l', Read(r))
    case WriteAndDrain(id, memAddr, data) =>
      var (sent, r) := WriteStep(Respond, l, id, memAddr, data);
      if r != Done then (sent, Acked(r)) else var (l', d) := DrainStep(sent); (l', Acked(d))
  }

  /** What the command means: direct access to the addressed memories. */
  function Direct(w: Servos, c: Command): (Servos, Outcome) {
    match c
    case PingServo(id) =>
      (w, Acked(if id == BROADCAST_ID then BroadcastNotAllowed else if id in w then Done else NoResponse))
    case ReadServo(id, memAddr, n) =>
      (w, Read(if id == BROADCAST_ID then Failed(BroadcastNotAllowed)
               else if n > MAX_DATA_BYTES then Failed(PayloadTooLarge)
               else if id in w then Reply(w[id].fault, Load(w[id].memory, memAddr, n))
               else Failed(NoResponse)))
    case WriteAndDrain(id, memAddr, data) =>
      if |data| > MAX_DATA_BYTES then (w, Acked(PayloadTooLarge))
      else if id == BROADCAST_ID then
        (StoreAll(w, memAddr, data), Acked(NoResponse))
      else if id in w then
        (w[id := w[id].(memory := Store(w[id].memory, memAddr, data))], Acked(Done))
      else (w, Acked(NoResponse))
  }

  lemma RespondToFrame(w: Servos, id: U8, body: Bytes)
    requires |body| < 0xFF
    ensures Respond(w, Frame(id, body)) ==
            if id == BROADCAST_ID then (ReactAll(w, body), [])
            else if id !in w then (w, [])
            else var (s, answer) := React(w[id], body);
                 (w[id := s], if answer.Some? && |answer.value| < 0xFF then Frame(id, answer.value) else [])
  {
    ParseIffFrame(Frame(id, body), id, body);
  }

  lemma FrameVerdict(id: U8, error: U8, data: Bytes)
    requires |data| <= MAX_DATA_BYTES
    ensures |Frame(id, [error] + data)| == 6 + |data|
    ensures Verdict(id, |data|, Frame(id, [error] + data)) == Reply(error, data)
  {
    var f := Frame(id, [error] + data);
    assert f[..6 + |data|] == f;
    VerdictIffFrame(id, |data|, f, error, data);
  }

  /** A command that a present servo answers: its state moves on, its answer passes every check of
      the driver, and reading the answer empties the queue. */
  lemma Answered(w: Servos, id: U8, body: Bytes, error: U8, data: Bytes)
    requires id in w && id != BROADCAST_ID && |body| < 0xFF && |data| <= MAX_DATA_BYTES
    requires React(w[id], body).1 == Some([error] + data)
    ensures var sent := Send(Respond, Link(w, []), Frame(id, body));
            && sent == Link(w[id := React(w[id], body).0], Frame(id, [error] + data))
            && |sent.rx| == 6 + |data|
            && Verdict(id, |data|, sent.rx) == Reply(error, data)
            && Consume(sent, 6 + |data|) == sent.(rx := [])
  {
    hide Respond, Verdict, Frame, React;
    RespondToFrame(w, id, body);
    FrameVerdict(id, error, data);
    QueueOfOne(w[id := React(w[id], body).0], Frame(id, [error] + data));
  }

  lemma QueueOfOne(w: Servos, f: Bytes)
    ensures [] + f == f && Consume(Link(w, f), |f|) == Link(w, [])
  {
  }

  /** A command nobody answers. */
  lemma Unanswered(w: Servos, id: U8, body: Bytes)
    requires |body| < 0xFF && (id == BROADCAST_ID || id !in w)
    ensures var sent := Send(Respond, Link(w, []), Frame(id, body));
            sent == Link(Respond(w, Frame(id, body)).0, []) && (id !in w && id != BROADCAST_ID ==> sent.world == w)
  {
    RespondToFrame(w, id, body);
  }

  lemma PingRefines(w: Servos, id: U8)
    ensures var (w', r) := Direct(w, PingServo(id)); Execute(Link(w, []), PingServo(id)) == (Link(w', []), r)
  {
    hide React, Frame, Verdict, Respond, Send;
    if id != BROADCAST_ID {
      if id in w {
        ReactPing(w[id]);
        Answered(w, id, [PING], w[id].fault, []);
        assert w[id := w[id]] == w;
      } else {
        Unanswered(w, id, [PING]);
        NobodyReads(w, id, 0);
      }
    }
  }

  lemma ReadRefines(w: Servos, id: U8, memAddr: U8, n: nat)
    ensures var c := ReadServo(id, memAddr, n);
            var (w', r) := Direct(w, c); Execute(Link(w, []), c) == (Link(w', []), r)
  {
    hide React, Frame, Verdict, Respond, Load, Send;
    if id != BROADCAST_ID && n <= MAX_DATA_BYTES {
      var body: Bytes := [READ, memAddr, n];
      if id in w {
        ReactRead(w[id], memAddr, n);
        Answered(w, id, body, w[id].fault, Load(w[id].memory, memAddr, n));
        assert w[id := w[id]] == w;
      } else {
        Unanswered(w, id, body);
        NobodyReads(w, id, n);
      }
    }
  }

  lemma NobodyReads(w: Servos, id: U8, n: nat)
    requires n <= MAX_DATA_BYTES
    ensures Verdict(id, n, []) == Failed(NoResponse) && Consume(Link(w, []), 6 + n) == Link(w, [])
  {
  }

  lemma WriteRefines(w: Servos, id: U8, memAddr: U8, data: Bytes)
    ensures var c := WriteAndDrain(id, memAddr, data);
            var (w', r) := Direct(w, c); Execute(Link(w, []), c) == (Link(w', []), r)
  {
    hide React, Frame, Verdict, Send, Store, StoreAll, ReactAll;
    if |data| <= MAX_DATA_BYTES {
      var body := [WRITE, memAddr] + data;
      if id == BROADCAST_ID {
        RespondToFrame(w, id, body);
        BroadcastWrite(w, memAddr, data);
        Unanswered(w, id, body);
      } else if id in w {
        ReactWrite(w[id], memAddr, data);
        hide Respond;
        Answered(w, id, body, w[id].fault, []);
      } else {
        Unanswered(w, id, body);
      }
    }
  }

  /** With nothing pending, one driver command is one direct access, and leaves nothing pending. */
  lemma CommandRefines(w: Servos, c: Command)
    ensures var (w', r) := Direct(w, c); Execute(Link(w, []), c) == (Link(w', []), r)
  {
    match c
    case PingServo(id) => PingRefines(w, id);
    case ReadServo(id, memAddr, n) => ReadRefines(w, id, memAddr, n);
    case WriteAndDrain(id, memAddr, data) => WriteRefines(w, id, memAddr, data);
  }

  function ExecuteAll(l: Link<Servos>, cs: seq<Command>): (Link<Servos>, seq<Outcome>)
    decreases |cs|
  {
    if cs == [] then (l, []) else
      var (l1, r) := Execute(l, cs[0]);
      var (l2, rs) := ExecuteAll(l1, cs[1..]);
      (l2, [r] + rs)
  }

  function DirectAll(w: Servos, cs: seq<Command>): (Servos, seq<Outcome>) {
    if cs == [] then (w, []) else
      var (w1, r) := Direct(w, cs[0]);
      var (w2, rs) := DirectAll(w1, cs[1..]);
      (w2, [r] + rs)
  }

  /** So every sequence of pings, reads and drained writes, to present, absent and broadcast IDs,
      stays in step: the queue is empty after it and each outcome is the one direct access gives. */
  lemma {:induction false} BusRefinesMemory(w: Servos, cs: seq<Command>)
    ensures var (w', rs) := DirectAll(w, cs); ExecuteAll(Link(w, []), cs) == (Link(w', []), rs)
  {
    if cs == [] {
    } else {
      CommandRefines(w, cs[0]);
      BusRefinesMemory(Direct(w, cs[0]).0, cs[1..]);
    }
  }

  /** In particular a servo reads back what was last written to it. */
  lemma WriteThenRead(w: Servos, id: U8, memAddr: U8, data: Bytes)
    requires id in w && id != BROADCAST_ID && |data| <= MAX_DATA_BYTES
    ensures var (l, ack) := Execute(Link(w, []), WriteAndDrain(id, memAddr, data));
            ack == Acked(Done) && Execute(l, ReadServo(id, memAddr, |data|)).1 == Read(Reply(w[id].fault, data))
  {
    var write := WriteAndDrain(id, memAddr, data);
    CommandRefines(w, write);
    CommandRefines(Direct(w, write).0, ReadServo(id, memAddr, |data|));
    LoadAfterStore(w[id].memory, memAddr, data);
    hide Execute;
  }
}
