/** The servo bus when the acknowledgements of writes are drained by calls of their own, or not at
    all: whose bytes a ping or a read then takes for its reply. */
module ServoDrains {
  import opened MachineInts
  import opened Options
  import opened Ordering
  import opened Scservo
  import opened ServoBus

  datatype Call = PingCall(id: U8) | ReadCall(id: U8, memAddr: U8, n: nat)
                | WriteCall(id: U8, memAddr: U8, data: Bytes) | DrainCall

  /** One call of the driver, on whatever the queue holds. */
  function CallStep(l: Link<Servos>, c: Call): (Link<Servos>, Outcome) {
    match c
    case PingCall(id) => var (l', r) := PingStep(Respond, l, id); (l', Acked(r))
    case ReadCall(id, memAddr, n) => var (l', r) := ReadStep(Respond, l, id, memAddr, n); (l', Read(r))
    case WriteCall(id, memAddr, data) => var (l', r) := WriteStep(Respond, l, id, memAddr, data); (l', Acked(r))
    case DrainCall => var (l', r) := DrainStep(l); (l', Acked(r))
  }

  function LinkAfter(w: Servos, cs: seq<Call>): Link<Servos> {
    if cs == [] then Link(w, []) else CallStep(LinkAfter(w, cs[..|cs| - 1]), cs[|cs| - 1]).0
  }

  // ---- The same calls on a queue that knows where its bytes come from ----

  /** A received byte and the number of the call whose packet it answers. */
  datatype Tagged = Tagged(byte: U8, source: nat)

  function ByteOf(t: Tagged): U8 { t.byte }

  function Tag(b: Bytes, source: nat): seq<Tagged> { seq(|b|, i requires 0 <= i < |b| => Tagged(b[i], source)) }

  datatype Queue = Queue(world: Servos, bytes: seq<Tagged>)

  function Bare(q: Queue): Link<Servos> { Link(q.world, Map(ByteOf, q.bytes)) }

  /** The body of the packet that a call sends, if it sends one, and to whom. */
  function Sent(c: Call): Option<(U8, Bytes)> {
    match c
    case PingCall(id) => if id == BROADCAST_ID then None else Some((id, [PING]))
    case ReadCall(id, memAddr, n) =>
      if id == BROADCAST_ID || n > MAX_DATA_BYTES then None else Some((id, [READ, memAddr, n]))
    case WriteCall(id, memAddr, data) =>
      if |data| > MAX_DATA_BYTES then None else Some((id, [WRITE, memAddr] + data))
    case DrainCall => None
  }

  /** How many bytes a call reads. */
  function Wanted(c: Call): nat {
    match c
    case PingCall(_) => if Sent(c).Some? then 6 else 0
    case ReadCall(_, _, n) => if Sent(c).Some? then 6 + n else 0
    case WriteCall(_, _, _) => 0
    case DrainCall => 6
  }

  function Answer(w: Servos, c: Call): (Servos, Bytes) {
    match Sent(c)
    case None => (w, [])
    case Some((id, body)) => if |body| < 0xFF then Respond(w, Frame(id, body)) else (w, [])
  }

  /** What is in the queue when call number `i` starts to read. */
  function Arrived(q: Queue, c: Call, i: nat): seq<Tagged> { q.bytes + Tag(Answer(q.world, c).1, i) }

  function Taken(q: Queue, c: Call, i: nat): seq<Tagged> {
    var a := Arrived(q, c, i);
    if |a| < Wanted(c) then a else a[..Wanted(c)]
  }

  function TaggedStep(q: Queue, c: Call, i: nat): Queue {
    Queue(Answer(q.world, c).0, Arrived(q, c, i)[|Taken(q, c, i)|..])
  }

  function QueueAfter(w: Servos, cs: seq<Call>): Queue {
    if cs == [] then Queue(w, []) else
      var n := |cs| - 1;
      TaggedStep(QueueAfter(w, cs[..n]), cs[n], n)
  }

  lemma BareArrived(q: Queue, c: Call, i: nat)
    ensures Map(ByteOf, Arrived(q, c, i)) == Bare(q).rx + Answer(q.world, c).1
  {
    hide Answer;
    MapAppend(ByteOf, q.bytes, Tag(Answer(q.world, c).1, i));
    assert Map(ByteOf, Tag(Answer(q.world, c).1, i)) == Answer(q.world, c).1;
  }

  lemma BareRest(s: seq<Tagged>, k: nat, w: Servos)
    ensures var taken := if |s| < k then |s| else k;
            Link(w, Map(ByteOf, s[taken..])) == Consume(Link(w, Map(ByteOf, s)), k)
  {
    var taken := if |s| < k then |s| else k;
    assert Map(ByteOf, s[taken..]) == Map(ByteOf, s)[taken..];
  }

  lemma SendIsAnswer(l: Link<Servos>, c: Call)
    requires Sent(c).Some?
    ensures |Sent(c).value.1| < 0xFF
    ensures var (w', reply) := Answer(l.world, c);
            Send(Respond, l, Frame(Sent(c).value.0, Sent(c).value.1)) == Link(w', l.rx + reply)
  {
    hide Respond, Frame;
  }

  /** Every call is: send what it sends, then consume what it wants. */
  lemma StepConsumes(l: Link<Servos>, c: Call)
    ensures CallStep(l, c).0 == Consume(Link(Answer(l.world, c).0, l.rx + Answer(l.world, c).1), Wanted(c))
  {
    hide Respond, Frame, Verdict, Send, Consume, Answer;
    NothingTaken(Link(Answer(l.world, c).0, l.rx + Answer(l.world, c).1));
    if Sent(c).Some? {
      SendIsAnswer(l, c);
    } else {
      assert Answer(l.world, c) == (l.world, []) by {
        Silent(l.world, c);
      }
      assert l.rx + [] == l.rx;
    }
  }

  lemma Silent(w: Servos, c: Call)
    requires Sent(c).None?
    ensures Answer(w, c) == (w, [])
  {
  }

  /** Forgetting the tags gives the driver's own step. */
  lemma BareStep(q: Queue, c: Call, i: nat)
    ensures Bare(TaggedStep(q, c, i)) == CallStep(Bare(q), c).0
  {
    BareArrived(q, c, i);
    BareRest(Arrived(q, c, i), Wanted(c), Answer(q.world, c).0);
    StepConsumes(Bare(q), c);
    hide CallStep, Consume, Answer, Wanted, Map;
  }

  lemma NothingTaken(l: Link<Servos>)
    ensures Consume(l, 0) == l
  {
  }

  lemma {:induction false} BareRun(w: Servos, cs: seq<Call>)
    ensures Bare(QueueAfter(w, cs)) == LinkAfter(w, cs)
  {
    if cs == [] {
      assert Map(ByteOf, []) == [];
    } else {
      var n := |cs| - 1;
      BareRun(w, cs[..n]);
      BareStep(QueueAfter(w, cs[..n]), cs[n], n);
      hide CallStep, TaggedStep, Bare;
    }
  }

  // ---- The net count ----

  function Less(a: nat, b: nat): nat { if a < b then 0 else a - b }

  predicate Acknowledged(ids: set<int>, c: Call) {
    c.WriteCall? && |c.data| <= MAX_DATA_BYTES && c.id in ids && c.id != BROADCAST_ID
  }

  /** A ping or a read that is sent, to a servo that is there. */
  predicate Asks(ids: set<int>, c: Call) {
    (c.PingCall? || c.ReadCall?) && Sent(c).Some? && c.id in ids
  }

  /** The net count of acknowledgement bytes after the calls, from the program and the servos' IDs
      alone: a write to a present servo adds six, a drain takes six, and what an absent servo is
      asked for is taken too. A ping or read of a present servo changes nothing: it takes as many
      bytes as it brings, though with a count above zero not its own. */
  function NetCount(ids: set<int>, cs: seq<Call>): nat {
    if cs == [] then 0 else
      var before, c := NetCount(ids, cs[..|cs| - 1]), cs[|cs| - 1];
      if Acknowledged(ids, c) then before + 6
      else if Asks(ids, c) then before
      else Less(before, Wanted(c))
  }

  /** Acknowledged writes less drains, counting drains of an empty queue for nothing. */
  function UndrainedWrites(ids: set<int>, cs: seq<Call>): nat {
    if cs == [] then 0 else
      var before, c := UndrainedWrites(ids, cs[..|cs| - 1]), cs[|cs| - 1];
      if Acknowledged(ids, c) then before + 1 else if c.DrainCall? then Less(before, 1) else before
  }

  lemma FrameLength(id: U8, body: Bytes)
    requires |body| < 0xFF
    ensures |Frame(id, body)| == 5 + |body|
  {
  }

  /** Every answer is as long as the call expects, or there is none. */
  lemma AnswerLength(w: Servos, c: Call)
    ensures Answer(w, c).0.Keys == w.Keys
    ensures |Answer(w, c).1| == if Acknowledged(w.Keys, c) then 6 else if Asks(w.Keys, c) then Wanted(c) else 0
  {
    hide Frame, Respond, React, Load;
    if Sent(c).Some? {
      var (id, body) := Sent(c).value;
      RespondToFrame(w, id, body);
      if id != BROADCAST_ID && id in w {
        var s := w[id];
        match c {
          case PingCall(_) =>
            ReactPing(s);
            FrameLength(id, [s.fault] + []);
          case ReadCall(_, memAddr, n) =>
            ReactRead(s, memAddr, n);
            FrameLength(id, [s.fault] + Load(s.memory, memAddr, n));
          case WriteCall(_, memAddr, data) =>
            ReactWrite(s, memAddr, data);
            FrameLength(id, [s.fault] + []);
        }
      }
    }
  }

  ghost predicate TagsBelow(s: seq<Tagged>, n: nat) { forall k :: 0 <= k < |s| ==> s[k].source < n }

  lemma TagsStep(q: Queue, c: Call, i: nat)
    requires TagsBelow(q.bytes, i)
    ensures TagsBelow(TaggedStep(q, c, i).bytes, i + 1)
  {
    hide Answer;
  }

  /** Everything the servos ever answered, in order. */
  function Stream(w: Servos, cs: seq<Call>): seq<Tagged> {
    if cs == [] then [] else
      var n := |cs| - 1;
      Stream(w, cs[..n]) + Tag(Answer(QueueAfter(w, cs[..n]).world, cs[n]).1, n)
  }

  ghost predicate IsTail(s: seq<Tagged>, t: seq<Tagged>) { |s| <= |t| && s == t[|t| - |s|..] }

  lemma TailStep(s: seq<Tagged>, t: seq<Tagged>, more: seq<Tagged>, k: nat)
    requires IsTail(s, t) && k <= |s + more|
    ensures IsTail((s + more)[k..], t + more)
  {
    var q, u := (s + more)[k..], t + more;
    assert u[|u| - |s + more|..] == s + more;
    assert q == u[|u| - |s + more|..][k..];
  }

  /** After any calls the queue is exactly the last bytes answered, as many as the net count: the
      acknowledgements nobody took, or the replies of the calls that took them instead. */
  lemma {:induction false} QueueKnown(w: Servos, cs: seq<Call>)
    ensures QueueAfter(w, cs).world.Keys == w.Keys
    ensures |QueueAfter(w, cs).bytes| == NetCount(w.Keys, cs)
    ensures IsTail(QueueAfter(w, cs).bytes, Stream(w, cs))
    ensures TagsBelow(QueueAfter(w, cs).bytes, |cs|)
  {
    if cs == [] {
    } else {
      var n := |cs| - 1;
      var q := QueueAfter(w, cs[..n]);
      QueueKnown(w, cs[..n]);
      TagsStep(q, cs[n], n);
      AnswerLength(q.world, cs[n]);
      hide Answer, TagsBelow, Acknowledged, Asks, Wanted, IsTail;
      TailStep(q.bytes, Stream(w, cs[..n]), Tag(Answer(q.world, cs[n]).1, n), |Taken(q, cs[n], n)|);
      assert Acknowledged(w.Keys, cs[n]) ==> Wanted(cs[n]) == 0 by {
        NothingWanted(w.Keys, cs[n]);
      }
    }
  }

  lemma NothingWanted(ids: set<int>, c: Call)
    ensures Acknowledged(ids, c) ==> Wanted(c) == 0
  {
  }

  // ---- Whose reply ----

  /** Call `i` takes as many bytes as it wants, each sent in answer to its own packet. */
  ghost predicate OwnReply(w: Servos, cs: seq<Call>, i: nat)
    requires i < |cs|
  {
    var taken := Taken(QueueAfter(w, cs[..i]), cs[i], i);
    |taken| == Wanted(cs[i]) && forall k :: 0 <= k < |taken| ==> taken[k].source == i
  }

  /** The first `|reply|` bytes of a queue and a reply behind it are the reply's own exactly when
      the queue was empty. */
  lemma FrontSource(s: seq<Tagged>, reply: Bytes, i: nat)
    requires TagsBelow(s, i) && reply != []
    ensures (forall k :: 0 <= k < |reply| ==> (s + Tag(reply, i))[k].source == i) <==> s == []
  {
    if s != [] {
      assert (s + Tag(reply, i))[0] == s[0];
    }
  }

  /** In any run a ping or read of a present servo is answered by its own reply if and only if the
      net count is zero when it is sent. */
  lemma OwnReplyIff(w: Servos, cs: seq<Call>, i: nat)
    requires i < |cs| && Asks(w.Keys, cs[i])
    ensures OwnReply(w, cs, i) <==> NetCount(w.Keys, cs[..i]) == 0
  {
    var q := QueueAfter(w, cs[..i]);
    QueueKnown(w, cs[..i]);
    AnswerLength(q.world, cs[i]);
    WantedByAsker(w.Keys, cs[i]);
    hide Answer, Asks, Wanted, NetCount, QueueAfter, Acknowledged, TagsBelow;
    var reply, taken := Answer(q.world, cs[i]).1, Taken(q, cs[i], i);
    FrontSource(q.bytes, reply, i);
    hide Tag;
    assert |taken| == |reply|;
    assert forall k :: 0 <= k < |reply| ==> taken[k] == (q.bytes + Tag(reply, i))[k];
  }

  lemma WantedByAsker(ids: set<int>, c: Call)
    requires Asks(ids, c)
    ensures Wanted(c) >= 6 && !Acknowledged(ids, c)
  {
  }

  /** Where every ping and read that is sent asks a present servo, the net count is whole
      acknowledgements: the writes not yet drained. */
  lemma {:induction false} NetCountIsUndrained(ids: set<int>, cs: seq<Call>)
    requires forall k :: 0 <= k < |cs| && (cs[k].PingCall? || cs[k].ReadCall?) && Sent(cs[k]).Some? ==> Asks(ids, cs[k])
    ensures NetCount(ids, cs) == 6 * UndrainedWrites(ids, cs)
  {
    if cs == [] {
    } else {
      var n := |cs| - 1;
      NetCountIsUndrained(ids, cs[..n]);
      var c := cs[n];
      if !Acknowledged(ids, c) && !Asks(ids, c) {
        assert Wanted(c) == if c.DrainCall? then 6 else 0;
      }
    }
  }

  /** In such a run a ping or read is answered by its own reply if and only if no acknowledged write
      is still undrained when it is sent. */
  lemma OwnReplyIffDrained(w: Servos, cs: seq<Call>, i: nat)
    requires i < |cs| && Asks(w.Keys, cs[i])
    requires forall k :: 0 <= k < i && (cs[k].PingCall? || cs[k].ReadCall?) && Sent(cs[k]).Some? ==> Asks(w.Keys, cs[k])
    ensures OwnReply(w, cs, i) <==> UndrainedWrites(w.Keys, cs[..i]) == 0
  {
    OwnReplyIff(w, cs, i);
    NetCountIsUndrained(w.Keys, cs[..i]);
    hide OwnReply, NetCount, UndrainedWrites;
  }

  function AsCommand(c: Call): Command
    requires c.PingCall? || c.ReadCall?
  {
    match c
    case PingCall(id) => PingServo(id)
    case ReadCall(id, memAddr, n) => ReadServo(id, memAddr, n)
  }

  /** And its own reply is the right one: with a net count of zero the driver's outcome is the one
      direct access to that servo gives, and nothing is left behind. */
  lemma OwnReplyIsRight(w: Servos, cs: seq<Call>, i: nat)
    requires i < |cs| && (cs[i].PingCall? || cs[i].ReadCall?) && NetCount(w.Keys, cs[..i]) == 0
    ensures var l := LinkAfter(w, cs[..i]);
            var (w', r) := Direct(l.world, AsCommand(cs[i]));
            CallStep(l, cs[i]) == (Link(w', []), r)
  {
    BareRun(w, cs[..i]);
    QueueKnown(w, cs[..i]);
    var l := LinkAfter(w, cs[..i]);
    assert l.rx == [];
    CommandRefines(l.world, AsCommand(cs[i]));
    hide PingStep, ReadStep, Direct, LinkAfter;
  }

  // ---- What a stale acknowledgement does ----

  lemma StaleVerdict(id: U8, fault: U8, other: U8, n: nat, tail: Bytes)
    requires n <= MAX_DATA_BYTES && |tail| == 6 + n
    ensures |Frame(id, [fault])| == 6
    ensures Verdict(other, n, Frame(id, [fault]) + tail) ==
            if other == id && n == 0 then Reply(fault, []) else Failed(MalformedResponse)
  {
    var f := Frame(id, [fault]);
    assert f == [HEADER_BYTE, HEADER_BYTE, id, 2, fault, Checksum(Covered(id, [fault]))];
    hide Checksum, Covered;
    assert (f + tail)[2] == id && (f + tail)[3] == 2;
    if other == id && n == 0 {
      assert (f + tail)[..6] == f;
      VerdictOfPrefix(id, 0, f + tail);
      assert [fault] + [] == [fault];
      FrameVerdict(id, fault, []);
    }
  }

  lemma AfterUndrainedWrite(w: Servos, id: U8, memAddr: U8, data: Bytes)
    requires id in w && id != BROADCAST_ID && |data| <= MAX_DATA_BYTES
    ensures WriteStep(Respond, Link(w, []), id, memAddr, data) ==
            (Link(w[id := w[id].(memory := Store(w[id].memory, memAddr, data))], Frame(id, [w[id].fault])), Done)
  {
    hide React, Frame, Verdict, Respond, Store, Send;
    ReactWrite(w[id], memAddr, data);
    assert [w[id].fault] + [] == [w[id].fault];
    Answered(w, id, [WRITE, memAddr] + data, w[id].fault, []);
  }

  /** Leaving out one drain, then reading from that servo: a read of at least one byte fails, and a
      read of none takes the stale acknowledgement for its answer. Either way its own last six
      bytes stay in the queue. */
  lemma SkippedDrain(w: Servos, id: U8, memAddr: U8, data: Bytes, readAddr: U8, n: nat)
    requires id in w && id != BROADCAST_ID && |data| <= MAX_DATA_BYTES && n <= MAX_DATA_BYTES
    ensures var (sent, r) := WriteStep(Respond, Link(w, []), id, memAddr, data);
            var (l, reply) := ReadStep(Respond, sent, id, readAddr, n);
            && r == Done && |l.rx| == 6
            && reply == if n == 0 then Reply(w[id].fault, []) else Failed(MalformedResponse)
  {
    AfterUndrainedWrite(w, id, memAddr, data);
    var sent := WriteStep(Respond, Link(w, []), id, memAddr, data).0;
    AnswerLength(sent.world, ReadCall(id, readAddr, n));
    var reply := Answer(sent.world, ReadCall(id, readAddr, n)).1;
    StaleVerdict(id, w[id].fault, id, n, reply);
    hide Respond, Frame, Verdict, WriteStep;
  }

  /** A ping succeeds on another call's acknowledgement exactly when it asks the servo that sent it,
      silently; asked of any other servo it fails. Its own answer stays in the queue. */
  lemma SkippedDrainThenPing(w: Servos, id: U8, memAddr: U8, data: Bytes, other: U8)
    requires id in w && id != BROADCAST_ID && |data| <= MAX_DATA_BYTES && other in w && other != BROADCAST_ID
    ensures var (sent, r) := WriteStep(Respond, Link(w, []), id, memAddr, data);
            var (l, ack) := PingStep(Respond, sent, other);
            r == Done && |l.rx| == 6 && ack == if other == id then Done else MalformedResponse
  {
    AfterUndrainedWrite(w, id, memAddr, data);
    var sent := WriteStep(Respond, Link(w, []), id, memAddr, data).0;
    AnswerLength(sent.world, PingCall(other));
    StaleVerdict(id, w[id].fault, other, 0, Answer(sent.world, PingCall(other)).1);
    hide Respond, Frame, Verdict, WriteStep;
  }
}
