/** Power-key edges on the AXP2101 (crates/axp2101/src/lib.rs): flags the chip sets at any moment,
    a driver that reads them and writes ones to clear, and a bus that may fail at either step. An
    interrupt register is modelled as the set of its set bit positions: `|` is union, `&` is
    intersection, and clearing a mask is set difference. */
module Axp2101 {
  type Flags = set<nat>

  const IRQ_SHORT_PRESS: nat := 4
  const IRQ_PRESS_EDGE: nat := 1
  const IRQ_RELEASE_EDGE: nat := 0

  datatype Result<T> = Ok(value: T) | BusError

  /** What became of a register write: done, never reached the chip, or reached the chip while the
      driver saw an error. */
  datatype Fate = Applied | NotApplied | AckLost

  datatype Call = CheckShortPress | TakeEdges

  /** How the surroundings behave during one call: does the status read succeed, which flags does
      the chip set between the read and the clear, and what becomes of the clear. */
  datatype Weather = Weather(readOk: bool, arriving: Flags, fate: Fate)

  function Looks(c: Call): Flags {
    match c
    case CheckShortPress => {IRQ_SHORT_PRESS}
    case TakeEdges => {IRQ_PRESS_EDGE, IRQ_RELEASE_EDGE}
  }

  // ---- The driver ----

  /** The chip's two interrupt registers behind the bus. */
  class Axp2101 {
    var irqStatus: Flags
    var irqEnable: Flags

    method CheckShortPressEdge(w: Weather) returns (r: Result<bool>)
      modifies this`irqStatus
      ensures var (next, reported) := CallStep(old(irqStatus), CheckShortPress, w);
              && irqStatus == next
              && r == (if reported == BusError then BusError else Ok(4 in reported.value))
    {
      var status := irqStatus;
      irqStatus := irqStatus + w.arriving;
      if !w.readOk {
        return BusError;
      }
      if IRQ_SHORT_PRESS !in status {
        return Ok(false);
      }
      var ok := WriteOneToClear({IRQ_SHORT_PRESS}, w.fate);
      return if ok then Ok(true) else BusError;
    }

    method TakePowerKeyEdges(w: Weather) returns (r: Result<(bool, bool)>)
      modifies this`irqStatus
      ensures var (next, reported) := CallStep(old(irqStatus), TakeEdges, w);
              && irqStatus == next
              && r == (if reported == BusError then BusError
                       else Ok((1 in reported.value, 0 in reported.value)))
    {
      var status := irqStatus;
      irqStatus := irqStatus + w.arriving;
      if !w.readOk {
        return BusError;
      }
      var press := IRQ_PRESS_EDGE in status;
      var release := IRQ_RELEASE_EDGE in status;
      if press || release {
        var clear: Flags := {};
        if press {
          clear := clear + {IRQ_PRESS_EDGE};
        }
        if release {
          clear := clear + {IRQ_RELEASE_EDGE};
        }
        assert clear == status * Looks(TakeEdges);
        var ok := WriteOneToClear(clear, w.fate);
        if !ok {
          return BusError;
        }
      }
      return Ok((press, release));
    }

    method WriteOneToClear(mask: Flags, fate: Fate) returns (ok: bool)
      modifies this`irqStatus
      ensures irqStatus == if fate == NotApplied then old(irqStatus) else old(irqStatus) - mask
      ensures ok <==> fate == Applied
    {
      if fate != NotApplied {
        irqStatus := irqStatus - mask;
      }
      ok := fate == Applied;
    }

    method EnableShortPressIrq(readOk: bool, fate: Fate) returns (ok: bool)
      modifies this`irqEnable
      ensures irqEnable == if readOk && fate != NotApplied then old(irqEnable) + {4} else old(irqEnable)
      ensures ok <==> readOk && fate == Applied
    {
      ok := SetEnables(readOk, {IRQ_SHORT_PRESS}, fate);
    }

    method EnablePowerKeyEdgeIrqs(readOk: bool, fate: Fate) returns (ok: bool)
      modifies this`irqEnable
      ensures irqEnable == if readOk && fate != NotApplied
                           then old(irqEnable) + {1, 0} else old(irqEnable)
      ensures ok <==> readOk && fate == Applied
    {
      ok := SetEnables(readOk, {IRQ_PRESS_EDGE, IRQ_RELEASE_EDGE}, fate);
    }

    /** The read-modify-write the two enables share. */
    method SetEnables(readOk: bool, bits: Flags, fate: Fate) returns (ok: bool)
      modifies this`irqEnable
      ensures irqEnable == if readOk && fate != NotApplied then old(irqEnable) + bits else old(irqEnable)
      ensures ok <==> readOk && fate == Applied
    {
      if !readOk {
        return false;
      }
      var current := irqEnable;
      if fate != NotApplied {
        irqEnable := current + bits;
      }
      ok := fate == Applied;
    }
  }

  /** One call as a transition: the status register afterwards and the flags reported as set. On a
      bus error none are. */
  function CallStep(status: Flags, c: Call, w: Weather): (Flags, Result<Flags>) {
    var seen := status * Looks(c);
    if !w.readOk then (status + w.arriving, BusError)
    else if seen == {} then (status + w.arriving, Ok({}))
    else match w.fate
         case Applied => (status + w.arriving - seen, Ok(seen))
         case NotApplied => (status + w.arriving, BusError)
         case AckLost => (status + w.arriving - seen, BusError)
  }

  // ---- Whole runs ----

  /** Between calls the chip may set flags; a call sees the weather it sees. */
  datatype Event = Edges(flags: Flags) | Poll(call: Call, weather: Weather)

  function StatusAfter(evs: seq<Event>): Flags {
    if evs == [] then {} else
      var before, ev := StatusAfter(evs[..|evs| - 1]), evs[|evs| - 1];
      match ev
      case Edges(flags) => before + flags
      case Poll(call, weather) => CallStep(before, call, weather).0
  }

  /** The flags that event `i` of the run reported as set. */
  function Reported(evs: seq<Event>, i: nat): Flags
    requires i < |evs|
  {
    match evs[i]
    case Edges(_) => {}
    case Poll(call, weather) =>
      var r := CallStep(StatusAfter(evs[..i]), call, weather).1;
      if r.Ok? then r.value else {}
  }

  /** What a poll reports, exactly: when its read and its clear both succeed, every flag it looks for
      that was pending, bit 4 for the short press and bits 1 and 0 for the two edges together, and
      no other; on a bus error nothing. */
  lemma ReportedExactly(evs: seq<Event>, i: nat)
    requires i < |evs| && evs[i].Poll?
    ensures var looks := if evs[i].call == CheckShortPress then {4} else {1, 0};
            var pending, w := StatusAfter(evs[..i]) * looks, evs[i].weather;
            Reported(evs, i) == if w.readOk && w.fate == Applied then pending else {}
  {
    hide StatusAfter;
  }

  /** The flags that the chip set during an event. */
  function Arrived(ev: Event): Flags {
    match ev
    case Edges(flags) => flags
    case Poll(_, weather) => weather.arriving
  }

  /** Event `i` is a clear that took effect while the driver was told it failed. */
  predicate LostClear(evs: seq<Event>, i: nat)
    requires i < |evs|
  {
    && evs[i].Poll? && evs[i].weather.readOk && evs[i].weather.fate == AckLost
    && StatusAfter(evs[..i]) * Looks(evs[i].call) != {}
  }

  /** The flags with an edge that no report has covered since: what the driver still owes. A report
      covers the edges that arrive while its call is under way. */
  function Owed(evs: seq<Event>): Flags {
    if evs == [] then {} else
      var n := |evs| - 1;
      Owed(evs[..n]) + Arrived(evs[n]) - Reported(evs, n)
  }

  lemma PrefixFacts(evs: seq<Event>, n: nat, i: nat)
    requires i < n <= |evs|
    ensures Reported(evs[..n], i) == Reported(evs, i)
    ensures LostClear(evs[..n], i) == LostClear(evs, i)
  {
    assert evs[..n][..i] == evs[..i];
  }

  /** One event keeps "pending is exactly owed" unless it is a lost clear, which always breaks it. */
  lemma OwedStep(evs: seq<Event>)
    requires evs != [] && StatusAfter(evs[..|evs| - 1]) == Owed(evs[..|evs| - 1])
    ensures StatusAfter(evs) == Owed(evs) <==> !LostClear(evs, |evs| - 1)
  {
    var n := |evs| - 1;
    if LostClear(evs, n) {
      var b :| b in StatusAfter(evs[..n]) * Looks(evs[n].call);
      assert b in Owed(evs) && b !in StatusAfter(evs);
    }
  }

  ghost predicate PendingIsOwed(evs: seq<Event>) { StatusAfter(evs) == Owed(evs) }

  ghost predicate AlwaysPendingIsOwed(evs: seq<Event>) {
    forall n :: 0 <= n <= |evs| ==> PendingIsOwed(evs[..n])
  }

  ghost predicate NoLostClear(evs: seq<Event>) {
    forall i :: 0 <= i < |evs| ==> !LostClear(evs, i)
  }

  lemma AlwaysByHead(evs: seq<Event>)
    requires evs != []
    ensures AlwaysPendingIsOwed(evs) <==> AlwaysPendingIsOwed(evs[..|evs| - 1]) && PendingIsOwed(evs)
    ensures AlwaysPendingIsOwed(evs) ==> PendingIsOwed(evs[..|evs| - 1])
  {
    hide PendingIsOwed;
    var m := |evs| - 1;
    assert evs[..|evs|] == evs;
    forall n | 0 <= n <= m ensures evs[..m][..n] == evs[..n] {
    }
    if AlwaysPendingIsOwed(evs) {
      assert forall n :: 0 <= n <= m ==> PendingIsOwed(evs[..n]);
    }
    if AlwaysPendingIsOwed(evs[..m]) && PendingIsOwed(evs) {
      forall n | 0 <= n <= |evs| ensures PendingIsOwed(evs[..n]) {
        assert n <= m ==> PendingIsOwed(evs[..m][..n]);
      }
    }
  }

  lemma LostByHead(evs: seq<Event>)
    requires evs != []
    ensures NoLostClear(evs) <==> NoLostClear(evs[..|evs| - 1]) && !LostClear(evs, |evs| - 1)
  {
    hide LostClear;
    var m := |evs| - 1;
    forall i | 0 <= i < m ensures LostClear(evs[..m], i) == LostClear(evs, i) {
      PrefixFacts(evs, m, i);
    }
  }

  /** After every prefix of a run the chip's flags are exactly the uncovered edges, if and only if
      no clear was lost: nothing else loses an edge, no other fault, no race and no interleaving. */
  lemma {:induction false} PendingIsOwedIff(evs: seq<Event>)
    ensures AlwaysPendingIsOwed(evs) <==> NoLostClear(evs)
  {
    if evs == [] {
      assert forall n :: 0 <= n <= |evs| ==> evs[..n] == [];
    } else {
      var head := evs[..|evs| - 1];
      PendingIsOwedIff(head);
      AlwaysByHead(evs);
      LostByHead(evs);
      if AlwaysPendingIsOwed(head) {
        assert head[..|head|] == head && PendingIsOwed(head[..|head|]);
        OwedStep(evs);
      }
      hide StatusAfter, Owed, LostClear, AlwaysPendingIsOwed, NoLostClear;
    }
  }

  /** No lost edge: in a run without lost clears an edge that arrived during event `i` is still
      pending at the end, or some call from `i` on reported it. */
  lemma NoEdgeLost(evs: seq<Event>, i: nat, b: nat)
    requires i < |evs| && b in Arrived(evs[i])
    requires NoLostClear(evs)
    ensures b in StatusAfter(evs) || exists k :: i <= k < |evs| && b in Reported(evs, k)
  {
    PendingIsOwedIff(evs);
    assert evs[..|evs|] == evs && PendingIsOwed(evs[..|evs|]);
    OwedSince(evs, i, b);
  }

  lemma {:induction false} OwedSince(evs: seq<Event>, i: nat, b: nat)
    requires i < |evs| && b in Arrived(evs[i])
    ensures b in Owed(evs) || exists k :: i <= k < |evs| && b in Reported(evs, k)
  {
    var n := |evs| - 1;
    if i == n {
    } else {
      OwedSince(evs[..n], i, b);
      if k :| i <= k < n && b in Reported(evs[..n], k) {
        PrefixFacts(evs, n, k);
      }
    }
    assert b in Owed(evs) || b in Reported(evs, n) || (exists k :: i <= k < n && b in Reported(evs, k));
  }

  /** A lost clear does lose the edge: one press, one poll, nothing reported and nothing pending. */
  lemma LostClearLosesEdge()
    ensures var evs := [Edges({IRQ_SHORT_PRESS}), Poll(CheckShortPress, Weather(true, {}, AckLost))];
            StatusAfter(evs) == {} && Reported(evs, 0) == Reported(evs, 1) == {} && Owed(evs) == {IRQ_SHORT_PRESS}
  {
    var evs := [Edges({IRQ_SHORT_PRESS}), Poll(CheckShortPress, Weather(true, {}, AckLost))];
    assert evs[..1] == [Edges({IRQ_SHORT_PRESS})] && evs[..1][..0] == [] && evs[..0] == [];
    assert StatusAfter(evs[..1]) == {IRQ_SHORT_PRESS} && Owed(evs[..1]) == {IRQ_SHORT_PRESS};
  }

  function EdgeCount(evs: seq<Event>, b: nat): nat {
    if evs == [] then 0 else
      EdgeCount(evs[..|evs| - 1], b) + (if b in Arrived(evs[|evs| - 1]) then 1 else 0)
  }

  function ReportCount(evs: seq<Event>, b: nat): nat {
    if evs == [] then 0 else
      ReportCount(evs[..|evs| - 1], b) + (if b in Reported(evs, |evs| - 1) then 1 else 0)
  }

  /** No invented edge: for each flag, on any bus, the reports so far plus the one still pending
      never exceed the events in which the chip set it. */
  lemma {:induction false} NoEdgeInvented(evs: seq<Event>, b: nat)
    ensures ReportCount(evs, b) + (if b in StatusAfter(evs) then 1 else 0) <= EdgeCount(evs, b)
  {
    if evs == [] {
    } else {
      var n := |evs| - 1;
      NoEdgeInvented(evs[..n], b);
      var before := StatusAfter(evs[..n]);
      assert b in Reported(evs, n) ==> b in before && b !in StatusAfter(evs);
      assert b in StatusAfter(evs) ==> b in before || b in Arrived(evs[n]);
    }
  }
}
