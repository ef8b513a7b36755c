/** The director's frame bookkeeping over whole runs. */
module DirectorClock {
  import opened MachineInts
  import opened Options
  import opened Director
  import opened DirectorRuns

  /** The times of the frames run so far. */
  function FrameTimes(ops: seq<Op>): seq<U64> {
    if ops == [] then [] else
      var earlier, op := FrameTimes(ops[..|ops| - 1]), ops[|ops| - 1];
      if op.RunFrame? then earlier + [op.now] else earlier
  }

  function Gap(earlier: U64, later: U64): int { later - earlier }

  /** The tick of frame `k` (from 0): its own time, the clamped gap, and its one-based number. */
  predicate TickOk(times: seq<U64>, k: nat, t: Tick)
    requires k < |times|
  {
    && t.now == times[k]
    && t.dtMs == (if k == 0 then 0 else Max(0, Min(Gap(times[k - 1], times[k]), U32_MAX)))
    && t.frame == Min(k + 1, U64_MAX)
  }

  ghost predicate ClockOk(w: World, times: seq<U64>) {
    && |w.ticks| == |times|
    && (forall k :: 0 <= k < |times| ==> TickOk(times, k, w.ticks[k]))
    && w.dir.frame == Min(|times|, U64_MAX)
    && w.dir.lastNow == if times == [] then None else Some(times[|times| - 1])
  }

  /** What a frame does to the director's own clock. */
  lemma FrameClock(a: Actors, w: World, now: U64, w': World)
    requires FrameStep(a, w, now, w')
    ensures w'.ticks == w.ticks + [StampFor(w.dir, now)]
    ensures w'.dir.frame == SaturatingInc(w.dir.frame, U64_MAX) && w'.dir.lastNow == Some(now)
  {
    var d: Dir, calls: seq<nat> :| Settles(w.dir, d) &&
      FrameOn(a, d, w.entity, now) == FrameDone(w'.dir, w'.entity, calls) &&
      w'.ticks == w.ticks + [StampFor(w.dir, now)];
    hide ModifierPass, SkillPass;
  }

  lemma ClockStep(a: Actors, w: World, op: Op, w': World, times: seq<U64>)
    requires Next(a, w, op, w') && ClockOk(w, times)
    ensures ClockOk(w', if op.RunFrame? then times + [op.now] else times)
  {
    if op.RunFrame? {
      FrameClock(a, w, op.now, w');
      hide FrameStep;
      var next := times + [op.now];
      forall k | 0 <= k < |next| ensures TickOk(next, k, w'.ticks[k]) {
        if k < |times| {
          assert TickOk(times, k, w.ticks[k]);
        }
      }
    }
  }

  /** In every run the ticks stamped are those of the frame times, whatever the actors do. */
  lemma {:induction false} ClockAlways(a: Actors, ws: seq<World>, ops: seq<Op>)
    requires Trace(a, ws, ops)
    ensures ClockOk(ws[|ops|], FrameTimes(ops))
  {
    if ops == [] {
    } else {
      var n := |ops| - 1;
      TracePrefix(a, ws, ops, n);
      ClockAlways(a, ws[..n + 1], ops[..n]);
      ClockStep(a, ws[n], ops[n], ws[n + 1], FrameTimes(ops[..n]));
    }
  }

  function SumDt(ticks: seq<Tick>): nat {
    if ticks == [] then 0 else SumDt(ticks[..|ticks| - 1]) + ticks[|ticks| - 1].dtMs
  }

  /** Milliseconds the clock stepped backwards over the run. */
  function SteppedBack(times: seq<U64>): nat {
    if |times| < 2 then 0 else
      SteppedBack(times[..|times| - 1]) + Max(0, Gap(times[|times| - 1], times[|times| - 2]))
  }

  /** Milliseconds the u32 clamp dropped over the run. */
  function Clamped(times: seq<U64>): nat {
    if |times| < 2 then 0 else
      Clamped(times[..|times| - 1]) + Max(0, Gap(times[|times| - 2], times[|times| - 1]) - U32_MAX)
  }

  lemma {:induction false} SumDtBalance(ticks: seq<Tick>, times: seq<U64>)
    requires 0 < |times| == |ticks| && forall k :: 0 <= k < |times| ==> TickOk(times, k, ticks[k])
    ensures SumDt(ticks) + Clamped(times) == Gap(times[0], times[|times| - 1]) + SteppedBack(times)
  {
    var n := |times| - 1;
    assert TickOk(times, n, ticks[n]);
    if n == 0 {
      assert ticks[..0] == [];
    } else {
      forall k | 0 <= k < n ensures TickOk(times[..n], k, ticks[..n][k]) {
        assert TickOk(times, k, ticks[k]);
      }
      SumDtBalance(ticks[..n], times[..n]);
    }
  }

  /** The signed gap in front of frame `i`. */
  function Step(times: seq<U64>, i: nat): int
    requires 1 <= i < |times|
  {
    Gap(times[i - 1], times[i])
  }

  predicate NeverBack(times: seq<U64>) { forall i :: 1 <= i < |times| ==> 0 <= Step(times, i) }

  predicate GapsFit(times: seq<U64>) { forall i :: 1 <= i < |times| ==> Step(times, i) <= U32_MAX }

  lemma {:induction false} LossesZeroIff(times: seq<U64>)
    ensures SteppedBack(times) == 0 <==> NeverBack(times)
    ensures Clamped(times) == 0 <==> GapsFit(times)
  {
    if |times| < 2 {
    } else {
      var n := |times| - 1;
      LossesZeroIff(times[..n]);
      assert forall i :: 1 <= i < n ==> Step(times[..n], i) == Step(times, i);
      assert Gap(times[n - 1], times[n]) == Step(times, n);
    }
  }

  /** The conservation law of `dt_ms` in every run: what the ticks report plus what the clamp
      dropped is the time between the first and the last frame plus every backward step. */
  lemma DtConserved(a: Actors, ws: seq<World>, ops: seq<Op>)
    requires Trace(a, ws, ops) && FrameTimes(ops) != []
    ensures var t := FrameTimes(ops);
            SumDt(ws[|ops|].ticks) + Clamped(t) == Gap(t[0], t[|t| - 1]) + SteppedBack(t)
  {
    ClockAlways(a, ws, ops);
    SumDtBalance(ws[|ops|].ticks, FrameTimes(ops));
  }

  /** So when every gap fits u32, `dt_ms` telescopes to the elapsed time if and only if the clock
      never ran backwards. */
  lemma DtTelescopesIff(a: Actors, ws: seq<World>, ops: seq<Op>)
    requires Trace(a, ws, ops) && FrameTimes(ops) != [] && GapsFit(FrameTimes(ops))
    ensures var t := FrameTimes(ops);
            SumDt(ws[|ops|].ticks) == Gap(t[0], t[|t| - 1]) <==> NeverBack(t)
  {
    DtConserved(a, ws, ops);
    LossesZeroIff(FrameTimes(ops));
  }
}
