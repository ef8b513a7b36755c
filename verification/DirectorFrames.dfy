/** One frame spelled out actor by actor, with no recursion: who sees which entity, what is
    remembered, what is stamped, and which writes stop it. */
module DirectorFrames {
  import opened MachineInts
  import opened Options
  import opened Ordering
  import opened Director
  import opened DirectorRuns
  import opened DirectorClock

  // ---- Turns ----

  /** One modifier's turn: it sees `e`, leaves `e'`, and its slot keeps what it remembers. */
  predicate ModifierTurn(a: Actors, s: Slot, s': Slot, e: Entity, e': Entity) {
    var m := s.modifier;
    && (s'.modifier.memory, e') == a.update(m.id, m.memory, e)
    && s'.registeredAt == s.registeredAt && s'.modifier.id == m.id && s'.modifier.meta == m.meta
    && (a.checked ==> OnlyWrites(e, e', m.meta.writes))
  }

  /** One skill's turn: it is asked, and acts only if it says so. */
  predicate SkillTurn(a: Actors, s: Skill, s': Skill, e: Entity, e': Entity) {
    if a.shouldFire(s.id, s.memory, e) then
      && (s'.memory, e') == a.invoke(s.id, s.memory, e) && s'.id == s.id && s'.meta == s.meta
      && (a.checked ==> OnlyWrites(e, e', s.meta.writes))
    else s' == s && e' == e
  }

  /** `es[i]` is the entity that modifier `i` of the registry sees. */
  ghost predicate ModifierHistory(a: Actors, slots: seq<Slot>, after: seq<Slot>, es: seq<Entity>) {
    && |after| == |slots| && |es| == |slots| + 1
    && forall i :: 0 <= i < |slots| ==> ModifierTurn(a, slots[i], after[i], es[i], es[i + 1])
  }

  ghost predicate SkillHistory(a: Actors, skills: seq<Skill>, after: seq<Skill>, es: seq<Entity>) {
    && |after| == |skills| && |es| == |skills| + 1
    && forall i :: 0 <= i < |skills| ==> SkillTurn(a, skills[i], after[i], es[i], es[i + 1])
  }

  function NumberOf(s: Slot): nat { s.registeredAt }

  lemma {:induction false} ModifierPassHistory(a: Actors, slots: seq<Slot>, e: Entity) returns (es: seq<Entity>)
    requires ModifierPass(a, slots, e).ModifiersDone?
    ensures ModifierHistory(a, slots, ModifierPass(a, slots, e).slots, es)
    ensures es[0] == e && es[|slots|] == ModifierPass(a, slots, e).entity
    ensures ModifierPass(a, slots, e).calls == Map(NumberOf, slots)
  {
    if slots == [] {
      es := [e];
    } else {
      hide OnlyWrites;
      var m := slots[0].modifier;
      var (memory, e') := a.update(m.id, m.memory, e);
      var rest := ModifierPassHistory(a, slots[1..], e');
      es := [e] + rest;
      var r, more := ModifierPass(a, slots, e), ModifierPass(a, slots[1..], e');
      assert r.slots[1..] == more.slots && r.calls == [slots[0].registeredAt] + more.calls;
      forall i | 0 <= i < |slots| ensures ModifierTurn(a, slots[i], r.slots[i], es[i], es[i + 1]) {
        if i > 0 {
          assert ModifierTurn(a, slots[1..][i - 1], more.slots[i - 1], rest[i - 1], rest[i]);
        }
      }
    }
  }

  lemma {:induction false} HistoryIsModifierPass(a: Actors, slots: seq<Slot>, after: seq<Slot>, es: seq<Entity>)
    requires ModifierHistory(a, slots, after, es)
    ensures ModifierPass(a, slots, es[0]) == ModifiersDone(after, es[|slots|], Map(NumberOf, slots))
  {
    if slots == [] {
    } else {
      hide OnlyWrites;
      assert ModifierTurn(a, slots[0], after[0], es[0], es[1]);
      forall i | 0 <= i < |slots| - 1
        ensures ModifierTurn(a, slots[1..][i], after[1..][i], es[1..][i], es[1..][i + 1])
      {
        assert ModifierTurn(a, slots[i + 1], after[i + 1], es[i + 1], es[i + 2]);
      }
      HistoryIsModifierPass(a, slots[1..], after[1..], es[1..]);
      assert after == [after[0]] + after[1..];
      assert Map(NumberOf, slots) == [slots[0].registeredAt] + Map(NumberOf, slots[1..]);
    }
  }

  lemma {:induction false} SkillPassHistory(a: Actors, skills: seq<Skill>, e: Entity) returns (es: seq<Entity>)
    requires SkillPass(a, skills, e).SkillsDone?
    ensures SkillHistory(a, skills, SkillPass(a, skills, e).skills, es)
    ensures es[0] == e && es[|skills|] == SkillPass(a, skills, e).entity
  {
    if skills == [] {
      es := [e];
    } else {
      hide OnlyWrites;
      var s := skills[0];
      var next := if a.shouldFire(s.id, s.memory, e) then a.invoke(s.id, s.memory, e).1 else e;
      var rest := SkillPassHistory(a, skills[1..], next);
      es := [e] + rest;
      var r, more := SkillPass(a, skills, e), SkillPass(a, skills[1..], next);
      assert r.skills[1..] == more.skills;
      forall i | 0 <= i < |skills| ensures SkillTurn(a, skills[i], r.skills[i], es[i], es[i + 1]) {
        if i > 0 {
          assert SkillTurn(a, skills[1..][i - 1], more.skills[i - 1], rest[i - 1], rest[i]);
        }
      }
    }
  }

  lemma {:induction false} HistoryIsSkillPass(a: Actors, skills: seq<Skill>, after: seq<Skill>, es: seq<Entity>)
    requires SkillHistory(a, skills, after, es)
    ensures SkillPass(a, skills, es[0]) == SkillsDone(after, es[|skills|])
  {
    if skills == [] {
    } else {
      hide OnlyWrites;
      assert SkillTurn(a, skills[0], after[0], es[0], es[1]);
      forall i | 0 <= i < |skills| - 1
        ensures SkillTurn(a, skills[1..][i], after[1..][i], es[1..][i], es[1..][i + 1])
      {
        assert SkillTurn(a, skills[i + 1], after[i + 1], es[i + 1], es[i + 2]);
      }
      HistoryIsSkillPass(a, skills[1..], after[1..], es[1..]);
      assert after == [after[0]] + after[1..];
    }
  }

  // ---- A frame ----

  /** The entity that the first actor of a frame sees: this frame's tick, and no events. */
  predicate Stamped(d: Dir, e: Entity, now: U64, first: Entity) {
    && first.fields == e.fields && first.untracked == e.untracked && first.events == {}
    && first.tick.now == now
    && first.tick.dtMs == (if d.lastNow.None? then 0 else Max(0, Min(Gap(d.lastNow.value, now), 0xFFFF_FFFF)))
    && first.tick.frame == Min((d.frame as int) + 1, 0xFFFF_FFFF_FFFF_FFFF)
  }

  /** Modifiers take their turns first, on the stamped entity, then skills on what they left. */
  ghost predicate FrameHistory(a: Actors, d: Dir, e: Entity, now: U64, d': Dir, e': Entity, calls: seq<nat>,
                               es: seq<Entity>, fs: seq<Entity>)
  {
    && ModifierHistory(a, d.modifiers, d'.modifiers, es) && SkillHistory(a, d.skills, d'.skills, fs)
    && Stamped(d, e, now, es[0]) && fs[0] == es[|d.modifiers|] && e' == fs[|d.skills|]
    && calls == Map(NumberOf, d.modifiers)
    && d'.frame == es[0].tick.frame && d'.lastNow == Some(now)
    && d'.sorted == d.sorted && d'.nextRegistration == d.nextRegistration
  }

  lemma FrameDoneHistory(a: Actors, d: Dir, e: Entity, now: U64) returns (es: seq<Entity>, fs: seq<Entity>)
    requires FrameOn(a, d, e, now).FrameDone?
    ensures |es| == |d.modifiers| + 1 && |fs| == |d.skills| + 1
    ensures var r := FrameOn(a, d, e, now); FrameHistory(a, d, e, now, r.dir, r.entity, r.calls, es, fs)
  {
    hide ModifierPass, SkillPass;
    var e0 := e.(tick := StampFor(d, now), events := {});
    es := ModifierPassHistory(a, d.modifiers, e0);
    fs := SkillPassHistory(a, d.skills, ModifierPass(a, d.modifiers, e0).entity);
    assert |es| == |d.modifiers| + 1 && |fs| == |d.skills| + 1;
    hide ModifierHistory, SkillHistory;
  }

  lemma HistoryFrameDone(a: Actors, d: Dir, e: Entity, now: U64, d': Dir, e': Entity, calls: seq<nat>,
                         es: seq<Entity>, fs: seq<Entity>)
    requires FrameHistory(a, d, e, now, d', e', calls, es, fs)
    ensures FrameOn(a, d, e, now) == FrameDone(d', e', calls)
  {
    hide ModifierPass, SkillPass;
    HistoryIsModifierPass(a, d.modifiers, d'.modifiers, es);
    HistoryIsSkillPass(a, d.skills, d'.skills, fs);
    hide ModifierHistory, SkillHistory;
    assert es[0] == e.(tick := StampFor(d, now), events := {});
  }

  /** A frame completes, with given registries, entity and calls, if and only if there is a history
      of turns that ends in them; in particular it panics exactly when some turn breaks a contract. */
  lemma FrameDoneIff(a: Actors, d: Dir, e: Entity, now: U64, d': Dir, e': Entity, calls: seq<nat>)
    ensures FrameOn(a, d, e, now) == FrameDone(d', e', calls)
       <==> exists es: seq<Entity>, fs: seq<Entity> :: FrameHistory(a, d, e, now, d', e', calls, es, fs)
  {
    hide FrameOn, FrameHistory;
    if FrameOn(a, d, e, now) == FrameDone(d', e', calls) {
      var es, fs := FrameDoneHistory(a, d, e, now);
    }
    if exists es: seq<Entity>, fs: seq<Entity> :: FrameHistory(a, d, e, now, d', e', calls, es, fs) {
      var es: seq<Entity>, fs: seq<Entity> :| FrameHistory(a, d, e, now, d', e', calls, es, fs);
      HistoryFrameDone(a, d, e, now, d', e', calls, es, fs);
    }
  }

  /** The panic names the first modifier whose turn breaks its contract. */
  lemma {:induction false} ViolatorNamed(a: Actors, slots: seq<Slot>, e: Entity) returns (k: nat)
    requires ModifierPass(a, slots, e).ModifierViolation?
    ensures k < |slots| && ModifierPass(a, slots[..k], e).ModifiersDone?
    ensures ModifierPass(a, slots, e).actor == slots[k].modifier.meta.name
    ensures var m, seen := slots[k].modifier, ModifierPass(a, slots[..k], e).entity;
            a.checked && !OnlyWrites(seen, a.update(m.id, m.memory, seen).1, m.meta.writes)
  {
    hide OnlyWrites;
    var m := slots[0].modifier;
    var (memory, e') := a.update(m.id, m.memory, e);
    if Breaks(a, e, e', m.meta.writes) {
      k := 0;
      assert slots[..0] == [];
    } else {
      var j := ViolatorNamed(a, slots[1..], e');
      k := j + 1;
      assert slots[..k][0] == slots[0] && slots[..k][1..] == slots[1..][..j];
    }
  }

  /** Likewise for skills. */
  lemma {:induction false} SkillViolatorNamed(a: Actors, skills: seq<Skill>, e: Entity) returns (k: nat)
    requires SkillPass(a, skills, e).SkillViolation?
    ensures k < |skills| && SkillPass(a, skills[..k], e).SkillsDone?
    ensures SkillPass(a, skills, e).actor == skills[k].meta.name
    ensures var s, seen := skills[k], SkillPass(a, skills[..k], e).entity;
            && a.checked && a.shouldFire(s.id, s.memory, seen)
            && !OnlyWrites(seen, a.invoke(s.id, s.memory, seen).1, s.meta.writes)
  {
    hide OnlyWrites;
    var s := skills[0];
    var fires := a.shouldFire(s.id, s.memory, e);
    var (memory, e') := a.invoke(s.id, s.memory, e);
    if fires && Breaks(a, e, e', s.meta.writes) {
      k := 0;
      assert skills[..0] == [];
    } else {
      var j := SkillViolatorNamed(a, skills[1..], if fires then e' else e);
      k := j + 1;
      assert skills[..k][0] == skills[0] && skills[..k][1..] == skills[1..][..j];
    }
  }

  // ---- What is stamped, over whole runs ----

  /** Actors that leave the tick and the events alone. */
  ghost predicate KeepsStamp(a: Actors) {
    && (forall id: nat, memory: int, e: Entity ::
          a.update(id, memory, e).1.tick == e.tick && a.update(id, memory, e).1.events == e.events)
    && (forall id: nat, memory: int, e: Entity ::
          a.invoke(id, memory, e).1.tick == e.tick && a.invoke(id, memory, e).1.events == e.events)
  }

  lemma {:induction false} StampThroughModifiers(a: Actors, slots: seq<Slot>, after: seq<Slot>, es: seq<Entity>, k: nat)
    requires KeepsStamp(a) && ModifierHistory(a, slots, after, es) && k <= |slots|
    ensures es[k].tick == es[0].tick && es[k].events == es[0].events
  {
    hide OnlyWrites;
    if k == 0 {
    } else {
      StampThroughModifiers(a, slots, after, es, k - 1);
      assert ModifierTurn(a, slots[k - 1], after[k - 1], es[k - 1], es[k]);
    }
  }

  lemma {:induction false} StampThroughSkills(a: Actors, skills: seq<Skill>, after: seq<Skill>, es: seq<Entity>, k: nat)
    requires KeepsStamp(a) && SkillHistory(a, skills, after, es) && k <= |skills|
    ensures es[k].tick == es[0].tick && es[k].events == es[0].events
  {
    hide OnlyWrites;
    if k == 0 {
    } else {
      StampThroughSkills(a, skills, after, es, k - 1);
      assert SkillTurn(a, skills[k - 1], after[k - 1], es[k - 1], es[k]);
    }
  }

  /** What every frame of every run gives its first actor: no events, and the tick of the frame
      times so far. */
  lemma FirstActorSees(a: Actors, ws: seq<World>, ops: seq<Op>, i: nat)
    returns (d: Dir, es: seq<Entity>, fs: seq<Entity>)
    requires Trace(a, ws, ops) && i < |ops| && ops[i].RunFrame?
    ensures Settles(ws[i].dir, d) && |es| == |d.modifiers| + 1 && |fs| == |d.skills| + 1
    ensures ModifierHistory(a, d.modifiers, ws[i + 1].dir.modifiers, es)
    ensures SkillHistory(a, d.skills, ws[i + 1].dir.skills, fs)
    ensures fs[0] == es[|d.modifiers|] && ws[i + 1].entity == fs[|d.skills|]
    ensures es[0].fields == ws[i].entity.fields && es[0].untracked == ws[i].entity.untracked && es[0].events == {}
    ensures var times := FrameTimes(ops[..i + 1]); times != [] && TickOk(times, |times| - 1, es[0].tick)
  {
    hide FrameOn, Settles, ModifierHistory, SkillHistory, ClockOk, TickOk;
    RunningClock(a, ws, ops, i);
    hide Trace, FrameTimes;
    var w, w', now := ws[i], ws[i + 1], ops[i].now;
    var settled: Dir, calls: seq<nat> :| Settles(w.dir, settled) &&
      FrameOn(a, settled, w.entity, now) == FrameDone(w'.dir, w'.entity, calls);
    d := settled;
    es, fs := FrameDoneHistory(a, d, w.entity, now);
    SettledClock(w.dir, d);
    StampedTick(w, d, now, es[0], FrameTimes(ops[..i]));
  }

  /** The clock before frame operation `i`, and the frame itself. */
  lemma RunningClock(a: Actors, ws: seq<World>, ops: seq<Op>, i: nat)
    requires Trace(a, ws, ops) && i < |ops| && ops[i].RunFrame?
    ensures ClockOk(ws[i], FrameTimes(ops[..i])) && FrameStep(a, ws[i], ops[i].now, ws[i + 1])
    ensures FrameTimes(ops[..i + 1]) == FrameTimes(ops[..i]) + [ops[i].now]
  {
    TracePrefix(a, ws, ops, i);
    ClockAlways(a, ws[..i + 1], ops[..i]);
    assert Next(a, ws[i], ops[i], ws[i + 1]);
    hide ClockOk, FrameStep;
    assert ops[..i + 1][..i] == ops[..i] && ops[..i + 1][i] == ops[i];
  }

  lemma SettledClock(d: Dir, d': Dir)
    requires Settles(d, d')
    ensures d'.frame == d.frame && d'.lastNow == d.lastNow
  {
  }

  lemma StampedTick(w: World, d: Dir, now: U64, first: Entity, times: seq<U64>)
    requires ClockOk(w, times) && d.frame == w.dir.frame && d.lastNow == w.dir.lastNow
    requires Stamped(d, w.entity, now, first)
    ensures TickOk(times + [now], |times|, first.tick)
  {
  }

  /** So when the actors leave them alone, what the firmware reads after any frame of any run is that
      frame's tick and no events. */
  lemma StampedAlways(a: Actors, ws: seq<World>, ops: seq<Op>, i: nat)
    requires Trace(a, ws, ops) && i < |ops| && ops[i].RunFrame? && KeepsStamp(a)
    ensures ws[i + 1].entity.events == {}
    ensures var times := FrameTimes(ops[..i + 1]); times != [] && TickOk(times, |times| - 1, ws[i + 1].entity.tick)
  {
    var d, es, fs := FirstActorSees(a, ws, ops, i);
    StampThroughModifiers(a, d.modifiers, ws[i + 1].dir.modifiers, es, |d.modifiers|);
    StampThroughSkills(a, d.skills, ws[i + 1].dir.skills, fs, |d.skills|);
    hide Trace, KeepsStamp;
  }

  /** The ticks of the clock laws are the ones the first actors see. */
  lemma TicksAreSeen(a: Actors, ws: seq<World>, ops: seq<Op>, i: nat)
    requires Trace(a, ws, ops) && i < |ops| && ops[i].RunFrame?
    ensures var ticks := ws[i + 1].ticks;
            ticks != [] && exists d: Dir, es: seq<Entity> ::
              && Settles(ws[i].dir, d) && ModifierHistory(a, d.modifiers, ws[i + 1].dir.modifiers, es)
              && es[0].tick == ticks[|ticks| - 1]
  {
    var d, es, fs := FirstActorSees(a, ws, ops, i);
    TracePrefix(a, ws, ops, i + 1);
    ClockAlways(a, ws[..i + 2], ops[..i + 1]);
    var times, ticks := FrameTimes(ops[..i + 1]), ws[i + 1].ticks;
    hide Trace, Settles, ModifierHistory, SkillHistory;
    assert TickOk(times, |times| - 1, ticks[|times| - 1]);
    assert es[0].tick == ticks[|ticks| - 1];
  }
}
