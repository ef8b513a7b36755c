/** Whole runs of the director: any interleaving of registrations, frames and firmware writes to
    the entity between frames, in a build with its checks or without, and with them in a program no
    actor has stopped by breaking its contract. */
module DirectorRuns {
  import opened MachineInts
  import opened Ordering
  import opened Director

  datatype Op = AddModifier(m: Modifier) | AddSkill(s: Skill) | RunFrame(now: U64) | Firmware(entity: Entity)

  /** `ticks`, `calls` and `sortedSkills` are history: the tick stamped and the modifiers called in
      each frame, and how many skills the last sort saw. */
  datatype World = World(dir: Dir, entity: Entity, ticks: seq<Tick>, calls: seq<seq<nat>>, sortedSkills: nat)

  ghost predicate FrameStep(a: Actors, w: World, now: U64, w': World) {
    exists d: Dir, calls: seq<nat> ::
      && Settles(w.dir, d)
      && FrameOn(a, d, w.entity, now) == FrameDone(w'.dir, w'.entity, calls)
      && w'.ticks == w.ticks + [StampFor(w.dir, now)]
      && w'.calls == w.calls + [calls]
      && w'.sortedSkills == if w.dir.sorted then w.sortedSkills else |w.dir.skills|
  }

  /** The transitions that the class's methods make: a refused registration changes nothing, and in
      a checked build a lane or contract panic ends the program, so it has no successor. */
  ghost predicate Next(a: Actors, w: World, op: Op, w': World) {
    match op
    case AddModifier(m) => w' == w.(dir := WithModifier(w.dir, m))
    case AddSkill(s) => (a.checked ==> LaneOk(s.meta.writes)) && w' == w.(dir := WithSkill(w.dir, s))
    case RunFrame(now) => FrameStep(a, w, now, w')
    case Firmware(e) => w' == w.(entity := e)
  }

  ghost predicate Trace(a: Actors, ws: seq<World>, ops: seq<Op>) {
    && |ws| == |ops| + 1
    && ws[0].dir == EMPTY && ws[0].ticks == [] && ws[0].calls == [] && ws[0].sortedSkills == 0
    && forall i :: 0 <= i < |ops| ==> Next(a, ws[i], ops[i], ws[i + 1])
  }

  lemma TracePrefix(a: Actors, ws: seq<World>, ops: seq<Op>, n: nat)
    requires Trace(a, ws, ops) && n <= |ops|
    ensures Trace(a, ws[..n + 1], ops[..n])
  {
  }

  /** The operations that panic, in a checked build: a skill out of its lane, and a frame in which an actor breaks its
      write contract. */
  ghost predicate Stops(a: Actors, w: World, op: Op) {
    match op
    case AddSkill(s) => a.checked && !LaneOk(s.meta.writes)
    case RunFrame(now) => exists d: Dir :: Settles(w.dir, d) && FrameOn(a, d, w.entity, now).Violation?
    case _ => false
  }

  /** The class's methods, called in any order, make such a trace, of the whole program or up to
      the first operation that panics. */
  method Drive(a: Actors, entity: Entity, ops: seq<Op>) returns (final: Entity, stopped: bool, ghost ws: seq<World>)
    ensures |ws| >= 1 && |ws| <= |ops| + 1 && Trace(a, ws, ops[..|ws| - 1])
    ensures ws[0].entity == entity
    ensures !stopped ==> |ws| == |ops| + 1
    ensures stopped ==> |ws| <= |ops| && Stops(a, ws[|ws| - 1], ops[|ws| - 1])
    ensures final == ws[|ws| - 1].entity
  {
    var d := new Director();
    final, ws := entity, [World(EMPTY, entity, [], [], 0)];
    for i := 0 to |ops|
      invariant |ws| == i + 1 && Trace(a, ws, ops[..i]) && fresh(d)
      invariant ws[0].entity == entity && ws[i].dir == d.Snapshot() && ws[i].entity == final
    {
      ghost var w;
      final, stopped, w := Perform(a, d, final, ws[i], ops[i]);
      if stopped {
        return final, true, ws;
      }
      TraceExtend(a, ws, ops[..i], ops[i], w);
      ws := ws + [w];
      assert ops[..i + 1] == ops[..i] + [ops[i]];
    }
    assert ops[..|ops|] == ops;
    stopped := false;
  }

  /** One operation on the class: a step of a trace, or the panic that ends it. */
  method Perform(a: Actors, d: Director, entity: Entity, ghost w: World, op: Op)
    returns (entity': Entity, stopped: bool, ghost w': World)
    requires w.dir == d.Snapshot() && w.entity == entity
    modifies d
    ensures stopped ==> Stops(a, w, op) && entity' == entity
    ensures !stopped ==> Next(a, w, op, w') && w'.dir == d.Snapshot() && w'.entity == entity'
  {
    entity', stopped, w' := entity, false, w;
    match op
    case AddModifier(m) =>
      var _ := d.AddModifier(m);
      w' := w.(dir := d.Snapshot());
    case AddSkill(s) =>
      var r := d.AddSkill(a.checked, s);
      stopped := r == LanePanic;
      w' := w.(dir := d.Snapshot());
    case RunFrame(now) =>
      hide FrameOn, Settles, StampFor;
      var e, r, settled, calls := d.Run(a, entity, now);
      if r.Panicked? {
        assert FrameOn(a, settled, entity, now).Violation?;
        stopped := true;
      } else {
        entity' := e;
        w' := World(d.Snapshot(), e, w.ticks + [StampFor(w.dir, now)], w.calls + [calls],
                    if w.dir.sorted then w.sortedSkills else |w.dir.skills|);
        assert FrameStep(a, w, now, w');
      }
    case Firmware(e) =>
      entity' := e;
      w' := w.(entity := e);
  }

  lemma TraceExtend(a: Actors, ws: seq<World>, ops: seq<Op>, op: Op, w: World)
    requires Trace(a, ws, ops) && Next(a, ws[|ops|], op, w)
    ensures Trace(a, ws + [w], ops + [op])
  {
    hide Next;
  }

  // ---- Builds without the checks ----

  lemma {:induction false} UncheckedModifiers(a: Actors, slots: seq<Slot>, e: Entity)
    ensures !a.checked ==> ModifierPass(a, slots, e).ModifiersDone?
    ensures ModifierPass(a, slots, e).ModifiersDone? ==>
              ModifierPass(a.(checked := false), slots, e) == ModifierPass(a, slots, e)
  {
    if slots == [] {
    } else {
      var m := slots[0].modifier;
      var (memory, e') := a.update(m.id, m.memory, e);
      UncheckedModifiers(a, slots[1..], e');
      hide OnlyWrites;
    }
  }

  lemma {:induction false} UncheckedSkills(a: Actors, skills: seq<Skill>, e: Entity)
    ensures !a.checked ==> SkillPass(a, skills, e).SkillsDone?
    ensures SkillPass(a, skills, e).SkillsDone? ==>
              SkillPass(a.(checked := false), skills, e) == SkillPass(a, skills, e)
  {
    if skills == [] {
    } else {
      var s := skills[0];
      var (memory, e') := a.invoke(s.id, s.memory, e);
      UncheckedSkills(a, skills[1..], if a.shouldFire(s.id, s.memory, e) then e' else e);
      hide OnlyWrites;
    }
  }

  lemma UncheckedFrame(a: Actors, d: Dir, e: Entity, now: U64)
    ensures !a.checked ==> FrameOn(a, d, e, now).FrameDone?
    ensures FrameOn(a, d, e, now).FrameDone? ==>
              FrameOn(a.(checked := false), d, e, now) == FrameOn(a, d, e, now)
  {
    hide ModifierPass, SkillPass, StampFor;
    var e0 := e.(tick := StampFor(d, now), events := {});
    UncheckedModifiers(a, d.modifiers, e0);
    UncheckedSkills(a, d.skills, ModifierPass(a, d.modifiers, e0).entity);
  }

  /** A build without the checks never stops, whatever the actors write and the skills declare. */
  lemma UncheckedNeverStops(a: Actors, w: World, op: Op)
    requires !a.checked
    ensures !Stops(a, w, op)
  {
    if op.RunFrame? {
      forall d: Dir ensures FrameOn(a, d, w.entity, op.now).FrameDone? {
        UncheckedFrame(a, d, w.entity, op.now);
      }
    }
  }

  lemma UncheckedStep(a: Actors, w: World, op: Op, w': World)
    requires Next(a, w, op, w')
    ensures Next(a.(checked := false), w, op, w')
  {
    if op.RunFrame? {
      var d: Dir, calls: seq<nat> :| Settles(w.dir, d)
        && FrameOn(a, d, w.entity, op.now) == FrameDone(w'.dir, w'.entity, calls)
        && w'.ticks == w.ticks + [StampFor(w.dir, op.now)] && w'.calls == w.calls + [calls]
        && w'.sortedSkills == if w.dir.sorted then w.sortedSkills else |w.dir.skills|;
      UncheckedFrame(a, d, w.entity, op.now);
      hide FrameOn, Settles, StampFor;
      assert FrameStep(a.(checked := false), w, op.now, w');
    }
  }

  /** A run that passes the checks is, world for world, a run of the build without them. */
  lemma CheckedRunIsUnchecked(a: Actors, ws: seq<World>, ops: seq<Op>)
    requires Trace(a, ws, ops)
    ensures Trace(a.(checked := false), ws, ops)
  {
    hide Next;
    forall i | 0 <= i < |ops| ensures Next(a.(checked := false), ws[i], ops[i], ws[i + 1]) {
      UncheckedStep(a, ws[i], ops[i], ws[i + 1]);
    }
  }

  // ---- What a pass keeps ----

  /** A slot without its actor's private memory. */
  datatype Entry = Entry(registeredAt: nat, id: nat, meta: ModifierMeta)

  function EntryOf(s: Slot): Entry { Entry(s.registeredAt, s.modifier.id, s.modifier.meta) }

  function Number(e: Entry): nat { e.registeredAt }

  function Roster(slots: seq<Slot>): seq<Entry> { Map(EntryOf, slots) }

  /** A skill without its private memory. */
  datatype SkillEntry = SkillEntry(id: nat, meta: SkillMeta)

  function SkillEntryOf(s: Skill): SkillEntry { SkillEntry(s.id, s.meta) }

  function SkillRoster(skills: seq<Skill>): seq<SkillEntry> { Map(SkillEntryOf, skills) }

  /** A completed pass calls every registered modifier once, in registry order, and changes nothing
      in the registry but private memory. */
  lemma {:induction false} ModifierPassKeeps(a: Actors, slots: seq<Slot>, e: Entity)
    requires ModifierPass(a, slots, e).ModifiersDone?
    ensures var r := ModifierPass(a, slots, e);
            Roster(r.slots) == Roster(slots) && r.calls == Map(Number, Roster(slots))
  {
    if slots == [] {
    } else {
      var m := slots[0].modifier;
      var (memory, e') := a.update(m.id, m.memory, e);
      var r, head := ModifierPass(a, slots[1..], e'), Slot(slots[0].registeredAt, m.(memory := memory));
      ModifierPassKeeps(a, slots[1..], e');
      MapAppend(EntryOf, [head], r.slots);
      MapAppend(EntryOf, [slots[0]], slots[1..]);
      MapAppend(Number, [EntryOf(head)], Roster(slots[1..]));
      assert slots == [slots[0]] + slots[1..];
      assert Roster([head]) == [EntryOf(head)] == Roster([slots[0]]);
      assert Map(Number, [EntryOf(head)]) == [head.registeredAt];
    }
  }

  lemma {:induction false} SkillPassKeeps(a: Actors, skills: seq<Skill>, e: Entity)
    requires SkillPass(a, skills, e).SkillsDone?
    ensures SkillRoster(SkillPass(a, skills, e).skills) == SkillRoster(skills)
  {
    if skills == [] {
    } else {
      var s := skills[0];
      var (memory, e') := a.invoke(s.id, s.memory, e);
      var fires := a.shouldFire(s.id, s.memory, e);
      var next, head := if fires then e' else e, if fires then s.(memory := memory) else s;
      SkillPassKeeps(a, skills[1..], next);
      MapAppend(SkillEntryOf, [head], SkillPass(a, skills[1..], next).skills);
      MapAppend(SkillEntryOf, [s], skills[1..]);
      assert skills == [s] + skills[1..];
      assert SkillRoster([head]) == [SkillEntryOf(s)] == SkillRoster([s]);
    }
  }

  // ---- The schedule ----

  /** The accepted registrations, numbered by acceptance: refused ones leave no gap. */
  function Accepted(ops: seq<Op>): seq<Entry> {
    if ops == [] then [] else
      var earlier, op := Accepted(ops[..|ops| - 1]), ops[|ops| - 1];
      if op.AddModifier? && |earlier| < MODIFIER_CAP
      then earlier + [Entry(|earlier|, op.m.id, op.m.meta)] else earlier
  }

  predicate EntryBefore(a: Entry, b: Entry) { KeyBefore(a.meta, a.registeredAt, b.meta, b.registeredAt) }

  ghost predicate Scheduled(w: World, accepted: seq<Entry>) {
    && w.dir.nextRegistration == |w.dir.modifiers| == |accepted| <= 48
    && multiset(Roster(w.dir.modifiers)) == multiset(accepted)
    && (w.dir.sorted ==> SortedBy(EntryBefore, Roster(w.dir.modifiers)))
  }

  lemma {:induction false} AcceptedNumbered(ops: seq<Op>)
    ensures |Accepted(ops)| <= MODIFIER_CAP
    ensures forall i :: 0 <= i < |Accepted(ops)| ==> Accepted(ops)[i].registeredAt == i
  {
    if ops == [] {
    } else {
      AcceptedNumbered(ops[..|ops| - 1]);
    }
  }

  lemma SettlesRoster(d: Dir, d': Dir)
    requires Settles(d, d') && (d.sorted ==> SortedBy(EntryBefore, Roster(d.modifiers)))
    ensures multiset(Roster(d'.modifiers)) == multiset(Roster(d.modifiers))
    ensures SortedBy(EntryBefore, Roster(d'.modifiers))
    ensures |d'.modifiers| == |d.modifiers|
  {
    if !d.sorted {
      MapMultiset(EntryOf, d.modifiers, d'.modifiers);
      assert |multiset(d.modifiers)| == |multiset(d'.modifiers)|;
    }
  }

  lemma FrameRoster(a: Actors, d: Dir, e: Entity, now: U64)
    requires FrameOn(a, d, e, now).FrameDone?
    ensures var r := FrameOn(a, d, e, now);
            && Roster(r.dir.modifiers) == Roster(d.modifiers) && r.calls == Map(Number, Roster(d.modifiers))
            && SkillRoster(r.dir.skills) == SkillRoster(d.skills)
            && r.dir.sorted == d.sorted && r.dir.nextRegistration == d.nextRegistration
  {
    var e0 := e.(tick := StampFor(d, now), events := {});
    ModifierPassKeeps(a, d.modifiers, e0);
    SkillPassKeeps(a, d.skills, ModifierPass(a, d.modifiers, e0).entity);
  }

  lemma ScheduledFrame(a: Actors, w: World, now: U64, w': World, accepted: seq<Entry>)
    requires FrameStep(a, w, now, w') && Scheduled(w, accepted)
    ensures Scheduled(w', accepted) && SortedBy(EntryBefore, Roster(w'.dir.modifiers))
    ensures w'.calls == w.calls + [Map(Number, Roster(w'.dir.modifiers))]
  {
    var d: Dir, calls: seq<nat> :| Settles(w.dir, d) &&
      FrameOn(a, d, w.entity, now) == FrameDone(w'.dir, w'.entity, calls) && w'.calls == w.calls + [calls];
    SettlesRoster(w.dir, d);
    FrameRoster(a, d, w.entity, now);
    hide FrameOn, SortedBy, EntryBefore;
    assert |w'.dir.modifiers| == |Roster(w'.dir.modifiers)| == |Roster(d.modifiers)| == |d.modifiers|;
  }

  lemma ScheduledAdd(w: World, m: Modifier, ops: seq<Op>)
    requires Scheduled(w, Accepted(ops))
    ensures Scheduled(w.(dir := WithModifier(w.dir, m)), Accepted(ops + [AddModifier(m)]))
  {
    assert (ops + [AddModifier(m)])[..|ops|] == ops;
    var slot := Slot(w.dir.nextRegistration, m);
    MapAppend(EntryOf, w.dir.modifiers, [slot]);
    assert Roster([slot]) == [EntryOf(slot)];
    hide SortedBy, EntryBefore;
  }

  lemma ScheduledStep(a: Actors, w: World, op: Op, w': World, ops: seq<Op>)
    requires Next(a, w, op, w') && Scheduled(w, Accepted(ops))
    ensures Scheduled(w', Accepted(ops + [op]))
    ensures op.RunFrame? ==>
              && SortedBy(EntryBefore, Roster(w'.dir.modifiers))
              && w'.calls == w.calls + [Map(Number, Roster(w'.dir.modifiers))]
  {
    assert (ops + [op])[..|ops|] == ops;
    hide FrameStep, SortedBy, EntryBefore, Roster;
    match op
    case AddModifier(m) => ScheduledAdd(w, m, ops);
    case RunFrame(now) => ScheduledFrame(a, w, now, w', Accepted(ops));
    case _ =>
  }

  lemma {:induction false} ScheduledAlways(a: Actors, ws: seq<World>, ops: seq<Op>)
    requires Trace(a, ws, ops)
    ensures Scheduled(ws[|ops|], Accepted(ops))
  {
    if ops == [] {
    } else {
      var n := |ops| - 1;
      TracePrefix(a, ws, ops, n);
      ScheduledAlways(a, ws[..n + 1], ops[..n]);
      ScheduledStep(a, ws[n], ops[n], ws[n + 1], ops[..n]);
      assert ops[..n] + [ops[n]] == ops;
    }
  }

  predicate StrictlyBefore(a: Entry, b: Entry) { EntryBefore(a, b) && !EntryBefore(b, a) }

  /** The schedule's order, spelled out: earlier phase; within it lower priority; within that earlier
      registration. */
  lemma ScheduleOrder(a: Entry, b: Entry)
    ensures StrictlyBefore(a, b) <==>
            || Listed(a.meta.phase, b.meta.phase)
            || (a.meta.phase == b.meta.phase &&
                (a.meta.priority < b.meta.priority ||
                 (a.meta.priority == b.meta.priority && a.registeredAt < b.registeredAt)))
  {
    PhasesAsListed(a.meta.phase, b.meta.phase);
    PhasesAsListed(b.meta.phase, a.meta.phase);
    hide Rank, Listed;
  }

  lemma AcceptedDistinct(ops: seq<Op>)
    ensures Distinct(Accepted(ops))
    ensures forall a, b :: a in Accepted(ops) && b in Accepted(ops) && EntryBefore(a, b) && EntryBefore(b, a) ==> a == b
  {
    AcceptedNumbered(ops);
  }

  /** `called` names every accepted modifier once, by its registration number, in strictly
      increasing (phase, priority, registration) order. */
  ghost predicate IsSchedule(accepted: seq<Entry>, called: seq<nat>) {
    && |called| == |accepted|
    && (forall k :: 0 <= k < |called| ==> called[k] < |accepted|)
    && (forall p, q :: 0 <= p < q < |called| ==> StrictlyBefore(accepted[called[p]], accepted[called[q]]))
    && (forall n :: 0 <= n < |accepted| ==> n in called)
  }

  /** Each frame of each run calls the modifiers accepted so far on their schedule. */
  lemma ScheduleComplete(a: Actors, ws: seq<World>, ops: seq<Op>, i: nat)
    requires Trace(a, ws, ops) && i < |ops| && ops[i].RunFrame?
    ensures |ws[i + 1].calls| == |ws[i].calls| + 1 && ws[i].calls <= ws[i + 1].calls
    ensures IsSchedule(Accepted(ops[..i]), ws[i + 1].calls[|ws[i].calls|])
  {
    TracePrefix(a, ws, ops, i);
    ScheduledAlways(a, ws[..i + 1], ops[..i]);
    ScheduledStep(a, ws[i], ops[i], ws[i + 1], ops[..i]);
    assert (ops[..i] + [ops[i]])[..i] == ops[..i];
    RosterIsSchedule(ops[..i], Roster(ws[i + 1].dir.modifiers));
  }

  lemma RosterIsSchedule(ops: seq<Op>, roster: seq<Entry>)
    requires multiset(roster) == multiset(Accepted(ops)) && SortedBy(EntryBefore, roster)
    ensures IsSchedule(Accepted(ops), Map(Number, roster))
  {
    var accepted, called := Accepted(ops), Map(Number, roster);
    assert |roster| == |multiset(roster)| == |multiset(accepted)| == |accepted|;
    AcceptedNumbered(ops);
    AcceptedDistinct(ops);
    DistinctPermutation(accepted, roster);
    forall k | 0 <= k < |called| ensures called[k] < |accepted| {
      NumberFindsEntry(ops, roster, k);
    }
    forall p, q | 0 <= p < q < |called| ensures StrictlyBefore(accepted[called[p]], accepted[called[q]]) {
      NumberFindsEntry(ops, roster, p);
      NumberFindsEntry(ops, roster, q);
    }
    forall n | 0 <= n < |accepted| ensures n in called {
      assert accepted[n] in multiset(roster);
      var k :| 0 <= k < |roster| && roster[k] == accepted[n];
      assert called[k] == n;
    }
  }

  lemma NumberFindsEntry(ops: seq<Op>, roster: seq<Entry>, k: nat)
    requires multiset(roster) == multiset(Accepted(ops)) && k < |roster|
    ensures roster[k].registeredAt < |Accepted(ops)| && Accepted(ops)[roster[k].registeredAt] == roster[k]
  {
    AcceptedNumbered(ops);
    assert roster[k] in multiset(Accepted(ops));
  }

  /** The run order is a function of the registrations alone: whatever the actors do, whatever the
      firmware writes and however the unstable sorts break ties, two runs of the same program make
      the same calls in every frame. */
  lemma {:induction false} ScheduleDeterministic(a: Actors, ws: seq<World>, b: Actors, vs: seq<World>, ops: seq<Op>)
    requires Trace(a, ws, ops) && Trace(b, vs, ops)
    ensures ws[|ops|].calls == vs[|ops|].calls
  {
    if ops == [] {
    } else {
      var n := |ops| - 1;
      TracePrefix(a, ws, ops, n);
      TracePrefix(b, vs, ops, n);
      ScheduleDeterministic(a, ws[..n + 1], b, vs[..n + 1], ops[..n]);
      ScheduledAlways(a, ws[..n + 1], ops[..n]);
      ScheduledAlways(b, vs[..n + 1], ops[..n]);
      ScheduledStep(a, ws[n], ops[n], ws[n + 1], ops[..n]);
      ScheduledStep(b, vs[n], ops[n], vs[n + 1], ops[..n]);
      if ops[n].RunFrame? {
        assert ops[..n] + [ops[n]] == ops;
        AcceptedDistinct(ops);
        var r := Roster(ws[n + 1].dir.modifiers);
        assert forall x :: x in r ==> x in multiset(r) && x in Accepted(ops);
        SortUnique(EntryBefore, r, Roster(vs[n + 1].dir.modifiers));
      }
    }
  }

  // ---- Write confinement ----

  ghost predicate Undeclared(d: Dir, f: Field) {
    && (forall s :: s in d.modifiers ==> f !in s.modifier.meta.writes)
    && (forall s :: s in d.skills ==> f !in s.meta.writes)
  }

  lemma {:induction false} ModifierPassConfined(a: Actors, slots: seq<Slot>, e: Entity, f: Field)
    requires a.checked && ModifierPass(a, slots, e).ModifiersDone?
    requires forall s :: s in slots ==> f !in s.modifier.meta.writes
    ensures Seen(ModifierPass(a, slots, e).entity, f) == Seen(e, f)
  {
    if slots == [] {
    } else {
      var m := slots[0].modifier;
      var (memory, e') := a.update(m.id, m.memory, e);
      OnlyWritesCovers(e, e', m.meta.writes, f);
      ModifierPassConfined(a, slots[1..], e', f);
    }
  }

  lemma {:induction false} SkillPassConfined(a: Actors, skills: seq<Skill>, e: Entity, f: Field)
    requires a.checked && SkillPass(a, skills, e).SkillsDone? && forall s :: s in skills ==> f !in s.meta.writes
    ensures Seen(SkillPass(a, skills, e).entity, f) == Seen(e, f)
  {
    if skills == [] {
    } else {
      var s := skills[0];
      if a.shouldFire(s.id, s.memory, e) {
        var (memory, e') := a.invoke(s.id, s.memory, e);
        OnlyWritesCovers(e, e', s.meta.writes, f);
        SkillPassConfined(a, skills[1..], e', f);
      } else {
        SkillPassConfined(a, skills[1..], e, f);
      }
    }
  }

  lemma UndeclaredBySkillRoster(d: Dir, d': Dir, f: Field)
    requires Roster(d.modifiers) == Roster(d'.modifiers) && SkillRoster(d.skills) == SkillRoster(d'.skills)
    requires Undeclared(d', f)
    ensures Undeclared(d, f)
  {
    forall s | s in d.modifiers ensures f !in s.modifier.meta.writes {
      var i :| 0 <= i < |d.modifiers| && d.modifiers[i] == s;
      assert Roster(d.modifiers)[i] == Roster(d'.modifiers)[i] == EntryOf(d'.modifiers[i]);
    }
    forall s | s in d.skills ensures f !in s.meta.writes {
      var i :| 0 <= i < |d.skills| && d.skills[i] == s;
      assert SkillRoster(d.skills)[i] == SkillRoster(d'.skills)[i] == SkillEntryOf(d'.skills[i]);
    }
  }

  lemma UndeclaredUnsettled(d: Dir, d': Dir, f: Field)
    requires Settles(d, d') && Undeclared(d', f)
    ensures Undeclared(d, f)
  {
    if d != d' {
      assert forall s :: s in d.modifiers ==> s in multiset(d.modifiers) && s in multiset(d'.modifiers);
      assert forall s :: s in d.skills ==> s in multiset(d.skills) && s in multiset(d'.skills);
    }
  }

  lemma FrameConfined(a: Actors, d: Dir, e: Entity, now: U64, f: Field)
    requires a.checked && FrameOn(a, d, e, now).FrameDone? && Undeclared(d, f)
    ensures Seen(FrameOn(a, d, e, now).entity, f) == Seen(e, f)
  {
    hide ModifierPass, SkillPass, StampFor;
    var e0 := e.(tick := StampFor(d, now), events := {});
    assert Seen(e0, f) == Seen(e, f);
    hide Seen;
    ModifierPassConfined(a, d.modifiers, e0, f);
    SkillPassConfined(a, d.skills, ModifierPass(a, d.modifiers, e0).entity, f);
  }

  lemma ConfinedStep(a: Actors, w: World, op: Op, w': World, f: Field)
    requires a.checked && Next(a, w, op, w') && Undeclared(w'.dir, f)
    requires op.Firmware? ==> Seen(op.entity, f) == Seen(w.entity, f)
    ensures Undeclared(w.dir, f) && Seen(w'.entity, f) == Seen(w.entity, f)
  {
    if op.RunFrame? {
      var d: Dir, calls: seq<nat> :| Settles(w.dir, d) &&
        FrameOn(a, d, w.entity, op.now) == FrameDone(w'.dir, w'.entity, calls);
      FrameRoster(a, d, w.entity, op.now);
      hide FrameOn, Settles, Undeclared, Seen;
      UndeclaredBySkillRoster(d, w'.dir, f);
      UndeclaredUnsettled(w.dir, d, f);
      FrameConfined(a, d, w.entity, op.now, f);
    }
  }

  /** What can be seen of a tracked field that no registered actor declares stays as it is through
      any run in which the firmware does not write it either. */
  lemma {:induction false} WriteConfinement(a: Actors, ws: seq<World>, ops: seq<Op>, f: Field)
    requires a.checked && Trace(a, ws, ops) && Undeclared(ws[|ops|].dir, f)
    requires forall i :: 0 <= i < |ops| && ops[i].Firmware? ==> Seen(ops[i].entity, f) == Seen(ws[i].entity, f)
    ensures Seen(ws[|ops|].entity, f) == Seen(ws[0].entity, f)
  {
    if ops == [] {
    } else {
      var n := |ops| - 1;
      ConfinedStep(a, ws[n], ops[n], ws[n + 1], f);
      TracePrefix(a, ws, ops, n);
      WriteConfinement(a, ws[..n + 1], ops[..n], f);
    }
  }

  ghost predicate InLane(skills: seq<Skill>) {
    forall i :: 0 <= i < |skills| ==> LaneOk(skills[i].meta.writes)
  }

  lemma InLaneStep(a: Actors, w: World, op: Op, w': World)
    requires a.checked && Next(a, w, op, w') && InLane(w.dir.skills)
    ensures InLane(w'.dir.skills)
  {
    if op.RunFrame? {
      var d: Dir, calls: seq<nat> :| Settles(w.dir, d) &&
        FrameOn(a, d, w.entity, op.now) == FrameDone(w'.dir, w'.entity, calls);
      FrameRoster(a, d, w.entity, op.now);
      InLaneSettled(w.dir, d);
      forall i | 0 <= i < |w'.dir.skills| ensures LaneOk(w'.dir.skills[i].meta.writes) {
        assert SkillRoster(w'.dir.skills)[i] == SkillRoster(d.skills)[i] == SkillEntryOf(d.skills[i]);
      }
    }
  }

  lemma InLaneSettled(d: Dir, d': Dir)
    requires Settles(d, d') && InLane(d.skills)
    ensures InLane(d'.skills)
  {
    if d != d' {
      forall i | 0 <= i < |d'.skills| ensures LaneOk(d'.skills[i].meta.writes) {
        assert d'.skills[i] in multiset(d'.skills) && d'.skills[i] in multiset(d.skills);
        var j :| 0 <= j < |d.skills| && d.skills[j] == d'.skills[i];
      }
    }
  }

  lemma {:induction false} InLaneAlways(a: Actors, ws: seq<World>, ops: seq<Op>)
    requires a.checked && Trace(a, ws, ops)
    ensures InLane(ws[|ops|].dir.skills)
  {
    if ops == [] {
    } else {
      var n := |ops| - 1;
      TracePrefix(a, ws, ops, n);
      InLaneAlways(a, ws[..n + 1], ops[..n]);
      InLaneStep(a, ws[n], ops[n], ws[n + 1]);
    }
  }

  /** In every frame of every run the skill pass leaves what can be seen of each Face, Motor,
      Perception, Input and Output field as the modifiers left it. */
  lemma SkillsKeepTheirLane(a: Actors, ws: seq<World>, ops: seq<Op>, d: Dir, e: Entity, f: Field)
    requires a.checked && Trace(a, ws, ops) && Settles(ws[|ops|].dir, d) && SkillPass(a, d.skills, e).SkillsDone?
    requires Group(f) != Mind && Group(f) != Voice
    ensures Seen(SkillPass(a, d.skills, e).entity, f) == Seen(e, f)
  {
    InLaneAlways(a, ws, ops);
    InLaneSettled(ws[|ops|].dir, d);
    forall s | s in d.skills ensures f !in s.meta.writes {
      var i :| 0 <= i < |d.skills| && d.skills[i] == s;
    }
    SkillPassConfined(a, d.skills, e, f);
  }
}
