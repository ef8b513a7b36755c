/** The order in which skills fire, over whole runs, and when it makes the run a function of the
    program: registering a skill, unlike registering a modifier, does not ask for a new sort. */
module DirectorSkills {
  import opened MachineInts
  import opened Ordering
  import opened Director
  import opened DirectorRuns

  // ---- What the program alone determines ----

  /** The accepted skills, in the order of their registration. */
  function AcceptedSkills(ops: seq<Op>): (s: seq<SkillEntry>)
    ensures |s| <= SKILL_CAP
  {
    if ops == [] then [] else
      var earlier, op := AcceptedSkills(ops[..|ops| - 1]), ops[|ops| - 1];
      if op.AddSkill? && |earlier| < SKILL_CAP then earlier + [SkillEntryOf(op.s)] else earlier
  }

  /** Will the next frame sort: no frame yet, or a modifier accepted since the last one. */
  predicate SortPending(ops: seq<Op>) {
    ops == [] ||
    var earlier, op := ops[..|ops| - 1], ops[|ops| - 1];
    !op.RunFrame? && (SortPending(earlier) || (op.AddModifier? && |Accepted(earlier)| < MODIFIER_CAP))
  }

  /** How many skills were registered when the skills were last sorted. */
  function LastSorted(ops: seq<Op>): nat {
    if ops == [] then 0 else
      var earlier, op := ops[..|ops| - 1], ops[|ops| - 1];
      if op.RunFrame? && SortPending(earlier) then |AcceptedSkills(earlier)| else LastSorted(earlier)
  }

  // ---- The order ----

  predicate EntryFiresBefore(a: SkillEntry, b: SkillEntry) { MetaFiresBefore(a.meta, b.meta) }

  /** The first `n` accepted skills sorted, and the rest as they came. */
  ghost predicate SortedThenLate(roster: seq<SkillEntry>, accepted: seq<SkillEntry>, n: nat) {
    && n <= |accepted| == |roster|
    && multiset(roster[..n]) == multiset(accepted[..n])
    && SortedBy(EntryFiresBefore, roster[..n])
    && roster[n..] == accepted[n..]
  }

  ghost predicate SkillsKnown(w: World, ops: seq<Op>) {
    && w.sortedSkills == LastSorted(ops)
    && (w.dir.sorted <==> !SortPending(ops))
    && |w.dir.modifiers| == |Accepted(ops)|
    && SortedThenLate(SkillRoster(w.dir.skills), AcceptedSkills(ops), LastSorted(ops))
  }

  lemma RosterPermutation(roster: seq<SkillEntry>, accepted: seq<SkillEntry>, n: nat)
    requires SortedThenLate(roster, accepted, n)
    ensures multiset(roster) == multiset(accepted)
  {
    assert roster == roster[..n] + roster[n..] && accepted == accepted[..n] + accepted[n..];
  }

  lemma SettledSkills(d: Dir, d': Dir)
    requires Settles(d, d')
    ensures |d'.modifiers| == |d.modifiers|
    ensures d'.sorted
    ensures d.sorted ==> d' == d
    ensures !d.sorted ==>
              && multiset(SkillRoster(d'.skills)) == multiset(SkillRoster(d.skills))
              && SortedBy(EntryFiresBefore, SkillRoster(d'.skills))
  {
    if !d.sorted {
      MapMultiset(SkillEntryOf, d.skills, d'.skills);
      assert |d'.modifiers| == |multiset(d'.modifiers)| == |multiset(d.modifiers)| == |d.modifiers|;
    }
  }

  lemma SortAll(roster: seq<SkillEntry>, accepted: seq<SkillEntry>)
    requires multiset(roster) == multiset(accepted) && SortedBy(EntryFiresBefore, roster)
    ensures SortedThenLate(roster, accepted, |accepted|)
  {
    assert |roster| == |multiset(roster)| == |multiset(accepted)| == |accepted|;
    assert roster[..|accepted|] == roster && accepted[..|accepted|] == accepted;
  }

  lemma FrameKnown(a: Actors, w: World, now: U64, w': World, ops: seq<Op>)
    requires FrameStep(a, w, now, w') && SkillsKnown(w, ops)
    ensures SkillsKnown(w', ops + [RunFrame(now)])
  {
    hide FrameOn, Settles, SortedThenLate;
    var d: Dir, calls: seq<nat> :| Settles(w.dir, d) &&
      FrameOn(a, d, w.entity, now) == FrameDone(w'.dir, w'.entity, calls) &&
      w'.sortedSkills == if w.dir.sorted then w.sortedSkills else |w.dir.skills|;
    FrameRoster(a, d, w.entity, now);
    SettledKnown(w, d, w'.sortedSkills, ops);
    SameRosters(d, w'.dir);
    assert (ops + [RunFrame(now)])[..|ops|] == ops;
  }

  lemma SameRosters(d: Dir, d': Dir)
    requires Roster(d.modifiers) == Roster(d'.modifiers)
    ensures |d.modifiers| == |d'.modifiers|
  {
    assert |Roster(d.modifiers)| == |d.modifiers| && |Roster(d'.modifiers)| == |d'.modifiers|;
  }

  /** The registry that the passes of a frame run over. */
  lemma SettledKnown(w: World, d: Dir, sortedSkills: nat, ops: seq<Op>)
    requires SkillsKnown(w, ops) && Settles(w.dir, d)
    requires sortedSkills == if w.dir.sorted then w.sortedSkills else |w.dir.skills|
    ensures d.sorted && |d.modifiers| == |Accepted(ops)|
    ensures sortedSkills == if SortPending(ops) then |AcceptedSkills(ops)| else LastSorted(ops)
    ensures SortedThenLate(SkillRoster(d.skills), AcceptedSkills(ops), sortedSkills)
  {
    var accepted := AcceptedSkills(ops);
    SettledSkills(w.dir, d);
    RosterPermutation(SkillRoster(w.dir.skills), accepted, LastSorted(ops));
    SkillsCounted(w, ops);
    hide Settles, SortedBy, SortedThenLate, LastSorted, Accepted, AcceptedSkills;
    if !w.dir.sorted {
      SortAll(SkillRoster(d.skills), accepted);
    }
  }

  lemma LateSkill(roster: seq<SkillEntry>, accepted: seq<SkillEntry>, n: nat, s: SkillEntry)
    requires SortedThenLate(roster, accepted, n)
    ensures SortedThenLate(roster + [s], accepted + [s], n)
  {
    assert (roster + [s])[..n] == roster[..n] && (accepted + [s])[..n] == accepted[..n];
    assert (roster + [s])[n..] == roster[n..] + [s] && (accepted + [s])[n..] == accepted[n..] + [s];
  }

  lemma KnownStep(a: Actors, w: World, op: Op, w': World, ops: seq<Op>)
    requires Next(a, w, op, w') && SkillsKnown(w, ops)
    ensures SkillsKnown(w', ops + [op])
  {
    assert (ops + [op])[..|ops|] == ops;
    hide FrameStep, SortedThenLate;
    match op
    case RunFrame(now) => FrameKnown(a, w, now, w', ops);
    case AddSkill(s) =>
      assert |w.dir.skills| == |SkillRoster(w.dir.skills)|;
      assert |SkillRoster(w.dir.skills)| == |AcceptedSkills(ops)| by {
        SkillsCounted(w, ops);
      }
      if |w.dir.skills| < SKILL_CAP {
        LateSkill(SkillRoster(w.dir.skills), AcceptedSkills(ops), LastSorted(ops), SkillEntryOf(s));
        MapAppend(SkillEntryOf, w.dir.skills, [s]);
        assert SkillRoster([s]) == [SkillEntryOf(s)];
      }
    case _ =>
  }

  lemma SkillsCounted(w: World, ops: seq<Op>)
    requires SkillsKnown(w, ops)
    ensures |SkillRoster(w.dir.skills)| == |AcceptedSkills(ops)|
  {
  }

  /** In every run the skills that the last sort saw are exactly those accepted before it, in
      descending priority, and the ones registered since follow in the order they came. */
  lemma {:induction false} SkillsOrderedAlways(a: Actors, ws: seq<World>, ops: seq<Op>)
    requires Trace(a, ws, ops)
    ensures SkillsKnown(ws[|ops|], ops)
  {
    if ops == [] {
      assert SkillRoster([]) == [];
    } else {
      var n := |ops| - 1;
      TracePrefix(a, ws, ops, n);
      SkillsOrderedAlways(a, ws[..n + 1], ops[..n]);
      KnownStep(a, ws[n], ops[n], ws[n + 1], ops[..n]);
      assert ops[..n] + [ops[n]] == ops;
    }
  }

  /** No skill from position `n` on outranks one registered before it. */
  ghost predicate NoneOutranked(accepted: seq<SkillEntry>, n: nat) {
    forall i, j :: 0 <= i < j < |accepted| && n <= j ==> EntryFiresBefore(accepted[i], accepted[j])
  }

  lemma RegistryOrderIff(a: Actors, ws: seq<World>, ops: seq<Op>)
    requires Trace(a, ws, ops)
    ensures SortedBy(EntryFiresBefore, SkillRoster(ws[|ops|].dir.skills))
       <==> NoneOutranked(AcceptedSkills(ops), LastSorted(ops))
  {
    SkillsOrderedAlways(a, ws, ops);
    hide SortedThenLate, NoneOutranked, SortedBy, Trace;
    var roster, accepted, n := SkillRoster(ws[|ops|].dir.skills), AcceptedSkills(ops), LastSorted(ops);
    if SortedBy(EntryFiresBefore, roster) {
      OrderedThenNone(roster, accepted, n);
    }
    if NoneOutranked(accepted, n) {
      NoneThenOrdered(roster, accepted, n);
    }
  }

  /** The next frame of any run fires its skills in descending priority if and only if it is due to
      sort, or no skill registered since the last sort outranks one registered before it: the exact
      cost of not sorting again. */
  lemma SkillOrderIff(a: Actors, ws: seq<World>, ops: seq<Op>, d: Dir)
    requires Trace(a, ws, ops) && Settles(ws[|ops|].dir, d)
    ensures SortedBy(EntryFiresBefore, SkillRoster(d.skills))
       <==> SortPending(ops) || NoneOutranked(AcceptedSkills(ops), LastSorted(ops))
  {
    SkillsOrderedAlways(a, ws, ops);
    RegistryOrderIff(a, ws, ops);
    SettledSkills(ws[|ops|].dir, d);
    hide SortedThenLate, NoneOutranked, SortedBy, Trace, Settles, SortPending;
  }

  /** The same in numbers: priorities fall, or stay, from each skill that fires to the next. */
  lemma SkillsDescendIff(a: Actors, ws: seq<World>, ops: seq<Op>, d: Dir)
    requires Trace(a, ws, ops) && Settles(ws[|ops|].dir, d)
    ensures (forall i, j :: 0 <= i < j < |d.skills| ==> d.skills[i].meta.priority >= d.skills[j].meta.priority)
       <==> SortPending(ops) || forall i, j :: 0 <= i < j < |AcceptedSkills(ops)| && LastSorted(ops) <= j ==>
              AcceptedSkills(ops)[i].meta.priority >= AcceptedSkills(ops)[j].meta.priority
  {
    SkillOrderIff(a, ws, ops, d);
    RosterPriorities(d.skills);
    NoneOutrankedInNumbers(AcceptedSkills(ops), LastSorted(ops));
    hide Trace, Settles, SortPending, LastSorted, AcceptedSkills, SortedBy, NoneOutranked;
  }

  lemma RosterPriorities(skills: seq<Skill>)
    ensures SortedBy(EntryFiresBefore, SkillRoster(skills)) <==>
            forall i, j :: 0 <= i < j < |skills| ==> skills[i].meta.priority >= skills[j].meta.priority
  {
    var r := SkillRoster(skills);
    forall i, j | 0 <= i < j < |skills|
      ensures EntryFiresBefore(r[i], r[j]) <==> skills[i].meta.priority >= skills[j].meta.priority
    {
    }
  }

  lemma NoneOutrankedInNumbers(s: seq<SkillEntry>, n: nat)
    ensures NoneOutranked(s, n) <==>
            forall i, j :: 0 <= i < j < |s| && n <= j ==> s[i].meta.priority >= s[j].meta.priority
  {
    forall i, j | 0 <= i < j < |s|
      ensures EntryFiresBefore(s[i], s[j]) <==> s[i].meta.priority >= s[j].meta.priority
    {
    }
  }

  lemma SameLate(roster: seq<SkillEntry>, accepted: seq<SkillEntry>, n: nat, k: nat)
    requires SortedThenLate(roster, accepted, n) && n <= k < |roster|
    ensures roster[k] == accepted[k]
  {
    assert roster[n..][k - n] == accepted[n..][k - n];
  }

  lemma OrderedThenNone(roster: seq<SkillEntry>, accepted: seq<SkillEntry>, n: nat)
    requires SortedThenLate(roster, accepted, n) && SortedBy(EntryFiresBefore, roster)
    ensures NoneOutranked(accepted, n)
  {
    hide EntryFiresBefore;
    forall i, j | 0 <= i < j < |accepted| && n <= j ensures EntryFiresBefore(accepted[i], accepted[j]) {
      SameLate(roster, accepted, n, j);
      var k := i;
      if i < n {
        k := SamePlace(roster[..n], accepted[..n], i);
      } else {
        SameLate(roster, accepted, n, i);
      }
      assert roster[k] == accepted[i] && EntryFiresBefore(roster[k], roster[j]);
    }
  }

  lemma NoneThenOrdered(roster: seq<SkillEntry>, accepted: seq<SkillEntry>, n: nat)
    requires SortedThenLate(roster, accepted, n) && NoneOutranked(accepted, n)
    ensures SortedBy(EntryFiresBefore, roster)
  {
    hide EntryFiresBefore;
    forall i, j | 0 <= i < j < |roster| ensures EntryFiresBefore(roster[i], roster[j]) {
      if j < n {
        assert EntryFiresBefore(roster[..n][i], roster[..n][j]);
      } else {
        SameLate(roster, accepted, n, j);
        var k := i;
        if i < n {
          k := SamePlace(accepted[..n], roster[..n], i);
        } else {
          SameLate(roster, accepted, n, i);
        }
        assert accepted[k] == roster[i] && EntryFiresBefore(accepted[k], accepted[j]);
      }
    }
  }

  lemma SamePlace(s: seq<SkillEntry>, t: seq<SkillEntry>, i: nat) returns (k: nat)
    requires multiset(s) == multiset(t) && i < |t|
    ensures k < |s| && s[k] == t[i]
  {
    assert t[i] in multiset(s);
    k :| 0 <= k < |s| && s[k] == t[i];
  }

  // ---- When a run is a function of its program ----

  ghost predicate DistinctPriorities(s: seq<SkillEntry>) {
    forall i, j :: 0 <= i < j < |s| ==> s[i].meta.priority != s[j].meta.priority
  }

  lemma DistinctRoster(roster: seq<SkillEntry>, accepted: seq<SkillEntry>)
    requires DistinctPriorities(accepted) && multiset(roster) == multiset(accepted)
    ensures DistinctPriorities(roster)
  {
    forall i, j | 0 <= i < j < |accepted| ensures accepted[i] != accepted[j] {
      assert accepted[i].meta.priority != accepted[j].meta.priority;
    }
    DistinctPermutation(accepted, roster);
    forall i, j | 0 <= i < j < |roster| ensures roster[i].meta.priority != roster[j].meta.priority {
      var p := SamePlace(accepted, roster, i);
      var q := SamePlace(accepted, roster, j);
      assert accepted[p] == roster[i] != roster[j] == accepted[q];
      assert p < q || q < p;
    }
  }

  /** With no ties the sort at the head of a frame has one result. */
  lemma SettlesUnique(d: Dir, d1: Dir, d2: Dir)
    requires Settles(d, d1) && Settles(d, d2)
    requires Distinct(Roster(d.modifiers)) && DistinctPriorities(SkillRoster(d.skills))
    requires forall a, b ::
      a in Roster(d.modifiers) && b in Roster(d.modifiers) && EntryBefore(a, b) && EntryBefore(b, a) ==> a == b
    ensures d1 == d2
  {
    if !d.sorted {
      forall a, b | a in d.modifiers && b in d.modifiers && RunsBefore(a, b) && RunsBefore(b, a) ensures a == b {
        var i :| 0 <= i < |d.modifiers| && d.modifiers[i] == a;
        var j :| 0 <= j < |d.modifiers| && d.modifiers[j] == b;
        var p, q := Roster(d.modifiers)[i], Roster(d.modifiers)[j];
        assert EntryBefore(p, q) && EntryBefore(q, p) && p == q;
        assert i == j;
      }
      forall a, b | a in d.skills && b in d.skills && FiresBefore(a, b) && FiresBefore(b, a) ensures a == b {
        var i :| 0 <= i < |d.skills| && d.skills[i] == a;
        var j :| 0 <= j < |d.skills| && d.skills[j] == b;
        assert SkillRoster(d.skills)[i] == SkillEntryOf(a) && SkillRoster(d.skills)[j] == SkillEntryOf(b);
        assert i == j;
      }
      UniqueSort(RunsBefore, d.modifiers, d1.modifiers, d2.modifiers);
      UniqueSort(FiresBefore, d.skills, d1.skills, d2.skills);
    }
  }

  lemma UniqueSort<T(!new)>(le: (T, T) -> bool, s: seq<T>, t: seq<T>, u: seq<T>)
    requires IsSortOf(le, s, t) && IsSortOf(le, s, u)
    requires forall a, b :: a in s && b in s && le(a, b) && le(b, a) ==> a == b
    ensures t == u
  {
    assert forall x :: x in t ==> x in multiset(t) && x in multiset(s) && x in s;
    SortUnique(le, t, u);
  }

  lemma AcceptedSkillsPrefix(ops: seq<Op>)
    requires ops != [] && DistinctPriorities(AcceptedSkills(ops))
    ensures DistinctPriorities(AcceptedSkills(ops[..|ops| - 1]))
  {
    var earlier, all := AcceptedSkills(ops[..|ops| - 1]), AcceptedSkills(ops);
    assert forall i :: 0 <= i < |earlier| ==> earlier[i] == all[i];
  }

  lemma SortUniqueIn(w: World, ops: seq<Op>, d1: Dir, d2: Dir)
    requires Scheduled(w, Accepted(ops)) && SkillsKnown(w, ops) && DistinctPriorities(AcceptedSkills(ops))
    requires Settles(w.dir, d1) && Settles(w.dir, d2)
    ensures d1 == d2
  {
    RosterPermutation(SkillRoster(w.dir.skills), AcceptedSkills(ops), LastSorted(ops));
    DistinctRoster(SkillRoster(w.dir.skills), AcceptedSkills(ops));
    AcceptedDistinct(ops);
    DistinctPermutation(Accepted(ops), Roster(w.dir.modifiers));
    hide Settles, SortedBy, SortedThenLate, EntryBefore, DistinctPriorities, Distinct, LastSorted, AcceptedSkills;
    forall x | x in Roster(w.dir.modifiers) ensures x in Accepted(ops) {
      assert x in multiset(Roster(w.dir.modifiers));
    }
    SettlesUnique(w.dir, d1, d2);
  }

  lemma FrameDeterministic(a: Actors, w: World, now: U64, w1: World, w2: World, ops: seq<Op>)
    requires FrameStep(a, w, now, w1) && FrameStep(a, w, now, w2)
    requires Scheduled(w, Accepted(ops)) && SkillsKnown(w, ops) && DistinctPriorities(AcceptedSkills(ops))
    ensures w1 == w2
  {
    hide FrameOn, Settles, Scheduled, SkillsKnown, DistinctPriorities, StampFor, Accepted, AcceptedSkills;
    var d1: Dir, calls1: seq<nat> :| Settles(w.dir, d1) &&
      FrameOn(a, d1, w.entity, now) == FrameDone(w1.dir, w1.entity, calls1) &&
      w1.ticks == w.ticks + [StampFor(w.dir, now)] && w1.calls == w.calls + [calls1] &&
      w1.sortedSkills == if w.dir.sorted then w.sortedSkills else |w.dir.skills|;
    var d2: Dir, calls2: seq<nat> :| Settles(w.dir, d2) &&
      FrameOn(a, d2, w.entity, now) == FrameDone(w2.dir, w2.entity, calls2) &&
      w2.ticks == w.ticks + [StampFor(w.dir, now)] && w2.calls == w.calls + [calls2] &&
      w2.sortedSkills == if w.dir.sorted then w.sortedSkills else |w.dir.skills|;
    SortUniqueIn(w, ops, d1, d2);
  }

  /** When no two accepted skills share a priority the whole run is a function of the program and
      the actors: entity, ticks, calls, private memories and all. */
  lemma {:induction false} RunDeterministic(a: Actors, ws: seq<World>, vs: seq<World>, ops: seq<Op>)
    requires Trace(a, ws, ops) && Trace(a, vs, ops) && ws[0].entity == vs[0].entity
    requires DistinctPriorities(AcceptedSkills(ops))
    ensures ws[|ops|] == vs[|ops|]
  {
    if ops == [] {
      assert ws[0] == vs[0];
    } else {
      var n := |ops| - 1;
      TracePrefix(a, ws, ops, n);
      TracePrefix(a, vs, ops, n);
      AcceptedSkillsPrefix(ops);
      RunDeterministic(a, ws[..n + 1], vs[..n + 1], ops[..n]);
      if ops[n].RunFrame? {
        ScheduledAlways(a, ws[..n + 1], ops[..n]);
        SkillsOrderedAlways(a, ws[..n + 1], ops[..n]);
        FrameDeterministic(a, ws[n], ops[n].now, ws[n + 1], vs[n + 1], ops[..n]);
      }
    }
  }

  // ---- Why ties matter ----

  /** Skills that always fire and leave their own identity in the entity. */
  const SIGNING: Actors := Actors(
    true,
    (id, memory, e) => (memory, e),
    (id, memory, e) => true,
    (id: nat, memory: int, e: Entity) => (memory, e.(untracked := id)))

  lemma SigningFrame(d: Dir, s: Skill, t: Skill, now: U64)
    requires d.modifiers == [] && d.skills == [s, t]
    ensures var r := FrameOn(SIGNING, d, Entity(map[], 0, {}, Tick(0, 0, 0)), now);
            r.FrameDone? && r.entity.untracked == t.id
  {
    var e := Entity(map[], 0, {}, Tick(0, 0, 0)).(tick := StampFor(d, now), events := {});
    assert ModifierPass(SIGNING, [], e) == ModifiersDone([], e, []);
    var e1 := e.(untracked := s.id);
    var e2 := e1.(untracked := t.id);
    assert [s, t][1..] == [t] && [t][1..] == [];
    assert SkillPass(SIGNING, [], e2) == SkillsDone([], e2);
    assert SkillPass(SIGNING, [t], e1) == SkillsDone([t], e2);
    assert SkillPass(SIGNING, [s, t], e) == SkillsDone([s, t], e2);
  }

  const START: World := World(EMPTY, Entity(map[], 0, {}, Tick(0, 0, 0)), [], [], 0)

  lemma SigningTrace(s: Skill, t: Skill, now: U64, swap: bool) returns (ws: seq<World>)
    requires s.meta.priority == t.meta.priority && LaneOk(s.meta.writes) && LaneOk(t.meta.writes)
    ensures Trace(SIGNING, ws, [AddSkill(s), AddSkill(t), RunFrame(now)]) && ws[0] == START
    ensures ws[3].entity.untracked == if swap then s.id else t.id
  {
    hide FrameStep, LaneOk, Trace;
    var w1 := START.(dir := WithSkill(EMPTY, s));
    var w2 := w1.(dir := WithSkill(w1.dir, t));
    assert w2.dir.modifiers == [] && w2.dir.skills == [s, t] && !w2.dir.sorted;
    hide WithSkill;
    var w3 := SigningStep(w2, s, t, now, swap);
    ws := [START, w1, w2, w3];
    ThreeSteps(SIGNING, START, AddSkill(s), w1, AddSkill(t), w2, RunFrame(now), w3);
  }

  lemma SigningStep(w: World, s: Skill, t: Skill, now: U64, swap: bool) returns (w': World)
    requires s.meta.priority == t.meta.priority && w.entity == START.entity
    requires w.dir.modifiers == [] && w.dir.skills == [s, t] && !w.dir.sorted
    ensures FrameStep(SIGNING, w, now, w')
    ensures w'.entity.untracked == if swap then s.id else t.id
  {
    var first, second := if swap then t else s, if swap then s else t;
    var d := w.dir.(skills := [first, second], sorted := true);
    TiedSettles(w.dir, d, s, t, first, second);
    SigningFrame(d, first, second, now);
    var r := FrameOn(SIGNING, d, START.entity, now);
    hide FrameOn, Settles, StampFor;
    w' := World(r.dir, r.entity, w.ticks + [StampFor(w.dir, now)], w.calls + [r.calls], 2);
  }

  lemma TiedSettles(d: Dir, d': Dir, s: Skill, t: Skill, first: Skill, second: Skill)
    requires s.meta.priority == t.meta.priority && ((first == s && second == t) || (first == t && second == s))
    requires d.modifiers == [] && d.skills == [s, t] && !d.sorted
    requires d' == d.(skills := [first, second], sorted := true)
    ensures Settles(d, d')
  {
    assert multiset([s, t]) == multiset([first, second]);
  }

  lemma ThreeSteps(a: Actors, w0: World, op1: Op, w1: World, op2: Op, w2: World, op3: Op, w3: World)
    requires w0 == START && Next(a, w0, op1, w1) && Next(a, w1, op2, w2) && Next(a, w2, op3, w3)
    ensures Trace(a, [w0, w1, w2, w3], [op1, op2, op3])
  {
    hide Next;
  }

  /** Any two skills that tie make the run depend on the sort: two traces of one program, with the
      same start, that end in different entities. */
  lemma TiedSkillsDiverge(s: Skill, t: Skill, now: U64)
    requires s.meta.priority == t.meta.priority && s.id != t.id
    requires LaneOk(s.meta.writes) && LaneOk(t.meta.writes)
    ensures exists ws: seq<World>, vs: seq<World> ::
              && Trace(SIGNING, ws, [AddSkill(s), AddSkill(t), RunFrame(now)])
              && Trace(SIGNING, vs, [AddSkill(s), AddSkill(t), RunFrame(now)])
              && ws[0] == vs[0] && ws[3].entity != vs[3].entity
  {
    var ws := SigningTrace(s, t, now, false);
    var vs := SigningTrace(s, t, now, true);
    hide Next;
  }
}
