/** The per-frame orchestrator (crates/stackchan-core/src/director.rs), built with debug
    assertions or without: bounded registries, a lazily sorted schedule, the write contract and the
    clock. */
module Director {
  import opened MachineInts
  import opened Options
  import opened Ordering

  const MODIFIER_CAP: nat := 48
  const SKILL_CAP: nat := 16

  datatype Phase =
    | PerceptionPhase | CognitionPhase | AffectPhase | SpeechPhase | ExpressionPhase
    | DecorationPhase | MotionPhase | AudioPhase | OutputPhase

  datatype FieldGroup = Face | Motor | Perception | Mind | Voice | Input | Output

  datatype Field =
    | LeftEyePhase | LeftEyeWeight | LeftEyeOpenWeight | LeftEyeCenter
    | RightEyePhase | RightEyeWeight | RightEyeOpenWeight | RightEyeCenter
    | MouthWeight | MouthOpen | MouthCenter | EyeCurve | MouthCurve | CheekBlush
    | EyeScale | BlinkRateScale | BreathDepthScale | Decorator | Bubble | BatteryOverlay
    | HeadPose | HeadPoseActual
    | AccelG | GyroDps | AmbientLux | BatteryPercent | UsbPowerPresent | AudioRms
    | TxLipSync | BodyTouch | Tracking
    | Emotion | Autonomy | Intent | Attention | Engagement | Dormancy | Mood | Gesture
    | LedOverride
    | ChirpRequest | UtteranceRequest | IsSpeaking
    | TapPending | RemotePending | RemoteCommand | DanceScript

  /** The list the write check walks, in the source's order. */
  const ALL_FIELDS: seq<Field> :=
    [LeftEyePhase, LeftEyeWeight, LeftEyeOpenWeight, LeftEyeCenter]
    + [RightEyePhase, RightEyeWeight, RightEyeOpenWeight, RightEyeCenter]
    + [MouthWeight, MouthOpen, MouthCenter, EyeCurve, MouthCurve, CheekBlush]
    + [EyeScale, BlinkRateScale, BreathDepthScale, Decorator, Bubble, BatteryOverlay]
    + [HeadPose, HeadPoseActual]
    + [AccelG, GyroDps, AmbientLux, BatteryPercent, UsbPowerPresent, AudioRms]
    + [TxLipSync, BodyTouch, Tracking]
    + [Emotion, Autonomy, Intent, Attention, Engagement, Dormancy, Mood]
    + [ChirpRequest, UtteranceRequest, IsSpeaking, Gesture]
    + [TapPending, RemotePending, RemoteCommand, DanceScript, LedOverride]

  /** Every variant is in the list: one left out would go unchecked. */
  lemma AllFieldsListed(f: Field)
    ensures f in ALL_FIELDS
  {
  }

  function Group(f: Field): FieldGroup {
    match f
    case LeftEyePhase | LeftEyeWeight | LeftEyeOpenWeight | LeftEyeCenter
       | RightEyePhase | RightEyeWeight | RightEyeOpenWeight | RightEyeCenter
       | MouthWeight | MouthOpen | MouthCenter | EyeCurve | MouthCurve | CheekBlush
       | EyeScale | BlinkRateScale | BreathDepthScale | Decorator | Bubble | BatteryOverlay => Face
    case HeadPose | HeadPoseActual => Motor
    case AccelG | GyroDps | AmbientLux | BatteryPercent | UsbPowerPresent | AudioRms
       | TxLipSync | BodyTouch | Tracking => Perception
    case Emotion | Autonomy | Intent | Attention | Engagement | Dormancy | Mood | Gesture => Mind
    case ChirpRequest | UtteranceRequest | IsSpeaking => Voice
    case TapPending | RemotePending | RemoteCommand | DanceScript => Input
    case LedOverride => Output
  }

  // ---- Entities and actors ----

  datatype Tick = Tick(now: U64, dtMs: U32, frame: U64)

  /** An f32 by its bit pattern, with the two kinds that IEEE comparison treats specially apart. */
  datatype Float = Zero(negative: bool) | Number(bits: U32) | NaN(bits: U32)

  /** What a tracked field holds: its floats in order, and everything else about it. */
  datatype Value = Value(exact: int, floats: seq<Float>)

  /** `fields` holds the tracked surface, `untracked` the rest (palette, geometry, radii). */
  datatype Entity = Entity(fields: map<Field, Value>, untracked: int, events: set<nat>, tick: Tick)

  function ValueOf(e: Entity, f: Field): Option<Value> {
    if f in e.fields then Some(e.fields[f]) else None
  }

  /** The fields whose types carry floats and that the source compares with a derived `PartialEq`;
      every other float is compared by its bits. */
  predicate FloatCompared(f: Field) {
    f == Tracking || f == Attention || f == Engagement || f == RemoteCommand || f == DanceScript
  }

  /** IEEE equality: the zeros are equal and no NaN equals anything. */
  predicate FloatEq(a: Float, b: Float) { !a.NaN? && !b.NaN? && (a == b || (a.Zero? && b.Zero?)) }

  predicate PartialEq(v: Value, w: Value) {
    && v.exact == w.exact && |v.floats| == |w.floats|
    && forall i :: 0 <= i < |v.floats| ==> FloatEq(v.floats[i], w.floats[i])
  }

  predicate Changed(f: Field, before: Entity, after: Entity) {
    var v, w := ValueOf(before, f), ValueOf(after, f);
    if FloatCompared(f) && v.Some? && w.Some? then !PartialEq(v.value, w.value) else v != w
  }

  /** The debug-mode write contract, over the listed fields as the source walks them. */
  predicate OnlyWrites(before: Entity, after: Entity, declared: seq<Field>) {
    forall f :: f in ALL_FIELDS ==> !Changed(f, before, after) || f in declared
  }

  // ---- What the write check sees ----

  function Unsigned(x: Float): Float { if x.Zero? then Zero(false) else x }

  /** A field's value up to what its comparison cannot see: the sign of a zero in the fields
      compared as floats, nothing in the others. */
  function Seen(e: Entity, f: Field): Option<Value> {
    var v := ValueOf(e, f);
    if FloatCompared(f) && v.Some? then Some(Value(v.value.exact, Map(Unsigned, v.value.floats))) else v
  }

  /** A NaN that IEEE comparison would look at. */
  predicate HasNaN(e: Entity, f: Field) {
    FloatCompared(f) && ValueOf(e, f).Some? && exists x :: x in ValueOf(e, f).value.floats && x.NaN?
  }

  lemma PartialEqIff(v: Value, w: Value)
    ensures PartialEq(v, w)
       <==> && v.exact == w.exact && Map(Unsigned, v.floats) == Map(Unsigned, w.floats)
            && forall x :: x in v.floats ==> !x.NaN?
  {
    var s, t := Map(Unsigned, v.floats), Map(Unsigned, w.floats);
    if PartialEq(v, w) {
      forall i | 0 <= i < |s| ensures s[i] == t[i] {
        assert FloatEq(v.floats[i], w.floats[i]);
      }
    } else if v.exact == w.exact && s == t && forall x :: x in v.floats ==> !x.NaN? {
      forall i | 0 <= i < |v.floats| ensures FloatEq(v.floats[i], w.floats[i]) {
        assert s[i] == t[i] && v.floats[i] in v.floats;
      }
    }
  }

  /** A field counts as changed exactly when what is seen of it differs, or a NaN is in it: then it
      counts as changed even if nobody wrote it. */
  lemma ChangedIff(f: Field, before: Entity, after: Entity)
    ensures Changed(f, before, after) <==> Seen(before, f) != Seen(after, f) || HasNaN(before, f)
  {
    var v, w := ValueOf(before, f), ValueOf(after, f);
    if FloatCompared(f) && v.Some? && w.Some? {
      PartialEqIff(v.value, w.value);
    }
  }

  /** In every field but five, any difference counts, a flipped sign and a changed NaN included. */
  lemma OthersByBits(f: Field, before: Entity, after: Entity)
    requires f != Tracking && f != Attention && f != Engagement && f != RemoteCommand && f != DanceScript
    ensures Changed(f, before, after) <==> ValueOf(before, f) != ValueOf(after, f)
  {
    hide ValueOf;
  }

  /** The check walks a list, yet it covers every field there is: it passes if and only if nothing
      undeclared is seen to differ and no undeclared float is a NaN. */
  lemma OnlyWritesIff(before: Entity, after: Entity, declared: seq<Field>)
    ensures OnlyWrites(before, after, declared)
       <==> forall f :: f in declared || (Seen(before, f) == Seen(after, f) && !HasNaN(before, f))
  {
    forall f ensures f in ALL_FIELDS {
      AllFieldsListed(f);
    }
    forall f ensures Changed(f, before, after) <==> Seen(before, f) != Seen(after, f) || HasNaN(before, f) {
      ChangedIff(f, before, after);
    }
    hide Changed, Seen, HasNaN;
  }

  lemma OnlyWritesCovers(before: Entity, after: Entity, declared: seq<Field>, f: Field)
    requires OnlyWrites(before, after, declared) && f !in declared
    ensures Seen(before, f) == Seen(after, f)
  {
    OnlyWritesIff(before, after, declared);
    hide OnlyWrites, Seen, HasNaN;
  }

  function With(e: Entity, f: Field, v: Value): Entity { e.(fields := e.fields[f := v]) }

  lemma SeenAt(e: Entity, f: Field, v: Value)
    requires FloatCompared(f) && forall x :: x in v.floats ==> !x.NaN?
    ensures Seen(With(e, f, v), f) == Some(Value(v.exact, Map(Unsigned, v.floats))) && !HasNaN(With(e, f, v), f)
  {
  }

  lemma SeenElsewhere(e: Entity, f: Field, v: Value, g: Field)
    requires g != f
    ensures Seen(With(e, f, v), g) == Seen(e, g) && HasNaN(With(e, f, v), g) == HasNaN(e, g)
  {
    assert ValueOf(With(e, f, v), g) == ValueOf(e, g);
  }

  /** What the check cannot see: an undeclared write that flips the sign of a zero, anywhere in a
      field compared as floats, passes it. */
  lemma SignOfZeroPasses(e: Entity, f: Field, v: Value, i: nat, declared: seq<Field>)
    requires f == Tracking || f == Attention || f == Engagement || f == RemoteCommand || f == DanceScript
    requires i < |v.floats| && v.floats[i].Zero? && forall x :: x in v.floats ==> !x.NaN?
    requires forall g :: g != f && HasNaN(e, g) ==> g in declared
    ensures var before := With(e, f, v);
            var after := With(e, f, v.(floats := v.floats[i := Zero(!v.floats[i].negative)]));
            OnlyWrites(before, after, declared) && ValueOf(before, f) != ValueOf(after, f)
  {
    var flipped := v.(floats := v.floats[i := Zero(!v.floats[i].negative)]);
    FlipUnseen(v.floats, i);
    UnseenPasses(e, f, v, flipped, declared);
    hide OnlyWrites, HasNaN, FloatCompared;
  }

  /** Two values that look the same, one after the other in one field. */
  lemma UnseenPasses(e: Entity, f: Field, v: Value, w: Value, declared: seq<Field>)
    requires FloatCompared(f) && v.exact == w.exact && Map(Unsigned, v.floats) == Map(Unsigned, w.floats)
    requires (forall x :: x in v.floats ==> !x.NaN?) && forall x :: x in w.floats ==> !x.NaN?
    requires forall g :: g != f && HasNaN(e, g) ==> g in declared
    ensures OnlyWrites(With(e, f, v), With(e, f, w), declared)
  {
    SeenAt(e, f, v);
    SeenAt(e, f, w);
    OnlyWritesIff(With(e, f, v), With(e, f, w), declared);
    hide OnlyWrites, Seen, HasNaN, With, FloatCompared, Map;
    forall g | g != f
      ensures Seen(With(e, f, v), g) == Seen(With(e, f, w), g) && HasNaN(With(e, f, v), g) == HasNaN(e, g)
    {
      SeenElsewhere(e, f, v, g);
      SeenElsewhere(e, f, w, g);
    }
  }

  lemma FlipUnseen(s: seq<Float>, i: nat)
    requires i < |s| && s[i].Zero?
    ensures var t := s[i := Zero(!s[i].negative)];
            && t[i] != s[i] && Map(Unsigned, t) == Map(Unsigned, s)
            && ((forall x :: x in s ==> !x.NaN?) ==> forall x :: x in t ==> !x.NaN?)
  {
  }

  datatype ModifierMeta = ModifierMeta(name: string, phase: Phase, priority: I8, writes: seq<Field>)

  datatype SkillMeta = SkillMeta(name: string, priority: U8, writes: seq<Field>)

  /** An actor is known by `id`; `memory` encodes its private state. */
  datatype Modifier = Modifier(id: nat, meta: ModifierMeta, memory: int)

  datatype Skill = Skill(id: nat, meta: SkillMeta, memory: int)

  datatype Slot = Slot(registeredAt: U16, modifier: Modifier)

  /** What the actors do: arbitrary transformers of their own memory and the entity. `checked` says
      whether the build has debug assertions, and with them the two checks on the actors. */
  datatype Actors = Actors(
    checked: bool,
    update: (nat, int, Entity) -> (int, Entity),
    shouldFire: (nat, int, Entity) -> bool,
    invoke: (nat, int, Entity) -> (int, Entity))

  /** A write that stops the build at hand. */
  predicate Breaks(a: Actors, before: Entity, after: Entity, declared: seq<Field>) {
    a.checked && !OnlyWrites(before, after, declared)
  }

  // ---- The director's value and its operations ----

  datatype Dir = Dir(modifiers: seq<Slot>, skills: seq<Skill>, sorted: bool, frame: U64,
                     lastNow: Option<U64>, nextRegistration: U16)

  const EMPTY: Dir := Dir([], [], false, 0, None, 0)

  function Rank(p: Phase): nat {
    match p
    case PerceptionPhase => 10
    case CognitionPhase => 20
    case AffectPhase => 30
    case SpeechPhase => 40
    case ExpressionPhase => 50
    case DecorationPhase => 55
    case MotionPhase => 60
    case AudioPhase => 70
    case OutputPhase => 80
  }

  /** The phases as the source lists them. */
  const PHASES: seq<Phase> :=
    [PerceptionPhase, CognitionPhase, AffectPhase, SpeechPhase, ExpressionPhase]
    + [DecorationPhase, MotionPhase, AudioPhase, OutputPhase]

  /** `p` is listed before `q`. */
  ghost predicate Listed(p: Phase, q: Phase) {
    exists i, j :: 0 <= i < j < |PHASES| && PHASES[i] == p && PHASES[j] == q
  }

  function Place(p: Phase): (i: nat)
    ensures i < |PHASES| && PHASES[i] == p && forall j :: 0 <= j < |PHASES| && PHASES[j] == p ==> j == i
  {
    match p
    case PerceptionPhase => 0
    case CognitionPhase => 1
    case AffectPhase => 2
    case SpeechPhase => 3
    case ExpressionPhase => 4
    case DecorationPhase => 5
    case MotionPhase => 6
    case AudioPhase => 7
    case OutputPhase => 8
  }

  lemma RankByPlace(p: Phase, q: Phase)
    ensures Rank(p) < Rank(q) <==> Place(p) < Place(q)
    ensures Rank(p) == Rank(q) <==> p == q
  {
  }

  /** Phases run in their listed order, whatever numbers stand for them. */
  lemma PhasesAsListed(p: Phase, q: Phase)
    ensures Rank(p) < Rank(q) <==> Listed(p, q)
    ensures Rank(p) == Rank(q) <==> p == q
  {
    RankByPlace(p, q);
    hide Rank;
    if Place(p) < Place(q) {
      assert PHASES[Place(p)] == p && PHASES[Place(q)] == q;
    }
  }

  /** The (phase, priority, registration) sort key's order. */
  predicate KeyBefore(a: ModifierMeta, aAt: nat, b: ModifierMeta, bAt: nat) {
    var p, q := Rank(a.phase), Rank(b.phase);
    p < q || (p == q && (a.priority < b.priority || (a.priority == b.priority && aAt <= bAt)))
  }

  predicate RunsBefore(a: Slot, b: Slot) {
    KeyBefore(a.modifier.meta, a.registeredAt, b.modifier.meta, b.registeredAt)
  }

  /** Higher priorities fire first. */
  predicate MetaFiresBefore(a: SkillMeta, b: SkillMeta) { a.priority >= b.priority }

  predicate FiresBefore(a: Skill, b: Skill) { MetaFiresBefore(a.meta, b.meta) }

  predicate LaneOk(writes: seq<Field>) {
    forall f :: f in writes ==> Group(f) == Mind || Group(f) == Voice
  }

  /** What a skill may declare, by name. */
  predicate Allowed(f: Field) {
    f.Emotion? || f.Autonomy? || f.Intent? || f.Attention? || f.Engagement? || f.Dormancy? || f.Mood?
    || f.Gesture? || f.ChirpRequest? || f.UtteranceRequest? || f.IsSpeaking?
  }

  lemma GroupByName(f: Field)
    ensures Group(f) == Mind || Group(f) == Voice <==> Allowed(f)
  {
  }

  lemma LaneByName(writes: seq<Field>)
    ensures LaneOk(writes) <==> forall f :: f in writes ==> Allowed(f)
  {
    forall f ensures Group(f) == Mind || Group(f) == Voice <==> Allowed(f) {
      GroupByName(f);
    }
    hide Group, Allowed;
  }

  function SaturatingInc(x: int, max: int): int { if x < max then x + 1 else max }

  function WithModifier(d: Dir, m: Modifier): Dir {
    if |d.modifiers| < MODIFIER_CAP
    then d.(modifiers := d.modifiers + [Slot(d.nextRegistration, m)],
            nextRegistration := SaturatingInc(d.nextRegistration, U16_MAX), sorted := false)
    else d
  }

  function WithSkill(d: Dir, s: Skill): Dir {
    if |d.skills| < SKILL_CAP then d.(skills := d.skills + [s]) else d
  }

  /** The lazy sort at the head of a run. Neither sort is stable. */
  ghost predicate Settles(d: Dir, d': Dir) {
    if d.sorted then d' == d else
      && d' == d.(modifiers := d'.modifiers, skills := d'.skills, sorted := true)
      && IsSortOf(RunsBefore, d.modifiers, d'.modifiers)
      && IsSortOf(FiresBefore, d.skills, d'.skills)
  }

  function DtMs(lastNow: Option<U64>, now: U64): U32 {
    if lastNow.None? || now <= lastNow.value then 0 else Min(now - lastNow.value, U32_MAX)
  }

  function StampFor(d: Dir, now: U64): Tick {
    Tick(now, DtMs(d.lastNow, now), SaturatingInc(d.frame, U64_MAX))
  }

  /** `calls` lists, in order, the registration numbers whose `update` ran. A violation keeps what
      the actors did up to and including the one that broke its contract. */
  datatype ModifierRun = ModifiersDone(slots: seq<Slot>, entity: Entity, calls: seq<nat>)
                       | ModifierViolation(actor: string, slots: seq<Slot>, entity: Entity)

  function ModifierPass(a: Actors, slots: seq<Slot>, e: Entity): ModifierRun {
    if slots == [] then ModifiersDone([], e, []) else
      var m := slots[0].modifier;
      var (memory, e') := a.update(m.id, m.memory, e);
      var head := Slot(slots[0].registeredAt, m.(memory := memory));
      if Breaks(a, e, e', m.meta.writes) then ModifierViolation(m.meta.name, [head] + slots[1..], e')
      else Prefixed([head], [slots[0].registeredAt], ModifierPass(a, slots[1..], e'))
  }

  function Prefixed(slots: seq<Slot>, calls: seq<nat>, r: ModifierRun): ModifierRun {
    match r
    case ModifiersDone(more, e, moreCalls) => ModifiersDone(slots + more, e, calls + moreCalls)
    case ModifierViolation(actor, more, e) => ModifierViolation(actor, slots + more, e)
  }

  lemma PrefixedTwice(s: seq<Slot>, p: seq<nat>, t: seq<Slot>, q: seq<nat>, r: ModifierRun)
    ensures Prefixed(s, p, Prefixed(t, q, r)) == Prefixed(s + t, p + q, r)
  {
    assert s + (t + r.slots) == s + t + r.slots;
    assert r.ModifiersDone? ==> p + (q + r.calls) == p + q + r.calls;
  }

  lemma PrefixedStart(r: ModifierRun)
    ensures Prefixed([], [], r) == r
  {
    assert [] + r.slots == r.slots && (r.ModifiersDone? ==> [] + r.calls == r.calls);
  }

  lemma PrefixedEnd(a: Actors, slots: seq<Slot>, calls: seq<nat>, e: Entity)
    ensures Prefixed(slots, calls, ModifierPass(a, [], e)) == ModifiersDone(slots, e, calls)
  {
    assert slots + [] == slots && calls + [] == calls;
  }

  /** Handling the head of `rest` moves it to the end of `done`. */
  lemma ModifierPassStep(a: Actors, done: seq<Slot>, calls: seq<nat>, rest: seq<Slot>, e: Entity)
    requires rest != []
    ensures var m, at := rest[0].modifier, rest[0].registeredAt;
            var (memory, e') := a.update(m.id, m.memory, e);
            var head := Slot(at, m.(memory := memory));
            Prefixed(done, calls, ModifierPass(a, rest, e)) ==
            if Breaks(a, e, e', m.meta.writes) then ModifierViolation(m.meta.name, done + [head] + rest[1..], e')
            else Prefixed(done + [head], calls + [at], ModifierPass(a, rest[1..], e'))
  {
    var m, at := rest[0].modifier, rest[0].registeredAt;
    var (memory, e') := a.update(m.id, m.memory, e);
    var head := Slot(at, m.(memory := memory));
    assert done + ([head] + rest[1..]) == done + [head] + rest[1..];
    PrefixedTwice(done, calls, [head], [at], ModifierPass(a, rest[1..], e'));
    hide Breaks;
  }

  /** What a whole pass makes of a pass over its first part: a violation there keeps the rest
      untouched, otherwise the rest runs on. */
  function Continued(a: Actors, r: ModifierRun, t: seq<Slot>): ModifierRun {
    match r
    case ModifierViolation(actor, slots, e) => ModifierViolation(actor, slots + t, e)
    case ModifiersDone(slots, e, calls) => Prefixed(slots, calls, ModifierPass(a, t, e))
  }

  lemma ContinuedPrefixed(a: Actors, s: seq<Slot>, p: seq<nat>, r: ModifierRun, t: seq<Slot>)
    ensures Prefixed(s, p, Continued(a, r, t)) == Continued(a, Prefixed(s, p, r), t)
  {
    hide ModifierPass;
    match r
    case ModifierViolation(_, slots, _) => assert s + (slots + t) == s + slots + t;
    case ModifiersDone(slots, e, calls) => PrefixedTwice(s, p, slots, calls, ModifierPass(a, t, e));
  }

  /** A pass by its first modifier. */
  lemma ModifierPassHead(a: Actors, slots: seq<Slot>, e: Entity)
    requires slots != []
    ensures var m, at := slots[0].modifier, slots[0].registeredAt;
            var (memory, e') := a.update(m.id, m.memory, e);
            var head := Slot(at, m.(memory := memory));
            ModifierPass(a, slots, e) ==
            if Breaks(a, e, e', m.meta.writes) then ModifierViolation(m.meta.name, [head] + slots[1..], e')
            else Prefixed([head], [at], ModifierPass(a, slots[1..], e'))
  {
    hide Breaks, Prefixed;
  }

  lemma ContinuedFromStart(a: Actors, t: seq<Slot>, e: Entity)
    ensures Continued(a, ModifiersDone([], e, []), t) == ModifierPass(a, t, e)
  {
    var r := ModifierPass(a, t, e);
    hide ModifierPass;
    assert [] + r.slots == r.slots && (r.ModifiersDone? ==> [] + r.calls == r.calls);
  }

  lemma ContinuedViolation(a: Actors, actor: string, head: Slot, more: seq<Slot>, t: seq<Slot>, e: Entity)
    ensures Continued(a, ModifierViolation(actor, [head] + more, e), t)
         == ModifierViolation(actor, [head] + (more + t), e)
  {
    hide ModifierPass;
    assert [head] + (more + t) == [head] + more + t;
  }

  /** A pass cut anywhere: the later modifiers start from exactly the entity the earlier ones left,
      and the first broken contract ends it. */
  lemma {:induction false} ModifierPassSplit(a: Actors, s: seq<Slot>, t: seq<Slot>, e: Entity)
    ensures ModifierPass(a, s + t, e) == Continued(a, ModifierPass(a, s, e), t)
  {
    hide Breaks, Prefixed, Continued;
    if s == [] {
      assert s + t == t && ModifierPass(a, s, e) == ModifiersDone([], e, []);
      ContinuedFromStart(a, t, e);
    } else {
      hide ModifierPass;
      var m, at := s[0].modifier, s[0].registeredAt;
      var (memory, e') := a.update(m.id, m.memory, e);
      var head := Slot(at, m.(memory := memory));
      ModifierPassSplit(a, s[1..], t, e');
      ModifierPassHead(a, s, e);
      ModifierPassHead(a, s + t, e);
      assert (s + t)[0] == s[0] && (s + t)[1..] == s[1..] + t;
      if !Breaks(a, e, e', m.meta.writes) {
        ContinuedPrefixed(a, [head], [at], ModifierPass(a, s[1..], e'), t);
      } else {
        ContinuedViolation(a, m.meta.name, head, s[1..], t, e');
      }
    }
  }

  datatype SkillRun = SkillsDone(skills: seq<Skill>, entity: Entity)
                    | SkillViolation(actor: string, skills: seq<Skill>, entity: Entity)

  function SkillPass(a: Actors, skills: seq<Skill>, e: Entity): SkillRun {
    if skills == [] then SkillsDone([], e) else
      var s := skills[0];
      if !a.shouldFire(s.id, s.memory, e) then SkillPrefixed([s], SkillPass(a, skills[1..], e)) else
        var (memory, e') := a.invoke(s.id, s.memory, e);
        var head := s.(memory := memory);
        if Breaks(a, e, e', s.meta.writes) then SkillViolation(s.meta.name, [head] + skills[1..], e')
        else SkillPrefixed([head], SkillPass(a, skills[1..], e'))
  }

  function SkillPrefixed(skills: seq<Skill>, r: SkillRun): SkillRun {
    match r
    case SkillsDone(more, e) => SkillsDone(skills + more, e)
    case SkillViolation(actor, more, e) => SkillViolation(actor, skills + more, e)
  }

  lemma SkillPrefixedTwice(s: seq<Skill>, t: seq<Skill>, r: SkillRun)
    ensures SkillPrefixed(s, SkillPrefixed(t, r)) == SkillPrefixed(s + t, r)
  {
    assert s + (t + r.skills) == s + t + r.skills;
  }

  lemma SkillPrefixedStart(r: SkillRun)
    ensures SkillPrefixed([], r) == r
  {
    assert [] + r.skills == r.skills;
  }

  lemma SkillPrefixedEnd(a: Actors, skills: seq<Skill>, e: Entity)
    ensures SkillPrefixed(skills, SkillPass(a, [], e)) == SkillsDone(skills, e)
  {
    assert skills + [] == skills;
  }

  /** Handling the head of `rest` moves it to the end of `done`. */
  lemma SkillPassStep(a: Actors, done: seq<Skill>, rest: seq<Skill>, e: Entity)
    requires rest != []
    ensures var s := rest[0];
            SkillPrefixed(done, SkillPass(a, rest, e)) ==
            if !a.shouldFire(s.id, s.memory, e) then SkillPrefixed(done + [s], SkillPass(a, rest[1..], e)) else
              var (memory, e') := a.invoke(s.id, s.memory, e);
              var head := s.(memory := memory);
              if Breaks(a, e, e', s.meta.writes) then SkillViolation(s.meta.name, done + [head] + rest[1..], e')
              else SkillPrefixed(done + [head], SkillPass(a, rest[1..], e'))
  {
    var s := rest[0];
    var (memory, e') := a.invoke(s.id, s.memory, e);
    var fires := a.shouldFire(s.id, s.memory, e);
    var head, next := if fires then s.(memory := memory) else s, if fires then e' else e;
    assert done + ([head] + rest[1..]) == done + [head] + rest[1..];
    SkillPrefixedTwice(done, [head], SkillPass(a, rest[1..], next));
    hide Breaks;
  }

  /** Likewise for skills: whether one fires is decided on the entity the earlier ones left. */
  lemma {:induction false} SkillPassSplit(a: Actors, s: seq<Skill>, t: seq<Skill>, e: Entity)
    ensures SkillPass(a, s + t, e) ==
            match SkillPass(a, s, e)
            case SkillViolation(actor, skills, e') => SkillViolation(actor, skills + t, e')
            case SkillsDone(skills, e') => SkillPrefixed(skills, SkillPass(a, t, e'))
  {
    if s == [] {
      assert s + t == t;
      SkillPrefixedTwice([], [], SkillPass(a, t, e));
    } else {
      var (memory, e') := a.invoke(s[0].id, s[0].memory, e);
      var fires := a.shouldFire(s[0].id, s[0].memory, e);
      var next, head := if fires then e' else e, if fires then s[0].(memory := memory) else s[0];
      SkillPassSplit(a, s[1..], t, next);
      assert (s + t)[1..] == s[1..] + t;
      var rest := SkillPass(a, s[1..], next);
      hide Breaks;
      assert [head] + (s[1..] + t) == [head] + s[1..] + t && [head] + (rest.skills + t) == [head] + rest.skills + t;
      if rest.SkillsDone? {
        SkillPrefixedTwice([head], rest.skills, SkillPass(a, t, rest.entity));
      }
    }
  }

  datatype FrameRun = FrameDone(dir: Dir, entity: Entity, calls: seq<nat>)
                    | Violation(actor: string, dir: Dir, entity: Entity)

  /** One frame over a settled registry. A violation stops it where it happens, with the frame
      counted and the clock not yet moved on. */
  function FrameOn(a: Actors, d: Dir, e: Entity, now: U64): FrameRun {
    var stamp := StampFor(d, now);
    var counted := d.(frame := stamp.frame);
    match ModifierPass(a, d.modifiers, e.(tick := stamp, events := {}))
    case ModifierViolation(actor, slots, e1) => Violation(actor, counted.(modifiers := slots), e1)
    case ModifiersDone(slots, e1, calls) =>
      match SkillPass(a, d.skills, e1)
      case SkillViolation(actor, skills, e2) => Violation(actor, counted.(modifiers := slots, skills := skills), e2)
      case SkillsDone(skills, e2) =>
        FrameDone(counted.(modifiers := slots, skills := skills, lastNow := Some(now)), e2, calls)
  }

  // ---- The director itself ----

  datatype AddResult = Added | RegistryFull | LanePanic

  datatype RunResult = Ran | Panicked(actor: string)

  class Director {
    var modifiers: seq<Slot>
    var skills: seq<Skill>
    var sorted: bool
    var frame: U64
    var lastNow: Option<U64>
    var nextRegistration: U16

    function Snapshot(): Dir
      reads this
    {
      Dir(modifiers, skills, sorted, frame, lastNow, nextRegistration)
    }

    constructor ()
      ensures Snapshot() == EMPTY
    {
      modifiers, skills, sorted := [], [], false;
      frame, lastNow, nextRegistration := 0, None, 0;
    }

    method AddModifier(m: Modifier) returns (r: AddResult)
      modifies this
      ensures Snapshot() == WithModifier(old(Snapshot()), m)
      ensures r == if |old(modifiers)| < 48 then Added else RegistryFull
    {
      if |modifiers| >= MODIFIER_CAP {
        return RegistryFull;
      }
      modifiers := modifiers + [Slot(nextRegistration, m)];
      nextRegistration := SaturatingInc(nextRegistration, U16_MAX);
      sorted := false;
      return Added;
    }

    /** The lane check, in a build that has it, comes before the capacity check. `sorted` is left
        alone. */
    method AddSkill(checked: bool, s: Skill) returns (r: AddResult)
      modifies this
      ensures r == if checked && !LaneOk(s.meta.writes) then LanePanic
                   else if |old(skills)| < 16 then Added else RegistryFull
      ensures Snapshot() == if r == LanePanic then old(Snapshot()) else WithSkill(old(Snapshot()), s)
    {
      if checked && !LaneOk(s.meta.writes) {
        return LanePanic;
      }
      if |skills| >= SKILL_CAP {
        return RegistryFull;
      }
      skills := skills + [s];
      return Added;
    }

    /** One frame: settle the registries, stamp the tick, clear the events, run both passes. */
    method Run(a: Actors, entity: Entity, now: U64)
      returns (entity': Entity, r: RunResult, ghost settled: Dir, ghost calls: seq<nat>)
      modifies this
      ensures Settles(old(Snapshot()), settled)
      ensures match r
              case Ran => FrameOn(a, settled, entity, now) == FrameDone(Snapshot(), entity', calls)
              case Panicked(actor) => FrameOn(a, settled, entity, now) == Violation(actor, Snapshot(), entity')
    {
      if !sorted {
        SlotOrderIsTotal();
        modifiers := SortUnstableBy(RunsBefore, modifiers);
        skills := SortUnstableBy(FiresBefore, skills);
        sorted := true;
      }
      settled, calls := Snapshot(), [];
      frame := SaturatingInc(frame, U64_MAX);
      entity' := entity.(tick := Tick(now, DtMs(lastNow, now), frame), events := {});
      entity', r, calls := UpdateModifiers(a, entity');
      if r.Panicked? {
        return;
      }
      entity', r := InvokeSkills(a, entity');
      if r.Panicked? {
        return;
      }
      lastNow := Some(now);
    }

    /** The modifier loop of `Run`. */
    method UpdateModifiers(a: Actors, entity: Entity) returns (entity': Entity, r: RunResult, ghost calls: seq<nat>)
      modifies this`modifiers
      ensures match r
              case Ran => ModifierPass(a, old(modifiers), entity) == ModifiersDone(modifiers, entity', calls)
              case Panicked(actor) =>
                ModifierPass(a, old(modifiers), entity) == ModifierViolation(actor, modifiers, entity')
    {
      hide ModifierPass, Prefixed, Breaks;
      entity', calls := entity, [];
      var i := 0;
      PrefixedStart(ModifierPass(a, modifiers, entity));
      assert modifiers[..0] == [] && modifiers[0..] == modifiers;
      while i < |modifiers|
        invariant 0 <= i <= |modifiers|
        invariant ModifierPass(a, old(modifiers), entity)
               == Prefixed(modifiers[..i], calls, ModifierPass(a, modifiers[i..], entity'))
      {
        var m := modifiers[i].modifier;
        ModifierPassStep(a, modifiers[..i], calls, modifiers[i..], entity');
        var before := entity';
        var (memory, after) := a.update(m.id, m.memory, entity');
        var head := Slot(modifiers[i].registeredAt, m.(memory := memory));
        Splice(modifiers, i, head);
        modifiers := modifiers[i := head];
        entity' := after;
        if Breaks(a, before, after, m.meta.writes) {
          return entity', Panicked(m.meta.name), calls;
        }
        calls := calls + [head.registeredAt];
        i := i + 1;
      }
      assert modifiers[..i] == modifiers && modifiers[i..] == [];
      PrefixedEnd(a, modifiers, calls, entity');
      r := Ran;
    }

    /** The skill loop of `Run`. */
    method InvokeSkills(a: Actors, entity: Entity) returns (entity': Entity, r: RunResult)
      modifies this`skills
      ensures match r
              case Ran => SkillPass(a, old(skills), entity) == SkillsDone(skills, entity')
              case Panicked(actor) => SkillPass(a, old(skills), entity) == SkillViolation(actor, skills, entity')
    {
      hide SkillPass, SkillPrefixed, Breaks;
      entity' := entity;
      var i := 0;
      SkillPrefixedStart(SkillPass(a, skills, entity));
      assert skills[..0] == [] && skills[0..] == skills;
      while i < |skills|
        invariant 0 <= i <= |skills|
        invariant SkillPass(a, old(skills), entity) == SkillPrefixed(skills[..i], SkillPass(a, skills[i..], entity'))
      {
        var s := skills[i];
        SkillPassStep(a, skills[..i], skills[i..], entity');
        Splice(skills, i, s);
        assert skills[i := s] == skills;
        if a.shouldFire(s.id, s.memory, entity') {
          var before := entity';
          var (memory, after) := a.invoke(s.id, s.memory, entity');
          Splice(skills, i, s.(memory := memory));
          skills := skills[i := s.(memory := memory)];
          entity' := after;
          if Breaks(a, before, after, s.meta.writes) {
            return entity', Panicked(s.meta.name);
          }
        }
        i := i + 1;
      }
      assert skills[..i] == skills && skills[i..] == [];
      SkillPrefixedEnd(a, skills, entity');
      r := Ran;
    }
  }

  /** Replacing element `i`, cut at `i` and just after it. */
  lemma Splice<T>(s: seq<T>, i: nat, x: T)
    requires i < |s|
    ensures var t := s[i := x];
            && t[..i + 1] == s[..i] + [x] && t[i + 1..] == s[i..][1..] && s[i..][0] == s[i]
            && t == s[..i] + [x] + s[i..][1..]
  {
  }

  lemma SlotOrderIsTotal()
    ensures TotalPreorder(RunsBefore) && TotalPreorder(FiresBefore)
  {
  }
}
