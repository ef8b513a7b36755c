# Verified models of the stackchan firmware

Machine-checked models of the host-testable engines and wire protocols of the stackchan robot
firmware: the streaming audio frontend, the frame orchestrator, the magnetometer's fixed-point
compensation, the mel filterbank, the servo, infrared and IMU protocols, two register-level
drivers, the motion tracker's blob labelling, and the face's integer kernels.
`dafny verify dfyconfig.toml` checks everything.

| module | models |
|---|---|
| `Frontend` | the 480-sample ring of the audio frontend, refined to "frame `k` is a function of samples `160k .. 160k+480`" |
| `Director`, `DirectorFrames`, `DirectorRuns`, `DirectorClock`, `DirectorSkills` | the director's registries, lazy sort, write contract and clock; one frame turn by turn; whole runs of it |
| `Bmm150` | trim parsing and X/Y/Z compensation with every cast, shift and checked operator written out |
| `Mel` | construction and application of the triangular filterbank, over the reals |
| `Scservo`, `ServoBus`, `ServoDrains` | the servo driver against an arbitrary peer; then against servos with memories, with writes drained and not |
| `IrNec` | the NEC encoder and the jitter-tolerant decoder |
| `Axp2101` | write-1-to-clear edge flags racing with the chip on a faulty bus |
| `Bmi270` | the chunked configuration upload, the status poll and the sensor configuration |
| `Py32` | read-modify-write calls on a register bank, refined to a plain device |
| `Tracker` | connected-component labelling by flood fill in the motion tracker |
| `FaceKernels` | the parabolic arc and the breath envelope |
| `MachineInts`, `Bits`, `Ordering`, `Options` | machine integers and Rust's operators; bitwise operators; what an unstable sort promises; optional values |

## How the models read

- Objects that the firmware mutates are classes with the same fields; each method is tied by its
  `ensures` to a function or transition of the old state, and the laws are proved of that function
  and of sequences of such transitions.
- Integers are unbounded in Dafny, so wrap-around, truncating division, saturation and narrowing
  are explicit. `Cargo.toml` lines 118 and 122 turn overflow checks on in every profile, so a
  checked operator that overflows is a panic, modelled as a result.
- Actors of the director are arbitrary functions of their private memory and the entity. The write
  contract and the skill lane check are debug assertions in the source, and the model covers builds
  with them and without. The schedule, clock, order and determinism laws hold in both; the
  confinement and lane laws need the checks. A panic ends a run.
- A tracked field holds its floats by bit pattern and everything else as one value. Each field is
  compared as the source compares it: IEEE equality in the five fields whose float-bearing types
  derive `PartialEq` (`Tracking`, `Attention`, `Engagement`, `RemoteCommand`, `DanceScript`), exactly
  in all others.
- Laws named `...InNumbers` state a model's constants, offsets and formulas by literal values, apart
  from the definitions that the driver and its specification share.
- The BMI270 chip forgets everything at a soft reset, takes uploads while one is open and power save
  is off, and starts with what is stored when the upload is closed.
- The PY32 chip may clear its refresh trigger between calls or inside one.
- Buses fail by a budget of transactions that still succeed (BMI270, PY32) or by a fate chosen per
  call (AXP2101). A servo reply that never comes, which the caller's timeout ends, is `NoResponse`.
- The model servos answer every command with one frame, as servos at the default
  status return level 2 do, act on a broadcast write, and never answer a broadcast.
- The frontend's pipeline after the window copy is one arbitrary function of the window, so the
  frame laws hold for whatever it computes.

## Where the code and its own words differ

The models follow the code. Each item is proved, by the member named.

- `XyIntermediatesFit`, `GuardFailures`: a comment says `temp3` fits i32 "in practice"
  (`crates/bmm150/src/lib.rs` lines 497-498). It always does; what can fail is the i16 narrowing and
  the checked i16 addition after it (lines 499-500). `XyExactIff` states exactly when they do not.
- `UninitialisedDriverPanics`: a test comment (lines 843-844 there) says a zero trim is treated as
  "div-by-zero to 0"; with a zero hall reading the division panics. Only the Z path has such a guard.
- `SkillOrderIff`: the `sorted` field is documented as cleared on registration
  (`crates/stackchan-core/src/director.rs` lines 564-566); registering a skill does not clear it.
- `SignOfZeroPasses`, `ChangedIff`: the write check is said to count any arithmetic change, 0.0 to
  -0.0 included (lines 365-367 there, for the mouth). In the five fields compared as floats the sign
  of a zero goes unnoticed, and a NaN nobody wrote fails the check.
- `StepRefinesIff`: setting the count is said to preserve the refresh trigger so that a refresh in
  flight is not cleared (`crates/py32/src/lib.rs` lines 162-163); if the chip finishes that refresh
  between the call's read and its write, the write starts another.
- `SkippedDrainThenPing`, `SkippedDrain`: undrained acknowledgements are said to hand later calls
  stale bytes (`crates/scservo/src/lib.rs` lines 304-306). A ping or an empty read of the same servo
  reports success on them.
- `LostClearLosesEdge`: a bus failure at the clear is documented as at worst a repeated edge
  (`crates/axp2101/src/lib.rs` lines 246-250 and 296-299); if the clear took effect and only its
  acknowledgement was lost, the edge is reported never. `PendingIsOwedIff` shows that this is the
  only way to lose one.
- `BurstWrite`: an oversized slice is said to fail with a bus error (`crates/bmi270/src/lib.rs`
  lines 417-420); the code returns success and writes nothing.
- `BlobReassembledIff`: the address comment (line 337 there) allows a high byte of 256, which does
  not fit; the largest one a valid blob needs is 252.

## Model

| member | source | states |
|---|---|---|
| Frontend.MelFrontend.PushSamples | crates/stackchan-audio-features/src/frontend.rs:138-142 | Pushing any chunk onto any reachable state emits exactly the frames by which the ideal output of the longer stream exceeds that of the shorter: frame `k` renders samples `160k .. 160k+480` since construction or reset, and a stream of `n` samples has none below 480 and `1 + (n-480)/160` from there |
| Frontend.MelFrontend.FeedOne | crates/stackchan-audio-features/src/frontend.rs:146-169 | One sample emits nothing or the one frame that the ideal stream gains; the ring, `head`, the fill count and the hop countdown stay functions of the samples heard, so no index leaves the ring and the countdown never underflows |
| Frontend.MelFrontend.Fill | crates/stackchan-audio-features/src/frontend.rs:147-158 | The priming phase keeps the state a function of the samples heard and emits the first window exactly when it is full |
| Frontend.MelFrontend.Slide | crates/stackchan-audio-features/src/frontend.rs:162-168 | The steady state, one overwrite per sample, keeps it too and emits the latest window exactly at the hop boundaries |
| Frontend.MelFrontend.Reset | crates/stackchan-audio-features/src/frontend.rs:175-180 | From any reachable state the whole state becomes the one construction builds, and nothing heard before can influence a later frame |
| Frontend.MelFrontend.EmitFrame | crates/stackchan-audio-features/src/frontend.rs:183-199 | The two copies out of the ring hand the pipeline exactly the last 480 samples, oldest first |
| Frontend.MelFrontend.constructor | crates/stackchan-audio-features/src/frontend.rs:119-129 | A fresh frontend has heard nothing and its concrete state says so |
| Frontend.PushAll | crates/stackchan-audio-features/src/frontend.rs:131-142 | A fresh frontend fed in any chunks emits the frames of the whole recording, whatever the cuts |
| Frontend.ChunkInvariance | crates/stackchan-audio-features/src/lib.rs:42-48 | For every partition of a stream, continuing from any earlier stream, the frames are those of one push |
| Frontend.EmittedCompose | crates/stackchan-audio-features/src/lib.rs:42-48 | Two pushes emit what their concatenation emits |
| Frontend.FramesExtend | crates/stackchan-audio-features/src/frontend.rs:131-142 | A longer stream never changes a frame already emitted |
| Frontend.FramesInNumbers | crates/stackchan-audio-features/src/lib.rs:42-48 | In numbers: no frame below 480 samples, one more every 160 from there, and frame `k` is rendered from samples `160k` to `160k + 480` |
| Frontend.TwentyMsCadence | crates/stackchan-audio-features/src/lib.rs:50-53 | With 320-sample chunks the first call emits nothing and each later call two frames, for ever |
| Frontend.RingStep | crates/stackchan-audio-features/src/frontend.rs:148-163 | Overwriting slot `n mod 480` and nothing else advances the ring by one sample, in both phases |
| Frontend.RingReorder | crates/stackchan-audio-features/src/frontend.rs:196-199 | Once primed, the ring read from `head` round to `head` is the last 480 samples in order |
| Frontend.FramesStep | crates/stackchan-audio-features/src/frontend.rs:149-168 | The ideal stream gains a frame exactly when the count is at least 480 and a multiple of 160, and that frame is the latest window |
| Frontend.PrimingStep | crates/stackchan-audio-features/src/frontend.rs:147-158 | While the ring fills a sample lands in the next free slot, `head` stays put, and the countdown starts with the first frame |
| Frontend.SteadyStep | crates/stackchan-audio-features/src/frontend.rs:162-168 | Once full a sample replaces the oldest, and the countdown, never below one, runs out exactly at the next boundary |
| Director.AllFieldsListed | crates/stackchan-core/src/director.rs:235-287 | The hand-kept list that the write check walks contains every field variant |
| Director.OnlyWritesCovers | crates/stackchan-core/src/director.rs:466-484 | After a passed check no undeclared field, listed or not, differs in anything the source's comparison can see |
| Director.OnlyWritesIff | crates/stackchan-core/src/director.rs:466-484 | The check passes if and only if every undeclared field is seen unchanged and holds no NaN that IEEE comparison would look at |
| Director.ChangedIff | crates/stackchan-core/src/director.rs:349-462 | A field counts as changed exactly when it differs, up to the sign of zeros in the five fields compared as floats, or when one of those holds a NaN, written or not |
| Director.SignOfZeroPasses | crates/stackchan-core/src/director.rs:349-462 | In any of those five fields, whatever else it holds, an undeclared write that flips the sign of one zero passes the check |
| Director.OthersByBits | crates/stackchan-core/src/director.rs:349-462 | In each of the other fields every difference counts, a flipped sign and a changed NaN included |
| Director.PhasesAsListed | crates/stackchan-core/src/director.rs:57-88 | A phase ranks before another exactly when the list of phases has it earlier |
| Director.LaneByName | crates/stackchan-core/src/director.rs:628-634 | A write list is in lane exactly when it names nothing but the eight Mind and three Voice fields, listed by name |
| Director.Director.constructor | crates/stackchan-core/src/director.rs:584-593 | A new director is the empty one that whole runs start from |
| Director.Director.AddModifier | crates/stackchan-core/src/director.rs:602-613 | Accepted below 48 with the next registration number and a request to sort; refused, with nothing changed, at 48 |
| Director.Director.AddSkill | crates/stackchan-core/src/director.rs:628-642 | In a build with debug assertions an out-of-lane write list panics before the capacity is looked at; accepted below 16, refused at 16; `sorted` is left alone |
| Director.Director.Run | crates/stackchan-core/src/director.rs:651-710 | Sorts if asked to, in any order the unstable sort may choose among equal skill priorities, then has the effect of one abstract frame; in a build with debug assertions it panics exactly when that frame violates the write contract, leaving registries, counter, clock and entity as they were at the violation |
| Director.Director.UpdateModifiers | crates/stackchan-core/src/director.rs:684-695 | The in-place loop is the sequential pass: same memories, same entity, same calls, same first violation, with the state it leaves |
| Director.Director.InvokeSkills | crates/stackchan-core/src/director.rs:697-707 | The in-place skill loop is the sequential pass, first violation included |
| Director.ModifierPassSplit | crates/stackchan-core/src/director.rs:684-695 | A pass cut at any point: the later modifiers see exactly the entity the earlier ones left, and the first violation ends it |
| Director.SkillPassSplit | crates/stackchan-core/src/director.rs:697-707 | Likewise for skills; whether one fires is decided on the entity the earlier ones left |
| DirectorFrames.FrameDoneIff | crates/stackchan-core/src/director.rs:669-709 | A frame completes in a given state if and only if there is a sequence of turns that ends in it: the first modifier sees the stamped entity with no events, each later actor what the one before left, skills after modifiers and only if they ask to fire, each within its write contract if it is checked |
| DirectorFrames.ViolatorNamed | crates/stackchan-core/src/director.rs:684-695 | A panicking modifier pass names the first modifier whose own update breaks its declared writes; those before it kept theirs |
| DirectorFrames.SkillViolatorNamed | crates/stackchan-core/src/director.rs:697-707 | Likewise the first skill that fires and breaks its declared writes |
| DirectorFrames.FirstActorSees | crates/stackchan-core/src/director.rs:669-682 | In every frame of every run the first actor sees the entity as the firmware left it but for two things: no events, and this frame's time, clamped gap and saturating number |
| DirectorFrames.StampedAlways | crates/stackchan-core/src/director.rs:669-709 | When the actors leave tick and events alone, every frame of every run ends with no events and with the tick that the sequence of frame times determines |
| DirectorFrames.TicksAreSeen | crates/stackchan-core/src/director.rs:669-682 | The tick that the clock laws count for a frame is the one its first actor sees |
| DirectorRuns.Drive | crates/stackchan-core/src/director.rs:602-710 | Any program of registrations, frames and firmware writes, run on the class, produces one of the traces that the theorems below speak of: the whole program, or up to an operation that really panics, an out-of-lane skill or a frame with a violation |
| DirectorRuns.Perform | crates/stackchan-core/src/director.rs:602-710 | One operation on the class is one step of a trace, or that panic |
| DirectorRuns.UncheckedNeverStops | crates/stackchan-core/src/director.rs:473-705 | Without debug assertions no operation ever panics, whatever the actors write and the skills declare |
| DirectorRuns.CheckedRunIsUnchecked | crates/stackchan-core/src/director.rs:473-705 | A run that passes the checks is, world for world, a run of the same program in the build without them |
| DirectorRuns.ModifierPassKeeps | crates/stackchan-core/src/director.rs:684-695 | A completed pass calls each registered modifier once, in registry order, and changes nothing registered but private memory |
| DirectorRuns.SkillPassKeeps | crates/stackchan-core/src/director.rs:697-707 | A completed skill pass changes no registration |
| DirectorRuns.AcceptedNumbered | crates/stackchan-core/src/director.rs:602-613 | Accepted registrations are numbered 0, 1, 2, ... and refused ones leave no gap |
| DirectorRuns.ScheduledAlways | crates/stackchan-core/src/director.rs:602-667 | In every run the registry is a permutation of the accepted registrations, never above capacity, and sorted whenever it claims to be |
| DirectorRuns.ScheduleComplete | crates/stackchan-core/src/director.rs:652-695 | In either build, every frame of every run, with registrations interleaved anyhow, calls every accepted modifier exactly once in strictly increasing (phase, priority, registration) order |
| DirectorRuns.ScheduleDeterministic | crates/stackchan-core/src/director.rs:653-667 | The calls are a function of the registrations alone: any two runs of one program make the same calls, whatever the build, the actors and the firmware do and however the unstable sorts break ties |
| DirectorRuns.ScheduleOrder | crates/stackchan-core/src/director.rs:653-661 | That order in numbers: an earlier listed phase first, then the lower priority, then the earlier registration |
| DirectorRuns.WriteConfinement | crates/stackchan-core/src/director.rs:474-484 | In a build with debug assertions, over any run, what the source's comparison can see of a tracked field that no registered actor declares, and that the firmware leaves alone between frames, stays as it is |
| DirectorRuns.FrameConfined | crates/stackchan-core/src/director.rs:682-707 | The same for one frame |
| DirectorRuns.InLaneAlways | crates/stackchan-core/src/director.rs:628-642 | In a build with debug assertions, in every run, every registered skill declares Mind and Voice fields only |
| DirectorRuns.SkillsKeepTheirLane | crates/stackchan-core/src/director.rs:622-642 | So in every frame of every run the skill pass leaves what can be seen of each Face, Motor, Perception, Input and Output field as the modifiers left it |
| DirectorClock.ClockAlways | crates/stackchan-core/src/director.rs:669-709 | In every run of either build the tick that the actors of frame `k` are given (`TicksAreSeen`) holds that frame's own time, the gap since the frame before clamped to u32 from both sides, and the saturating one-based frame number |
| DirectorClock.DtConserved | crates/stackchan-core/src/director.rs:670-678 | The reported `dt_ms` of a run plus what the u32 clamp dropped equals the time from first to last frame plus every backward step |
| DirectorClock.DtTelescopesIff | crates/stackchan-core/src/director.rs:670-678 | When every gap fits u32, the reported `dt_ms` sum to the elapsed time if and only if the clock never ran backwards |
| DirectorClock.LossesZeroIff | crates/stackchan-core/src/director.rs:670-678 | Nothing is lost backwards exactly when the clock never steps back, and nothing to the clamp exactly when every gap fits |
| DirectorSkills.SkillsOrderedAlways | crates/stackchan-core/src/director.rs:628-667 | In every run the skills that the last sort saw, those accepted before it and no others, stay in descending priority, and the ones accepted since follow in the order they came |
| DirectorSkills.SkillOrderIff | crates/stackchan-core/src/director.rs:628-667 | The next frame of any run fires its skills in descending priority if and only if it is due to sort, or no skill accepted since the last sort outranks one accepted before it |
| DirectorSkills.SkillsDescendIff | crates/stackchan-core/src/director.rs:662-667 | The same on the priorities as numbers: from each skill that fires to any later one they fall or stay |
| DirectorSkills.RunDeterministic | crates/stackchan-core/src/director.rs:653-709 | With pairwise distinct skill priorities the whole run is a function of the program and the actors: entity, private memories, ticks and calls |
| DirectorSkills.TiedSkillsDiverge | crates/stackchan-core/src/director.rs:662-667 | Any two skills that tie have a program with two runs that end in different entities |
| Ordering.SortUnique | crates/stackchan-core/src/director.rs:653-661 | Two sorts of one multiset under a key that never ties are equal: an unstable sort is then deterministic |
| Bmm150.TrimRoundTrip | crates/bmm150/src/lib.rs:421-459 | Every trim is recovered from its documented 21-byte block, so statements over all trims are statements over all chips |
| Bmm150.TrimInNumbers | crates/bmm150/src/lib.rs:421-459 | Each trim sits at its documented offset, little-endian, two's complement where it is signed |
| Bmm150.SampleInNumbers | crates/bmm150/src/lib.rs:393-409 | X, Y, Z and the hall reading come from bytes 0-1, 2-3, 4-5 and 6-7, above three, three, one and two bits that are dropped |
| Bmm150.SampleRoundTrip | crates/bmm150/src/lib.rs:393-409 | Every sample, written into its bytes with anything in the spare bits, is recovered |
| Bmm150.SentinelWords | crates/bmm150/src/lib.rs:393-409 | Each axis reads as its overflow sentinel on exactly the wire words of the bottom of its field, and parsed samples have 13, 13, 15 and 14 bits |
| Bmm150.ZNeverOverflows | crates/bmm150/src/lib.rs:512-521 | For every trim and every parsed sample each i32 step of the Z path fits, the hall term survives its i16 cast unchanged, and so does the division |
| Bmm150.ZAccuracy | crates/bmm150/src/lib.rs:512-521 | The Z result is less than one count from the exact quotient, and the denominator's hall term is rounded to nearest |
| Bmm150.ZTruncates | crates/bmm150/src/lib.rs:512-522 | The Z quotient is rounded toward zero: of the exact one's sign or zero, and never larger in magnitude |
| Bmm150.ZMonotone | crates/bmm150/src/lib.rs:512-521 | The Z result rises with the raw sample under a positive denominator, falls under a negative one, and is zero under none |
| Bmm150.XyIntermediatesFit | crates/bmm150/src/lib.rs:479-501 | The X/Y path divides by zero if and only if both the hall reading and the factory value are zero; otherwise every i32 step fits for every trim and sample |
| Bmm150.RatioExactIff | crates/bmm150/src/lib.rs:487-491 | The u16-then-i16 hall ratio is the true centred quotient, not a wrapped one, if and only if `xyz1` is below three times the hall reading |
| Bmm150.HallRatio | crates/bmm150/src/lib.rs:482-491 | In terms of the chip's own reading: `xyz1 * 0x4000 / rhall - 0x4000` up to the sixteen bits kept, exactly that while `xyz1 < 3 * rhall`, and zero when the reading is zero |
| Bmm150.XyAccuracy | crates/bmm150/src/lib.rs:493-499 | For every trim and parsed sample the scaled value is within 1.6 counts of the compensation polynomial evaluated without rounding |
| Bmm150.XyReading | crates/bmm150/src/lib.rs:479-501 | When ratio and guard hold, the X result is within 1.6 counts of the polynomial in the chip's own hall reading with gain `x2` and offset `x1`, the Y result with `y2` and `y1` |
| Bmm150.XyExactIff | crates/bmm150/src/lib.rs:493-500 | The i16 narrowing and the checked i16 addition are exact on every non-sentinel sample if and only if a guard over trim and hall reading holds |
| Bmm150.GuardNecessary | crates/bmm150/src/lib.rs:499-500 | Without the guard raw 4095 or raw -4095 is already wrong or panics |
| Bmm150.XyTypicalRange | crates/bmm150/src/lib.rs:493-500 | Ratio within 2048 of the centre and gain trim at most 40 imply the guard and a positive sensitivity |
| Bmm150.XyMonotone | crates/bmm150/src/lib.rs:493-500 | Under the guard the X/Y result follows the raw sample in the direction of the sensitivity |
| Bmm150.GuardFailures | crates/bmm150/src/lib.rs:499-500 | Both failures happen outside it: a family of trims for which raw 4000 panics in the addition and raw 4095 comes back as -31249 |
| Bmm150.CentredSensitivity | crates/bmm150/src/lib.rs:487-499 | At the factory hall reading the ratio is zero and one raw count is worth (160 + gain)/32 output counts |
| Bmm150.ReadMeasurementTotal | crates/bmm150/src/lib.rs:331-359 | On a chip within the guard a reading is `Overflow` on exactly the sentinel words and otherwise the exact compensated triple, never a panic |
| Bmm150.PanicIff | crates/bmm150/src/lib.rs:331-359 | A reading panics exactly when no axis is at its sentinel, and either both hall values are zero or the offset addition of X or Y leaves i16 |
| Bmm150.UninitialisedDriverPanics | crates/bmm150/src/lib.rs:479-489 | The zero trim before `init` and a zero hall reading divide by zero |
| Mel.MelFilterbank.constructor | crates/stackchan-audio-features/src/mel.rs:80-125 | The matrix built row by row holds each filter's triangle at each bin frequency, over centres that strictly increase |
| Mel.MelFilterbank.BuildRow | crates/stackchan-audio-features/src/mel.rs:106-120 | One row is one triangle sampled at all 257 bins |
| Mel.MelFilterbank.Apply | crates/stackchan-audio-features/src/mel.rs:134-144 | The product loop yields each band's weighted sum over the spectrum |
| Mel.CentresIncreasing | crates/stackchan-audio-features/src/mel.rs:86-93 | Evenly spaced points on any rising mel scale give strictly increasing centres |
| Mel.CentresSpan | crates/stackchan-audio-features/src/mel.rs:86-93 | The 42 centres run from the lower edge of the band to the upper, a 41st of it apart on the mel scale |
| Mel.BinsSpan | crates/stackchan-audio-features/src/mel.rs:95-99 | The 257 bins run from 0 Hz to 8000 Hz in steps of 31.25 Hz |
| Mel.BandOfSpike | crates/stackchan-audio-features/src/mel.rs:105-143 | A spectrum with one non-zero bin gives each band that magnitude times the band's triangle at the bin's frequency |
| Mel.WeightBounds | crates/stackchan-audio-features/src/mel.rs:112-118 | Weights lie in [0, 1], are non-zero exactly strictly inside the filter's span and one exactly at its centre |
| Mel.AtMostTwoNeighbours | crates/stackchan-audio-features/src/mel.rs:106-118 | Two filters that both respond to a frequency are the same or neighbours |
| Mel.CoverageTrapezoid | crates/stackchan-audio-features/src/mel.rs:105-121 | The first `m` filters' total weight at any frequency is a trapezoid, in closed form |
| Mel.PartitionOfUnity | crates/stackchan-audio-features/src/mel.rs:105-121 | The total weight never exceeds one, and is one exactly between the first and the last filter's centre |
| Mel.BandsTotal | crates/stackchan-audio-features/src/mel.rs:134-144 | Summing the bands is summing, bin by bin, magnitude times total weight |
| Mel.EnergyConserved | crates/stackchan-audio-features/src/mel.rs:127-144 | Every spectrum, of either sign, that is empty outside that span keeps its total through the bank |
| Mel.EnergyConservedIff | crates/stackchan-audio-features/src/mel.rs:127-144 | For non-negative spectra the total never grows, and is kept if and only if nothing lies outside the span |
| Scservo.ParseIffFrame | crates/scservo/src/lib.rs:278-291 | A reference receiver accepts a byte string as (id, body) if and only if it is exactly the frame of (id, body) |
| Scservo.FrameSum | crates/scservo/src/lib.rs:286-291 | The bytes from ID through checksum sum to 0xFF modulo 256 |
| Scservo.CorruptionDetected | crates/scservo/src/lib.rs:286-291 | No frame with one byte changed, wherever it is, passes the receiver |
| Scservo.PositionRoundTrip | crates/scservo/src/lib.rs:226-234 | A receiver recovers ID, address, position, time and speed from every pose command |
| Scservo.PositionInNumbers | crates/scservo/src/lib.rs:226-233 | Position, time and speed go out as three words, high byte first |
| Scservo.PingInNumbers | crates/scservo/src/lib.rs:363-372 | The six bytes of a ping, with their checksum, as numbers |
| Scservo.ReadInNumbers | crates/scservo/src/lib.rs:460-476 | The eight bytes of a read request |
| Scservo.WriteInNumbers | crates/scservo/src/lib.rs:278-292 | The bytes of a write, and a checksum over all that precedes it but the two header bytes |
| Scservo.RefusalsInNumbers | crates/scservo/src/lib.rs:259-452 | Refused before anything is sent: more than six bytes, and a ping or a read of the broadcast ID, the ID being looked at first |
| Scservo.VerdictIffFrame | crates/scservo/src/lib.rs:481-518 | A read succeeds with error byte `e` and data `d` if and only if the bytes that arrived begin with exactly the frame of (id, e, d) |
| Scservo.VerdictCases | crates/scservo/src/lib.rs:481-518 | Which failure a bad response is: none came, exactly when too few bytes arrived; malformed, exactly when header, ID or length is not the one asked for; checksum mismatch, exactly when only the frame's sum is wrong |
| Scservo.CorruptedReplyRejected | crates/scservo/src/lib.rs:488-512 | A reply with one byte changed is never accepted |
| Scservo.Scservo.WriteMemory | crates/scservo/src/lib.rs:259-296 | Sends exactly the write frame, or nothing at all when the payload exceeds six bytes |
| Scservo.Scservo.BuildWrite | crates/scservo/src/lib.rs:269-293 | The buffer filled in place with a running wrapping checksum is that frame |
| Scservo.Scservo.WritePosition | crates/scservo/src/lib.rs:216-235 | Rejects positions above 1023 without touching the bus; otherwise writes the three big-endian words to the goal address |
| Scservo.Scservo.DrainWriteStatus | crates/scservo/src/lib.rs:318-322 | Takes six bytes off the queue, unparsed |
| Scservo.Scservo.Ping | crates/scservo/src/lib.rs:359-408 | Succeeds exactly when a correct data-less status frame from that ID arrives, and says which check failed otherwise |
| Scservo.Scservo.ReadMemory | crates/scservo/src/lib.rs:441-519 | Sends exactly the read frame and returns the verdict on the reply, having consumed exactly its length |
| Scservo.Scservo.ReadPosition | crates/scservo/src/lib.rs:531-537 | The big-endian word of a two-byte read, whatever the servo's fault byte |
| Scservo.Scservo.CheckRead | crates/scservo/src/lib.rs:488-518 | The checks in place, one after the other, are the verdict |
| Scservo.Scservo.RunningSum | crates/scservo/src/lib.rs:286-290 | The wrapping loop is the sum modulo 256 |
| ServoBus.LoadAfterStore | crates/scservo/src/lib.rs:252-296 | What is stored in a servo's memory is what is loaded from it |
| ServoBus.Answered | crates/scservo/src/lib.rs:359-519 | A present servo's answer passes every check of the driver and leaves the queue empty |
| ServoBus.CommandRefines | crates/scservo/src/lib.rs:299-519 | One ping, read or drained write, to a present, absent or broadcast ID, is one direct memory access and leaves nothing pending |
| ServoBus.BusRefinesMemory | crates/scservo/src/lib.rs:299-519 | So does any sequence of them: every outcome is the one direct access gives, and the queue ends empty |
| ServoBus.WriteThenRead | crates/scservo/src/lib.rs:259-519 | A servo reads back what was last written to it |
| ServoDrains.BareRun | crates/scservo/src/lib.rs:259-519 | A queue that records which call each byte answers behaves, tags forgotten, exactly as the driver's |
| ServoDrains.QueueKnown | crates/scservo/src/lib.rs:299-519 | After any calls, writes drained or not, the queue is exactly the tail of everything the servos answered, as long as a net count made from the program alone: six more per acknowledged write, less what drains and unanswered calls take |
| ServoDrains.OwnReplyIff | crates/scservo/src/lib.rs:300-519 | In any run a ping or read of a present servo takes its own reply if and only if that net count is zero when it is sent |
| ServoDrains.NetCountIsUndrained | crates/scservo/src/lib.rs:300-322 | Where no absent servo is asked, the net count is six bytes for each acknowledged write not yet drained |
| ServoDrains.OwnReplyIffDrained | crates/scservo/src/lib.rs:300-322 | So there a ping or read is answered by its own reply if and only if no acknowledged write is still undrained |
| ServoDrains.OwnReplyIsRight | crates/scservo/src/lib.rs:359-519 | With a net count of zero the outcome is the one direct access gives, and the queue ends empty |
| ServoDrains.SkippedDrain | crates/scservo/src/lib.rs:300-519 | After one undrained write a read of that servo fails as malformed, or, for zero bytes, succeeds on the stale acknowledgement; either way six bytes of its own reply stay queued |
| ServoDrains.SkippedDrainThenPing | crates/scservo/src/lib.rs:300-408 | After one undrained write a ping succeeds on the stale acknowledgement if and only if it asks the same servo; six bytes stay queued |
| IrNec.Encode | crates/ir-nec/src/lib.rs:186-235 | The array filled by a running index is the specified 67-pulse frame |
| IrNec.FrameInNumbers | crates/ir-nec/src/lib.rs:186-235 | The 67 pulses in microseconds: 9000 and 4500, then 560 and 560 or 1690 for each bit, then 560 |
| IrNec.Decode | crates/ir-nec/src/lib.rs:118-170 | For 67 pulses or more, decodes to `c` if and only if the first 66 match the frame of `c` in level and within 200 microseconds; shorter slices never decode |
| IrNec.ReadBits | crates/ir-nec/src/lib.rs:130-155 | The data loop yields the word of the bits read, or fails at a bit that reads as neither |
| IrNec.Unpack | crates/ir-nec/src/lib.rs:157-169 | A 32-bit word unpacks to `c` if and only if it is the word of `c`; the XOR check is the complement check |
| IrNec.MatchesByBits | crates/ir-nec/src/lib.rs:122-155 | Matching a frame is matching its preamble and each of its 32 bits |
| IrNec.WordOfWireBits | crates/ir-nec/src/lib.rs:187-217 | Bytes least significant bit first, address low byte first, spell address + 2^16 command + 2^24 complement |
| IrNec.WordByBytes | crates/ir-nec/src/lib.rs:157-169 | A word belongs to a command exactly when its four bytes do |
| IrNec.MatchUnique | crates/ir-nec/src/lib.rs:118-170 | No recording matches two commands: decoding is unambiguous under any jitter |
| IrNec.RoundTrip | crates/ir-nec/src/lib.rs:118-235 | Every command decodes from its own encoding |
| Axp2101.Axp2101.CheckShortPressEdge | crates/axp2101/src/lib.rs:251-261 | Read, test and clear with edges arriving in between and the bus failing at either step, as one transition |
| Axp2101.Axp2101.TakePowerKeyEdges | crates/axp2101/src/lib.rs:300-315 | Likewise for both edge flags: the mask it builds clears exactly the flags it reports |
| Axp2101.Axp2101.EnableShortPressIrq | crates/axp2101/src/lib.rs:230-235 | Adds one enable bit and leaves the others, or changes nothing |
| Axp2101.Axp2101.EnablePowerKeyEdgeIrqs | crates/axp2101/src/lib.rs:278-283 | Adds two enable bits and leaves the others, or changes nothing |
| Axp2101.PendingIsOwedIff | crates/axp2101/src/lib.rs:251-315 | After every prefix of a run the chip's flags are exactly the edges no report has covered, if and only if no clear took effect while its acknowledgement was lost |
| Axp2101.OwedStep | crates/axp2101/src/lib.rs:251-315 | One event keeps pending equal to owed if and only if it is not such a lost clear |
| Axp2101.NoEdgeLost | crates/axp2101/src/lib.rs:256-260 | Without lost clears every edge, races included, is still pending at the end or was reported by a call from then on |
| Axp2101.LostClearLosesEdge | crates/axp2101/src/lib.rs:244-260 | One press and one poll whose clear lost its acknowledgement: nothing reported, nothing pending |
| Axp2101.NoEdgeInvented | crates/axp2101/src/lib.rs:285-315 | On any bus, per flag, reports so far plus the pending one never exceed the events that set it |
| Axp2101.ReportedExactly | crates/axp2101/src/lib.rs:251-315 | A poll whose read and clear succeed reports every pending flag it looks for, bit 4 or bits 1 and 0 together, and no other; a failed one reports none |
| Bmi270.Bmi270.Init | crates/bmi270/src/lib.rs:294-365 | Whatever fails and whenever, the chip has received a prefix of script then configuration; all of it exactly on success; no configuration without an init-ok poll; a timeout only after fifteen refusals; a bus error only if the bus gave out |
| Bmi270.Bmi270.SendScript | crates/bmi270/src/lib.rs:300-348 | Reset, chunk loop with its saturating word offset and start command, sent up to the first failure |
| Bmi270.Bmi270.SendChunk | crates/bmi270/src/lib.rs:329-345 | Two address bytes and one burst, sent up to the first failure |
| Bmi270.Bmi270.BurstWrite | crates/bmi270/src/lib.rs:411-426 | One transaction of register and data; a slice longer than the buffer is dropped with success |
| Bmi270.AddressLossless | crates/bmi270/src/lib.rs:329-339 | For the first 64 chunks the chip reads the split address back as the chunk's own byte offset |
| Bmi270.UploadReassembles | crates/bmi270/src/lib.rs:318-346 | After up to 64 chunks the chip's memory is the uploaded part of the blob and nothing else |
| Bmi270.UploadStaysLow | crates/bmi270/src/lib.rs:329-346 | For any blob whatever no byte from address 8318 on is ever written: the high address byte wraps |
| Bmi270.PrologueReadies | crates/bmi270/src/lib.rs:300-306 | The writes before the upload reset the chip, end its power save and open the upload, whatever its state was |
| Bmi270.WritesInNumbers | crates/bmi270/src/lib.rs:300-360 | The fixed writes by register and value: soft reset, power save off, upload open; then the sensor settings, with power on last |
| Bmi270.ScriptStarts | crates/bmi270/src/lib.rs:300-348 | The start command ends the script, and what the chip starts with is all that the upload stored |
| Bmi270.BlobReassembledIff | crates/bmi270/src/lib.rs:300-348 | Whatever state the chip was in, the script starts it, and with exactly the blob in memory if and only if the blob's length is a multiple of 128 and at most 8192 |
| Bmi270.ConfiguredOnlyWhenLoaded | crates/bmi270/src/lib.rs:348-362 | Whatever state the chip was in, at every configuration write it has already been started with the whole blob |
| Py32.SetBitView | crates/py32/src/lib.rs:248-251 | Setting a bit changes that bit of that register and no other bit of any |
| Py32.ClearBitView | crates/py32/src/lib.rs:254-257 | Likewise for clearing |
| Py32.ConfigurePins | crates/py32/src/lib.rs:142-158 | A configure call that stops after any number of transactions moves its own pin through the writes that got out and no other pin |
| Py32.ConfigureInNumbers | crates/py32/src/lib.rs:142-289 | In numbers: bit `pin % 8` of 0x03 and 0x09 is set and that of 0x05 is the level, for pins 8 to 13 one register higher; no other bit of any register changes |
| Py32.PinInNumbers | crates/py32/src/lib.rs:273-289 | A pin of the device is those three bits |
| Py32.LedsInNumbers | crates/py32/src/lib.rs:169-232 | In numbers: the count goes into bits 0 to 5 of 0x24, the refresh into its bit 6, pixel `k` into bytes 0x30 + 2k and 0x31 + 2k, low byte first; nothing else changes |
| Py32.RefusedInNumbers | crates/py32/src/lib.rs:142-194 | Refused exactly for pins above 13, counts above 32 and more than 32 pixels, and then no register changes |
| Py32.CountIntoField | crates/py32/src/lib.rs:173-175 | Setting the count replaces the count field and keeps the refresh trigger and the top bit |
| Py32.RefreshRefines | crates/py32/src/lib.rs:221-232 | Setting or self-clearing the refresh trigger changes no count, pin or pixel |
| Py32.PixelsRefine | crates/py32/src/lib.rs:204-217 | The little-endian burst puts each pixel in its own cell and keeps those beyond the slice |
| Py32.StepRefines | crates/py32/src/lib.rs:142-257 | Every call on the registers, failing anywhere, is the same call on a plain device of pins, count, trigger and pixels, with the same result, except that a count call overtaken by the chip's own clear re-arms the trigger |
| Py32.StepRefinesIff | crates/py32/src/lib.rs:169-176 | The two agree if and only if it is not such a count call |
| Py32.LatchCommutes | crates/py32/src/lib.rs:142-158 | A latch that ends during a pin call is one that ends before or after it |
| Py32.RegistersRefineDeviceIff | crates/py32/src/lib.rs:142-257 | After every prefix of any sequence of calls, latches ending anywhere, the registers stand for the device, if and only if no count call re-arms the trigger |
| Py32.AllButTrigger | crates/py32/src/lib.rs:142-257 | Pins, count and pixels follow the device in every run, re-armed or not |
| Py32.PinUntouched | crates/py32/src/lib.rs:133-136 | A pin that no call configures keeps its state through any sequence |
| Py32.PinKept | crates/py32/src/lib.rs:151-157 | A pin that is an output with its pull-up on is kept by every configure that fails, wherever it fails |
| Py32.PinFollowsLastConfigure | crates/py32/src/lib.rs:130-158 | In any run the pin's registers reflect its last successful configure, output, pulled up, at the level asked for, through any later calls, its own failed configures included |
| Py32.Py32.ConfigurePin | crates/py32/src/lib.rs:142-158 | The method is the configure step, early exits included |
| Py32.Py32.SetCount | crates/py32/src/lib.rs:169-176 | The method is the count step, with the chip free to clear the trigger between its read and its write |
| Py32.Py32.WritePixels | crates/py32/src/lib.rs:191-219 | The method is the pixel step; an empty slice touches nothing |
| Py32.Py32.StagePixels | crates/py32/src/lib.rs:204-216 | The staging loop builds register byte and little-endian payload |
| Py32.Py32.Refresh | crates/py32/src/lib.rs:230-232 | The method is the refresh step, likewise |
| Tracker.LabelBlobs | crates/tracker/src/lib.rs:642-694 | For every grid the blobs are the summaries of its 4-connected components of fired cells, one each, in the row-major order of their first cells; no push onto either fixed buffer is dropped and no u16 sum overflows |
| Tracker.Flood | crates/tracker/src/lib.rs:653-687 | One fill marks and sums up exactly the fired cells that its seed reaches, none of them of an earlier blob |
| Tracker.Spread | crates/tracker/src/lib.rs:671-686 | The neighbour loop finds every fired 4-neighbour and keeps the stack free of repeats and within its 256 places |
| Tracker.Count | crates/tracker/src/lib.rs:667-669 | The running u16 sums stay the sums of the cells popped, without overflow |
| Tracker.NeighboursExact | crates/tracker/src/lib.rs:671-676 | The bounds checks, u8 wrap-around included, let through exactly the 4-neighbours inside the grid |
| Tracker.FillPush | crates/tracker/src/lib.rs:681-685 | A newly marked cell is connected to the seed, and the stack always has room for it |
| Tracker.RoomForBlob | crates/tracker/src/lib.rs:688-690 | The blob list always has room |
| Tracker.SameBlobIff | crates/tracker/src/lib.rs:638-642 | Two fired cells are in one blob if and only if a walk over fired cells joins them |
| Tracker.CellsConserved | crates/tracker/src/lib.rs:517-528 | The cell counts of all blobs sum to the number of fired cells: none lost, none counted twice |
| Tracker.LabellingUnique | crates/tracker/src/lib.rs:638-694 | The labelling is a function of the fired cells: the order of neighbours and pops leaves no trace |
| FaceKernels.SampleArc | crates/stackchan-core/src/draw.rs:1008-1027 | Panics if and only if some i32 step of some sample does not fit; otherwise fills all 25 points |
| FaceKernels.CallerSags | crates/stackchan-core/src/draw.rs:748-838 | The three callers' products fit i32 and their sags stay within 83884 (cited from the first caller to the last) |
| FaceKernels.SagsInNumbers | crates/stackchan-core/src/draw.rs:748-838 | A closed eye bows up by half its radius, a mouth with its curve by that many hundredths of the radius, and a curved eye by as much against it |
| FaceKernels.ArcFitsIff | crates/stackchan-core/src/draw.rs:1017-1027 | For every such sag the arc overflows if and only if an end of the baseline or the middle of the bow lies outside i32 |
| FaceKernels.ArcEnds | crates/stackchan-core/src/draw.rs:994-1026 | The ends sit on the baseline at full half-width, the middle at the full sag |
| FaceKernels.ArcMirror | crates/stackchan-core/src/draw.rs:1022-1026 | Sample `i` and sample `24 - i` mirror each other exactly, truncation included |
| FaceKernels.ArcMonotone | crates/stackchan-core/src/draw.rs:1020-1026 | x never steps back from end to end, and y moves one way only from either end to the middle |
| FaceKernels.ArcOnParabola | crates/stackchan-core/src/draw.rs:1017-1026 | Every sample is the point of the parabola through both ends and the bow, truncated toward the baseline and toward the middle by less than a pixel |
| FaceKernels.OffsetRange | crates/stackchan-core/src/draw.rs:1022-1026 | No sample leaves the box between baseline and sag |
| FaceKernels.BreathRange | crates/stackchan-core/src/leds.rs:158-181 | Brightness stays in [61, 102], at the peak exactly at mid-cycle and at the trough exactly within 82 ms of the cycle's ends |
| FaceKernels.BreathPeriod | crates/stackchan-core/src/leds.rs:164-181 | Brightness repeats every 6000 ms |
| FaceKernels.BreathSmooth | crates/stackchan-core/src/leds.rs:164-181 | At every time below the last, one millisecond changes brightness by at most one |
| FaceKernels.BreathMonotone | crates/stackchan-core/src/leds.rs:166-178 | Further from the trough is never dimmer |
| FaceKernels.BreathOnTriangle | crates/stackchan-core/src/leds.rs:163-181 | At every time the brightness is at most 1.17 steps below the triangle from 61 to 102 with a period of six seconds |

## Left out

- DirectorRuns.WriteConfinement: needs a build with debug assertions, the only one that checks what actors write, and speaks of what the comparison there sees: not the sign of a zero in the five fields compared as floats.
- Mel.EnergyConserved: over the reals, because f32 rounding depends on the order of summation.
- FaceKernels.SampleArc: yields the points; stroking the polyline is a library call.
- The audio pipeline behind the window: Hann window, FFT, log, quantisation, and their IEEE rounding.
- The mel-to-hertz formulas; only that the curve rises is used. Filter weights and sums are reals, so f32 rounding is not modelled.
- f32 conversion of the magnetometer reading to microtesla; BMM150 reset, identity check, preset writes and address detection.
- I2C and UART transport, async executors, delays and settle times, address detection, and transport errors of the UART.
- The entity as a shared mutable object: it goes in and out of the director as a value, so aliasing between actors is not captured.
- What an actor writes to the tick, the events and the untracked rest of the entity: the source does not check it either.
- Palette, geometry and radii, which are outside the tracked fields in the source too.
- Concrete modifiers and skills.
- The rest of the motion tracker: block luma, the temporal filter, blob sorting and centroids, and the f32 pose arithmetic.
- Servo voltage, temperature, moving and torque calls, which are instances of the two memory calls; degree conversion.
- Half-duplex echo on the servo wire.
- AXP2101 power-up table, USB-power and battery reads; the interrupt registers are sets of bit positions, not bytes.
- BMI270 measurement decoding and the blob's contents; a blob is any byte string.
- PY32 firmware beyond its registers and the self-clearing refresh trigger.
- LED palette choice, channel scaling, RGB565 packing and frame rendering; arc stroke drawing, eye and blush scaling, bubble layout: short formulas with no state.
- Gateway, web dashboard, sidecar, build tools and constant register tables.
