/** The streaming audio frontend (crates/stackchan-audio-features/src/frontend.rs): a ring buffer
    with a fill counter and a hop countdown. Its specification is the plain one: with `h` the
    samples since construction or the last reset, frame `k` renders `h[160k .. 160k + 480]`. */
module Frontend {
  import MachineInts

  const WINDOW_SAMPLES: nat := 480
  const HOP_SAMPLES: nat := 160

  /** One i16 PCM sample; the conversion to f32 is exact, so the buffer keeps it as it is. */
  type Sample = x: int | -0x8000 <= x < 0x8000

  // ---- What a stream should produce ----

  function FrameCount(n: nat): nat {
    if n < WINDOW_SAMPLES then 0 else 1 + (n - WINDOW_SAMPLES) / HOP_SAMPLES
  }

  function Window(h: seq<Sample>, k: nat): seq<Sample>
    requires k < FrameCount(|h|)
  {
    h[HOP_SAMPLES * k .. HOP_SAMPLES * k + WINDOW_SAMPLES]
  }

  function Frames<F>(render: seq<Sample> -> F, h: seq<Sample>): (fs: seq<F>)
    ensures |fs| == FrameCount(|h|)
    ensures forall k :: 0 <= k < |fs| ==> fs[k] == render(Window(h, k))
  {
    seq(FrameCount(|h|), k requires 0 <= k < FrameCount(|h|) => render(Window(h, k)))
  }

  /** The frames that pushing `xs` adds to a stream that has already delivered `h`. */
  function Emitted<F>(render: seq<Sample> -> F, h: seq<Sample>, xs: seq<Sample>): (fs: seq<F>)
    ensures Frames(render, h) + fs == Frames(render, h + xs)
  {
    FramesExtend(render, h, xs);
    Frames(render, h + xs)[FrameCount(|h|)..]
  }

  function EmittedByChunks<F>(render: seq<Sample> -> F, h: seq<Sample>, chunks: seq<seq<Sample>>): seq<F>
    decreases |chunks|
  {
    if chunks == [] then [] else
      Emitted(render, h, chunks[0]) + EmittedByChunks(render, h + chunks[0], chunks[1..])
  }

  function Flatten(chunks: seq<seq<Sample>>): seq<Sample> {
    if chunks == [] then [] else chunks[0] + Flatten(chunks[1..])
  }

  lemma FrameCountMonotone(n: nat, m: nat)
    ensures FrameCount(n) <= FrameCount(n + m)
  {
  }

  /** The stream in numbers: nothing before 480 samples, then a frame every 160, frame `k` from
      sample `160k` on. */
  lemma FramesInNumbers<F>(render: seq<Sample> -> F, h: seq<Sample>, k: nat)
    ensures |Frames(render, h)| == if |h| < 480 then 0 else 1 + (|h| - 480) / 160
    ensures k < |Frames(render, h)| ==>
              160 * k + 480 <= |h| && Frames(render, h)[k] == render(h[160 * k..160 * k + 480])
  {
  }

  /** Frames already out never change: a longer stream only adds to the end. */
  lemma FramesExtend<F>(render: seq<Sample> -> F, h: seq<Sample>, xs: seq<Sample>)
    ensures Frames(render, h) <= Frames(render, h + xs)
  {
    FrameCountMonotone(|h|, |xs|);
    forall k | 0 <= k < FrameCount(|h|)
      ensures Frames(render, h)[k] == Frames(render, h + xs)[k]
    {
      assert Window(h, k) == Window(h + xs, k);
    }
  }

  /** Pushing `xs` and then `ys` adds what pushing `xs + ys` adds. */
  lemma EmittedCompose<F>(render: seq<Sample> -> F, h: seq<Sample>, xs: seq<Sample>, ys: seq<Sample>)
    ensures Emitted(render, h, xs) + Emitted(render, h + xs, ys) == Emitted(render, h, xs + ys)
  {
    var before, first, second := Frames(render, h), Emitted(render, h, xs), Emitted(render, h + xs, ys);
    assert h + (xs + ys) == (h + xs) + ys;
    assert before + (first + second) == (before + first) + second == before + Emitted(render, h, xs + ys);
    assert first + second == (before + (first + second))[|before|..];
  }

  /** However the stream is cut into chunks, the frames that come out are those of one push. */
  lemma {:induction false} ChunkInvariance<F>(render: seq<Sample> -> F, h: seq<Sample>, chunks: seq<seq<Sample>>)
    ensures EmittedByChunks(render, h, chunks) == Emitted(render, h, Flatten(chunks))
    decreases |chunks|
  {
    if chunks == [] {
      assert h + [] == h;
    } else {
      var next, rest := h + chunks[0], Flatten(chunks[1..]);
      ChunkInvariance(render, next, chunks[1..]);
      EmittedCompose(render, h, chunks[0], rest);
    }
  }

  /** The documented cadence for 20 ms chunks: nothing on the first call, two frames on each
      later one. */
  lemma TwentyMsCadence<F>(render: seq<Sample> -> F, h: seq<Sample>, xs: seq<Sample>, call: nat)
    requires |h| == 320 * call && |xs| == 320
    ensures |Emitted(render, h, xs)| == if call == 0 then 0 else 2
  {
    assert |Frames(render, h + xs)| == FrameCount(320 * call + 320);
  }

  // ---- The ring as a function of the stream ----

  /** Index into the stream of the newest of `n` samples that landed in slot `i`; negative when
      none has. */
  function NewestAt(n: nat, i: nat): int { n - 1 - (n - 1 - i) % WINDOW_SAMPLES }

  function Ring(h: seq<Sample>): (r: seq<Sample>)
    ensures |r| == WINDOW_SAMPLES
  {
    seq(WINDOW_SAMPLES, i requires 0 <= i < WINDOW_SAMPLES =>
      if NewestAt(|h|, i) < 0 then 0 else h[NewestAt(|h|, i)])
  }

  function Head(n: nat): nat { if n < WINDOW_SAMPLES then 0 else n % WINDOW_SAMPLES }

  function HopRemaining(n: nat): nat { if n < WINDOW_SAMPLES then 0 else HOP_SAMPLES - n % HOP_SAMPLES }

  predicate AtBoundary(n: nat) { WINDOW_SAMPLES <= n && n % HOP_SAMPLES == 0 }

  lemma NewestAtStep(n: nat, i: nat)
    requires i < WINDOW_SAMPLES
    ensures NewestAt(n + 1, i) == if i == n % WINDOW_SAMPLES then n else NewestAt(n, i)
  {
  }

  /** Writing the next sample at slot `n % 480`, and nowhere else, advances the ring. */
  lemma RingStep(h: seq<Sample>, x: Sample)
    ensures Ring(h + [x]) == Ring(h)[|h| % WINDOW_SAMPLES := x]
  {
    forall i | 0 <= i < WINDOW_SAMPLES
      ensures Ring(h + [x])[i] == Ring(h)[|h| % WINDOW_SAMPLES := x][i]
    {
      NewestAtStep(|h|, i);
    }
  }

  /** Once primed, reading the ring from `head` round to `head` gives the last 480 samples in
      order. */
  lemma RingReorder(h: seq<Sample>)
    requires WINDOW_SAMPLES <= |h|
    ensures Ring(h)[Head(|h|)..] + Ring(h)[..Head(|h|)] == h[|h| - WINDOW_SAMPLES..]
  {
    var n, head := |h|, Head(|h|);
    forall j | 0 <= j < WINDOW_SAMPLES
      ensures (Ring(h)[head..] + Ring(h)[..head])[j] == h[n - WINDOW_SAMPLES + j]
    {
      var slot := if head + j < WINDOW_SAMPLES then head + j else head + j - WINDOW_SAMPLES;
      assert (n - 1 - slot) % WINDOW_SAMPLES == WINDOW_SAMPLES - 1 - j;
    }
  }

  /** One sample while the ring fills: it lands in the next free slot, and the countdown starts with
      the first frame. */
  lemma PrimingStep(h: seq<Sample>, x: Sample)
    requires |h| < WINDOW_SAMPLES
    ensures Ring(h + [x]) == Ring(h)[|h| := x]
    ensures Head(|h|) == Head(|h| + 1) == 0 && HopRemaining(|h|) == 0
    ensures AtBoundary(|h| + 1) <==> |h| + 1 == WINDOW_SAMPLES
    ensures HopRemaining(|h| + 1) == if |h| + 1 == WINDOW_SAMPLES then HOP_SAMPLES else 0
  {
    RingStep(h, x);
  }

  /** One sample once the ring is full: it replaces the oldest, and the countdown runs out exactly
      at the next hop boundary. */
  lemma SteadyStep(h: seq<Sample>, x: Sample)
    requires WINDOW_SAMPLES <= |h|
    ensures 0 <= Head(|h|) < WINDOW_SAMPLES && Ring(h + [x]) == Ring(h)[Head(|h|) := x]
    ensures Head(|h| + 1) == (Head(|h|) + 1) % WINDOW_SAMPLES
    ensures 0 < HopRemaining(|h|) && (AtBoundary(|h| + 1) <==> HopRemaining(|h|) == 1)
    ensures HopRemaining(|h| + 1) == if HopRemaining(|h|) == 1 then HOP_SAMPLES else HopRemaining(|h|) - 1
  {
    RingStep(h, x);
    hide Ring;
    NextModulo(|h|, WINDOW_SAMPLES);
    NextModulo(|h|, HOP_SAMPLES);
  }

  lemma NextModulo(n: nat, k: nat)
    requires 1 < k
    ensures 0 <= n % k < k
    ensures (n + 1) % k == if n % k == k - 1 then 0 else n % k + 1
  {
    var q, r := n / k, n % k;
    assert n == k * q + r;
    if r == k - 1 {
      assert k * (q + 1) == k * q + k;
      MachineInts.QuotientUnique(n + 1, k, q + 1, 0);
    } else {
      MachineInts.QuotientUnique(n + 1, k, q, r + 1);
    }
  }

  /** One more sample adds one frame at a hop boundary and none elsewhere; the frame added renders
      the last 480 samples. */
  lemma FramesStep<F>(render: seq<Sample> -> F, h: seq<Sample>, x: Sample)
    ensures Emitted(render, h, [x]) ==
            if AtBoundary(|h| + 1) then [render((h + [x])[|h| + 1 - WINDOW_SAMPLES..])] else []
  {
    var n, g := |h|, h + [x];
    if AtBoundary(n + 1) {
      assert FrameCount(n + 1) == FrameCount(n) + 1;
      assert HOP_SAMPLES * FrameCount(n) + WINDOW_SAMPLES == n + 1;
      assert Window(g, FrameCount(n)) == g[n + 1 - WINDOW_SAMPLES..];
    } else {
      assert FrameCount(n + 1) == FrameCount(n);
    }
  }

  // ---- The frontend itself ----

  /** `render` stands for Hann window, FFT, mel filterbank and quantisation of one time-ordered
      window: a function of that window, and otherwise arbitrary. */
  class MelFrontend<F> {
    const render: seq<Sample> -> F
    const buf: array<Sample>
    var filled: nat
    var head: nat
    var hopRemaining: nat
    ghost var history: seq<Sample>  // samples since construction or the last reset

    /** The whole concrete state is a function of the history. */
    ghost predicate Valid()
      reads this, buf
    {
      && buf.Length == WINDOW_SAMPLES
      && filled == (if |history| < WINDOW_SAMPLES then |history| else WINDOW_SAMPLES)
      && head == Head(|history|)
      && hopRemaining == HopRemaining(|history|)
      && buf[..] == Ring(history)
    }

    constructor (render: seq<Sample> -> F)
      ensures Valid() && history == [] && this.render == render && fresh(buf)
    {
      this.render := render;
      buf := new Sample[WINDOW_SAMPLES](i => 0);
      filled, head, hopRemaining := 0, 0, 0;
      history := [];
    }

    method PushSamples(samples: seq<Sample>) returns (frames: seq<F>)
      requires Valid()
      modifies this, buf
      ensures Valid() && history == old(history) + samples
      ensures Frames(render, old(history)) + frames == Frames(render, history)
      ensures frames == Emitted(render, old(history), samples)
    {
      hide FrameCount, Window, Ring, Head, HopRemaining;
      frames := [];
      var i := 0;
      assert old(history) + samples[..0] == old(history);
      while i < |samples|
        invariant 0 <= i <= |samples|
        invariant Valid() && history == old(history) + samples[..i]
        invariant Frames(render, old(history)) + frames == Frames(render, history)
      {
        var more := FeedOne(samples[i]);
        frames := frames + more;
        i := i + 1;
        assert samples[..i] == samples[..i - 1] + [samples[i - 1]];
      }
      assert samples[..i] == samples;
      assert frames == Frames(render, history)[|Frames(render, old(history))|..];
    }

    /** Zero or one frame: what the callback received for this sample. */
    method FeedOne(sample: Sample) returns (frames: seq<F>)
      requires Valid()
      modifies this, buf
      ensures Valid() && history == old(history) + [sample]
      ensures frames == Emitted(render, old(history), [sample])
    {
      hide Emitted, Frames, FrameCount, Window, Ring, Head, HopRemaining, AtBoundary;
      FramesStep(render, history, sample);
      if filled < WINDOW_SAMPLES {
        frames := Fill(sample);
      } else {
        frames := Slide(sample);
      }
    }

    /** The frame due for the samples heard so far, if one is due now. */
    ghost function Due(): seq<F>
      reads this
    {
      if AtBoundary(|history|) then [render(history[|history| - WINDOW_SAMPLES..])] else []
    }

    /** The initial fill of `feed_one`. */
    method Fill(sample: Sample) returns (frames: seq<F>)
      requires Valid() && filled < WINDOW_SAMPLES
      modifies this, buf
      ensures Valid() && history == old(history) + [sample]
      ensures frames == Due()
    {
      hide Ring, AtBoundary, Head, HopRemaining;
      PrimingStep(history, sample);
      frames := [];
      StoreAt(filled, sample);
      filled := filled + 1;
      history := history + [sample];
      if filled == WINDOW_SAMPLES {
        var frame := EmitFrame();
        frames := [frame];
        hopRemaining := HOP_SAMPLES;
      }
    }

    /** The steady state of `feed_one`: overwrite the oldest sample and count the hop down. */
    method Slide(sample: Sample) returns (frames: seq<F>)
      requires Valid() && filled == WINDOW_SAMPLES
      modifies this, buf
      ensures Valid() && history == old(history) + [sample]
      ensures frames == Due()
    {
      hide Ring, AtBoundary, Head, HopRemaining;
      SteadyStep(history, sample);
      frames := [];
      StoreAt(head, sample);
      head := (head + 1) % WINDOW_SAMPLES;
      history := history + [sample];
      hopRemaining := hopRemaining - 1;
      if hopRemaining == 0 {
        var frame := EmitFrame();
        frames := [frame];
        hopRemaining := HOP_SAMPLES;
      }
    }

    /** One write into the ring. */
    method StoreAt(slot: nat, sample: Sample)
      requires slot < buf.Length
      modifies buf
      ensures buf[..] == old(buf[..])[slot := sample]
    {
      buf[slot] := sample;
    }

    /** Discards everything heard so far: the state is the one the constructor builds. */
    method Reset()
      requires Valid()
      modifies this, buf
      ensures Valid() && history == []
      ensures filled == 0 && head == 0 && hopRemaining == 0 && buf[..] == seq(WINDOW_SAMPLES, i => 0)
    {
      filled, head, hopRemaining := 0, 0, 0;
      forall i | 0 <= i < buf.Length {
        buf[i] := 0;
      }
      history := [];
    }

    method EmitFrame() returns (frame: F)
      requires buf.Length == WINDOW_SAMPLES <= |history| && head == Head(|history|) && buf[..] == Ring(history)
      ensures frame == render(history[|history| - WINDOW_SAMPLES..])
    {
      RingReorder(history);
      var fftBuf := buf[head..] + buf[..head];
      assert fftBuf == Ring(history)[head..] + Ring(history)[..head];
      frame := render(fftBuf);
    }
  }

  /** Feeding a fresh frontend chunk by chunk yields the frames of the whole recording, however it
      was cut. */
  method PushAll<F>(render: seq<Sample> -> F, chunks: seq<seq<Sample>>) returns (frames: seq<F>)
    ensures frames == Frames(render, Flatten(chunks))
  {
    var frontend := new MelFrontend(render);
    frames := [];
    assert [] + Flatten(chunks) == Flatten(chunks) && chunks[0..] == chunks;
    for i := 0 to |chunks|
      invariant frontend.Valid() && frontend.render == render && fresh(frontend) && fresh(frontend.buf)
      invariant frontend.history + Flatten(chunks[i..]) == Flatten(chunks)
      invariant frames == Frames(render, frontend.history)
    {
      var more := frontend.PushSamples(chunks[i]);
      frames := frames + more;
      assert chunks[i..][1..] == chunks[i + 1..];
    }
    assert frontend.history + [] == frontend.history;
  }
}
