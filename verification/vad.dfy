/** The server's voice-activity detector: a two-state machine (silent,
    speaking) driven by the mean squared amplitude of each frame, with a
    silence-counter hangover before speech is declared over. */
module Vad {
  import opened Basics

  /** Mean squared amplitude above which a frame counts as speech. */
  const SpeechThreshold: real := 0.003
  /** Quiet frames tolerated while speaking; the next one ends speech. */
  const SilenceLimit: nat := 8

  datatype Detector = Detector(silenceFrames: nat, speaking: bool)

  datatype Event = SpeechStart | SpeechEnd | NoEvent

  /** A frame as the server receives it (a PCM16 buffer) or as already
      decoded amplitude samples. */
  datatype Frame = Pcm(bytes: seq<Byte>) | Samples(xs: seq<real>)

  datatype Step = Step(next: Detector, event: Event)

  /** The constructor's state: silent, with no quiet frames counted. */
  function NewDetector(): (d: Detector)
    ensures !d.speaking && d.silenceFrames == 0
  {
    Detector(0, false)
  }

  /** `readInt16LE`: two bytes, low byte first, as a two's-complement int16. */
  function Int16Le(lo: Byte, hi: Byte): (v: int)
    ensures -32768 <= v <= 32767
    ensures (v + 65536) % 65536 == lo + 256 * hi
  {
    var u := lo + 256 * hi;
    if u >= 32768 then u - 65536 else u
  }

  /** Decodes a PCM16 buffer into samples scaled by 1/32768; a trailing odd
      byte is ignored, as the typed-array length truncates `length / 2`. */
  function DecodePcm16(bytes: seq<Byte>): (xs: seq<real>)
    ensures |xs| == |bytes| / 2
    ensures forall i :: 0 <= i < |xs| ==> -1.0 <= xs[i] <= 32767.0 / 32768.0
    decreases |bytes|
  {
    if |bytes| < 2 then []
    else [Int16Le(bytes[0], bytes[1]) as real / 32768.0] + DecodePcm16(bytes[2..])
  }

  /** Sample `i` is the `i`-th byte pair read as an int16 and scaled. */
  lemma {:induction false} DecodeAt(bytes: seq<Byte>, i: nat)
    requires i < |bytes| / 2
    ensures DecodePcm16(bytes)[i] == Int16Le(bytes[2 * i], bytes[2 * i + 1]) as real / 32768.0
    decreases i
  {
    if i > 0 {
      DecodeAt(bytes[2..], i - 1);
    }
  }

  function FrameSamples(f: Frame): seq<real> {
    match f
    case Pcm(b) => DecodePcm16(b)
    case Samples(xs) => xs
  }

  function SumSquares(xs: seq<real>): (r: real)
    ensures r >= 0.0
  {
    if xs == [] then 0.0 else SumSquares(xs[..|xs| - 1]) + xs[|xs| - 1] * xs[|xs| - 1]
  }

  /** Mean squared amplitude; an empty frame divides by 1 and has energy 0. */
  function MeanSquare(xs: seq<real>): (e: real)
    ensures e >= 0.0
    ensures xs == [] ==> e == 0.0
  {
    if xs == [] then 0.0 else SumSquares(xs) / |xs| as real
  }

  /** The accumulation loop of `process`, over already decoded samples. */
  method ComputeEnergy(xs: seq<real>) returns (e: real)
    ensures e == MeanSquare(xs)
  {
    var acc := 0.0;
    var i := 0;
    while i < |xs|
      invariant 0 <= i <= |xs|
      invariant acc == SumSquares(xs[..i])
    {
      assert xs[..i + 1][..i] == xs[..i];
      acc := acc + xs[i] * xs[i];
      i := i + 1;
    }
    assert xs[..i] == xs;
    var n := if |xs| == 0 then 1 else |xs|;
    e := acc / n as real;
  }

  function Energy(f: Frame): real {
    MeanSquare(FrameSamples(f))
  }

  predicate IsLoud(energy: real) {
    energy > SpeechThreshold
  }

  /** One detector step on a frame of the given energy. */
  function StepEnergy(d: Detector, energy: real): (r: Step)
    ensures IsLoud(energy) ==>
      && r.next.silenceFrames == 0 && r.next.speaking
      && (r.event == SpeechStart <==> !d.speaking)
      && (r.event != SpeechStart ==> r.event == NoEvent)
    ensures !IsLoud(energy) ==>
      && r.next.silenceFrames == d.silenceFrames + 1
      && (r.event == SpeechEnd <==> d.speaking && d.silenceFrames + 1 > SilenceLimit)
      && (r.event != SpeechEnd ==> r.event == NoEvent)
      && (r.next.speaking <==> d.speaking && r.event != SpeechEnd)
  {
    if IsLoud(energy) then
      if !d.speaking then Step(Detector(0, true), SpeechStart)
      else Step(Detector(0, true), NoEvent)
    else
      var silence := d.silenceFrames + 1;
      if d.speaking && silence > SilenceLimit then Step(Detector(silence, false), SpeechEnd)
      else Step(Detector(silence, d.speaking), NoEvent)
  }

  /** `VAD.process`: a start exactly when a loud frame finds the detector
      silent, an end exactly when the ninth quiet frame in a row finds it
      speaking, and the detector speaking afterwards exactly when the frame
      is loud or it was speaking and did not just stop. */
  function Process(d: Detector, f: Frame): (r: Step)
    ensures r.event == SpeechStart <==> !d.speaking && IsLoud(Energy(f))
    ensures r.event == SpeechEnd <==> d.speaking && !IsLoud(Energy(f)) && d.silenceFrames + 1 > SilenceLimit
    ensures r.next.speaking <==> IsLoud(Energy(f)) || (d.speaking && r.event != SpeechEnd)
    ensures r.next.silenceFrames == if IsLoud(Energy(f)) then 0 else d.silenceFrames + 1
  {
    StepEnergy(d, Energy(f))
  }

  datatype Trace = Trace(last: Detector, events: seq<Event>)

  /** Feeds frames one by one, collecting every result including `null`s. */
  function Run(d: Detector, frames: seq<Frame>): (t: Trace)
    ensures |t.events| == |frames|
    decreases |frames|
  {
    if frames == [] then Trace(d, [])
    else
      var s := Process(d, frames[0]);
      var rest := Run(s.next, frames[1..]);
      Trace(rest.last, [s.event] + rest.events)
  }

  /** Non-null events alternate: a start only while silent, an end only
      while speaking. */
  predicate Bracketed(events: seq<Event>, speaking: bool) {
    if events == [] then true
    else match events[0]
      case NoEvent => Bracketed(events[1..], speaking)
      case SpeechStart => !speaking && Bracketed(events[1..], true)
      case SpeechEnd => speaking && Bracketed(events[1..], false)
  }

  /** Whatever the frames, the detector's output alternates start, end,
      start, ..., beginning with a start when it was silent. */
  lemma {:induction false} RunIsBracketed(d: Detector, frames: seq<Frame>)
    ensures Bracketed(Run(d, frames).events, d.speaking)
    ensures Run(d, frames).last.speaking == LastSpeaking(Run(d, frames).events, d.speaking)
    decreases |frames|
  {
    if frames != [] {
      var s := Process(d, frames[0]);
      RunIsBracketed(s.next, frames[1..]);
      var evs := Run(d, frames).events;
      assert evs[1..] == Run(s.next, frames[1..]).events;
    }
  }

  /** Speaking after the last non-null event, or `speaking` if there is none. */
  function LastSpeaking(events: seq<Event>, speaking: bool): bool {
    if events == [] then speaking
    else match events[0]
      case NoEvent => LastSpeaking(events[1..], speaking)
      case SpeechStart => LastSpeaking(events[1..], true)
      case SpeechEnd => LastSpeaking(events[1..], false)
  }

  function Repeat<T>(x: T, n: nat): (r: seq<T>)
    ensures |r| == n && forall i :: 0 <= i < n ==> r[i] == x
  {
    if n == 0 then [] else [x] + Repeat(x, n - 1)
  }

  /** A speaking detector stays speaking through up to `SilenceLimit` quiet
      frames in a row, emitting nothing, and the next quiet frame ends
      speech: a short pause never splits an utterance. */
  lemma {:induction false} Hangover(d: Detector, k: nat, quiet: Frame)
    requires d.speaking && !IsLoud(Energy(quiet))
    requires d.silenceFrames + k <= SilenceLimit
    ensures Run(d, Repeat(quiet, k)).events == Repeat(NoEvent, k)
    ensures Run(d, Repeat(quiet, k)).last == Detector(d.silenceFrames + k, true)
    decreases k
  {
    if k > 0 {
      var next := Detector(d.silenceFrames + 1, true);
      assert Process(d, quiet) == Step(next, NoEvent);
      var frames := Repeat(quiet, k);
      assert frames[0] == quiet && frames[1..] == Repeat(quiet, k - 1);
      Hangover(next, k - 1, quiet);
      var rest := Run(next, frames[1..]);
      assert Run(d, frames) == Trace(rest.last, [NoEvent] + rest.events);
    }
  }

  /** The fixed scenario: 3 quiet, 4 loud, then 9 quiet frames from a fresh
      detector give nothing, a start, nothing for eleven frames, an end. */
  lemma Scenario()
    ensures var quiet := Samples([0.0]); var loud := Samples([1.0]);
      Run(NewDetector(), Repeat(quiet, 3) + Repeat(loud, 4) + Repeat(quiet, 9)).events
      == Repeat(NoEvent, 3) + [SpeechStart] + Repeat(NoEvent, 3) + Repeat(NoEvent, 8) + [SpeechEnd]
  {
    var quiet := Samples([0.0]);
    var loud := Samples([1.0]);
    var a, b, c := Repeat(quiet, 3), Repeat(loud, 4), Repeat(quiet, 9);
    var silent := Run(NewDetector(), a);
    assert silent == Trace(Detector(3, false), Repeat(NoEvent, 3)) by {
      SampleEnergies();
      RunQuiet(NewDetector(), 3, quiet);
    }
    var talk := Run(silent.last, b);
    assert talk == Trace(Detector(0, true), [SpeechStart] + Repeat(NoEvent, 3)) by {
      SampleEnergies();
      assert b[1..] == Repeat(loud, 3);
      RunLoud(Detector(0, true), 3, loud);
    }
    var done := Run(talk.last, c);
    assert done.events == Repeat(NoEvent, 8) + [SpeechEnd] by {
      SampleEnergies();
      Hangover(talk.last, 8, quiet);
      var pause := Run(talk.last, Repeat(quiet, 8));
      assert Run(pause.last, [quiet]).events == [SpeechEnd];
      RepeatSnoc(quiet, 8);
      RunAppend(talk.last, Repeat(quiet, 8), [quiet]);
    }
    assert Run(NewDetector(), a + b + c).events == silent.events + talk.events + done.events by {
      RunAppend(NewDetector(), a, b);
      RunAppend(NewDetector(), a + b, c);
    }
  }

  /** The energies of the one-sample frames the scenario uses. */
  lemma SampleEnergies()
    ensures Energy(Samples([0.0])) == 0.0 && Energy(Samples([1.0])) == 1.0
  {
    assert [0.0][..0] == [];
    assert [1.0][..0] == [];
  }

  lemma {:induction false} RepeatSnoc<T>(x: T, n: nat)
    ensures Repeat(x, n + 1) == Repeat(x, n) + [x]
  {
  }

  lemma {:induction false} RunQuiet(d: Detector, k: nat, quiet: Frame)
    requires !d.speaking && !IsLoud(Energy(quiet))
    ensures Run(d, Repeat(quiet, k)).events == Repeat(NoEvent, k)
    ensures Run(d, Repeat(quiet, k)).last == Detector(d.silenceFrames + k, false)
    decreases k
  {
    if k > 0 {
      var next := Detector(d.silenceFrames + 1, false);
      assert Process(d, quiet) == Step(next, NoEvent);
      var frames := Repeat(quiet, k);
      assert frames[0] == quiet && frames[1..] == Repeat(quiet, k - 1);
      RunQuiet(next, k - 1, quiet);
      var rest := Run(next, frames[1..]);
      assert Run(d, frames) == Trace(rest.last, [NoEvent] + rest.events);
    }
  }

  lemma {:induction false} RunLoud(d: Detector, k: nat, loud: Frame)
    requires d.speaking && IsLoud(Energy(loud))
    ensures Run(d, Repeat(loud, k)).events == Repeat(NoEvent, k)
    ensures k > 0 ==> Run(d, Repeat(loud, k)).last == Detector(0, true)
    ensures k == 0 ==> Run(d, Repeat(loud, k)).last == d
    decreases k
  {
    if k > 0 {
      var next := Detector(0, true);
      assert Process(d, loud) == Step(next, NoEvent);
      var frames := Repeat(loud, k);
      assert frames[0] == loud && frames[1..] == Repeat(loud, k - 1);
      RunLoud(next, k - 1, loud);
      var rest := Run(next, frames[1..]);
      assert Run(d, frames) == Trace(rest.last, [NoEvent] + rest.events);
    }
  }

  /** Running two frame sequences back to back is running their concatenation. */
  lemma {:induction false} RunAppend(d: Detector, a: seq<Frame>, b: seq<Frame>)
    ensures var ra := Run(d, a); var rb := Run(ra.last, b);
      Run(d, a + b) == Trace(rb.last, ra.events + rb.events)
    decreases |a|
  {
    if a == [] {
      assert a + b == b;
    } else {
      var s := Process(d, a[0]);
      var r1 := Run(s.next, a[1..]);
      var rb := Run(r1.last, b);
      assert Run(d, a + b) == Trace(rb.last, [s.event] + (r1.events + rb.events)) by {
        assert (a + b)[0] == a[0] && (a + b)[1..] == a[1..] + b;
        RunAppend(s.next, a[1..], b);
      }
      assert [s.event] + (r1.events + rb.events) == [s.event] + r1.events + rb.events;
    }
  }

}
