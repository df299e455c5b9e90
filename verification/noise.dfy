/** The server's per-session energy gate: an exponential moving average of
    frame energy as the noise floor, and frames well below it silenced. */
module Noise {
  import Vad

  const InitialFloor: real := 0.001
  const Alpha: real := 0.95
  /** A frame passes only if its energy reaches this multiple of the floor. */
  const GateFactor: real := 1.2

  datatype Suppressor = Suppressor(noiseFloor: real)

  datatype Gated = Gated(next: Suppressor, frame: seq<real>)

  function NewSuppressor(): (n: Suppressor)
    ensures n.noiseFloor == InitialFloor
  {
    Suppressor(InitialFloor)
  }

  function Zeros(n: nat): (z: seq<real>)
    ensures |z| == n && forall i :: 0 <= i < n ==> z[i] == 0.0
  {
    seq(n, i => 0.0)
  }

  predicate AllZero(xs: seq<real>) {
    forall i :: 0 <= i < |xs| ==> xs[i] == 0.0
  }

  /** `NoiseSuppressor.suppress`. The floor moves toward the frame's energy
      on every call, whatever the gate then decides; the gate compares
      against the updated floor. An empty frame would divide by zero. */
  function Suppress(n: Suppressor, frame: seq<real>): (r: Gated)
    requires |frame| > 0
    ensures var e := Vad.MeanSquare(frame);
      r.next.noiseFloor == Alpha * n.noiseFloor + (1.0 - Alpha) * e
    ensures |r.frame| == |frame|
    ensures Vad.MeanSquare(frame) < GateFactor * r.next.noiseFloor ==> AllZero(r.frame)
    ensures Vad.MeanSquare(frame) >= GateFactor * r.next.noiseFloor ==> r.frame == frame
  {
    var energy := Vad.MeanSquare(frame);
    var floor := Alpha * n.noiseFloor + (1.0 - Alpha) * energy;
    if energy < floor * GateFactor then Gated(Suppressor(floor), Zeros(|frame|))
    else Gated(Suppressor(floor), frame)
  }

  /** The updated floor lies between the old floor and the frame energy. */
  lemma FloorBetween(n: Suppressor, frame: seq<real>)
    requires |frame| > 0
    ensures var e := Vad.MeanSquare(frame); var f := Suppress(n, frame).next.noiseFloor;
      && (n.noiseFloor <= e ==> n.noiseFloor <= f <= e)
      && (e <= n.noiseFloor ==> e <= f <= n.noiseFloor)
  {
  }

  /** With a positive floor, the output is silent exactly when the gate
      closes: a passed frame always carries some non-zero sample. */
  lemma GateIff(n: Suppressor, frame: seq<real>)
    requires |frame| > 0 && n.noiseFloor > 0.0
    ensures AllZero(Suppress(n, frame).frame)
        <==> Vad.MeanSquare(frame) < GateFactor * Suppress(n, frame).next.noiseFloor
  {
    var r := Suppress(n, frame);
    if Vad.MeanSquare(frame) >= GateFactor * r.next.noiseFloor && AllZero(frame) {
      ZeroEnergy(frame);
    }
  }

  lemma {:induction false} ZeroEnergy(xs: seq<real>)
    requires AllZero(xs)
    ensures Vad.SumSquares(xs) == 0.0 && Vad.MeanSquare(xs) == 0.0
    decreases |xs|
  {
    if xs != [] {
      ZeroEnergy(xs[..|xs| - 1]);
    }
  }

  /** Gates a stream of non-empty frames, returning the final state. */
  function GateAll(n: Suppressor, frames: seq<seq<real>>): Suppressor
    requires forall k :: 0 <= k < |frames| ==> |frames[k]| > 0
    decreases |frames|
  {
    if frames == [] then n else GateAll(Suppress(n, frames[0]).next, frames[1..])
  }

  /** From the initial floor the floor stays positive, however many frames
      (including silent ones) go through. */
  lemma {:induction false} FloorStaysPositive(n: Suppressor, frames: seq<seq<real>>)
    requires n.noiseFloor > 0.0
    requires forall k :: 0 <= k < |frames| ==> |frames[k]| > 0
    ensures GateAll(n, frames).noiseFloor > 0.0
    decreases |frames|
  {
    if frames != [] {
      FloorBetween(n, frames[0]);
      FloorStaysPositive(Suppress(n, frames[0]).next, frames[1..]);
    }
  }
}
