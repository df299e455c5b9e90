/** The browser client's microphone encoder: float samples to 16-bit
    little-endian PCM, the format the server's detector decodes. */
module AudioManager {
  import opened Basics
  import Vad

  function Clamp(s: real): (c: real)
    ensures -1.0 <= c <= 1.0
    ensures -1.0 <= s <= 1.0 ==> c == s
    ensures s < -1.0 ==> c == -1.0
    ensures s > 1.0 ==> c == 1.0
  {
    if s < -1.0 then -1.0 else if s > 1.0 then 1.0 else s
  }

  /** Rounding toward zero, as `setInt16` converts its argument. */
  function Truncate(r: real): (n: int)
    ensures r >= 0.0 ==> n as real <= r < n as real + 1.0
    ensures r < 0.0 ==> n as real - 1.0 < r <= n as real
  {
    if r >= 0.0 then r.Floor else -((-r).Floor)
  }

  /** The int16 written for one sample: clamped, then scaled by 0x8000 if
      negative and by 0x7fff otherwise. */
  function Pcm16Value(s: real): (v: int)
    ensures -32768 <= v <= 32767
    ensures Clamp(s) < 0.0 ==> v <= 0
    ensures Clamp(s) >= 0.0 ==> v >= 0
  {
    var c := Clamp(s);
    Truncate(if c < 0.0 then c * 32768.0 else c * 32767.0)
  }

  /** The two bytes `setInt16(offset, v, true)` stores: low byte first. */
  function EncodeInt16(v: int): (b: (Byte, Byte))
    requires -32768 <= v <= 32767
    ensures Vad.Int16Le(b.0, b.1) == v
  {
    var u := if v < 0 then v + 65536 else v;
    (u % 256, u / 256)
  }

  /** `float32ToPCM16`. */
  method Float32ToPcm16(xs: seq<real>) returns (bytes: seq<Byte>)
    ensures |bytes| == 2 * |xs|
    ensures forall i :: 0 <= i < |xs| ==> Vad.Int16Le(bytes[2 * i], bytes[2 * i + 1]) == Pcm16Value(xs[i])
    ensures forall i :: 0 <= i < |xs| ==> Vad.DecodePcm16(bytes)[i] == Pcm16Value(xs[i]) as real / 32768.0
  {
    bytes := [];
    var i := 0;
    while i < |xs|
      invariant 0 <= i <= |xs|
      invariant |bytes| == 2 * i
      invariant forall k :: 0 <= k < i ==> Vad.Int16Le(bytes[2 * k], bytes[2 * k + 1]) == Pcm16Value(xs[k])
    {
      var pair := EncodeInt16(Pcm16Value(xs[i]));
      bytes := bytes + [pair.0, pair.1];
      i := i + 1;
    }
    forall k | 0 <= k < |xs|
      ensures Vad.DecodePcm16(bytes)[k] == Pcm16Value(xs[k]) as real / 32768.0
    {
      Vad.DecodeAt(bytes, k);
    }
  }

  /** Full-scale samples hit the int16 extremes; out-of-range samples are
      clamped first. */
  lemma Extremes()
    ensures Pcm16Value(-1.0) == -32768 && Pcm16Value(1.0) == 32767
    ensures Pcm16Value(-3.5) == -32768 && Pcm16Value(2.0) == 32767
    ensures Pcm16Value(0.0) == 0
  {
  }

  /** Scaling is asymmetric: a negative sample uses 0x8000, a non-negative
      one 0x7fff, so the same magnitude can encode to different sizes. */
  lemma Asymmetric()
    ensures Pcm16Value(-0.5) == -16384 && Pcm16Value(0.5) == 16383
  {
  }
}
