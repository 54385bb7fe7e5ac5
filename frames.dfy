/**
 * Frame decoding: the normalisation of one entry's samples before they are
 * written to the audio device (alsa_py_test.py:210-212). Samples are taken as
 * already decoded from their float32 bytes and handled as exact reals.
 */
module Frames {

  /** `norm_factor`: the divisor applied to every raw sample. */
  const NormFactor: real := 50000.0
  /** The clip range of `np.clip(audio_samples, -1, 1, ...)`. */
  const ClipLow: real := -1.0
  const ClipHigh: real := 1.0

  function Dist(x: real, y: real): real
  {
    if x <= y then y - x else x - y
  }

  /** `np.clip` of one value into [ClipLow, ClipHigh]. */
  function Clip(x: real): (r: real)
    ensures ClipLow <= r <= ClipHigh
    ensures ClipLow <= x <= ClipHigh ==> r == x
    // the clipped value is the point of the range nearest to x
    ensures forall y :: ClipLow <= y <= ClipHigh ==> Dist(r, x) <= Dist(y, x)
  {
    if x < ClipLow then ClipLow else if x > ClipHigh then ClipHigh else x
  }

  /** One output sample: the raw sample divided by the divisor, then clipped. */
  function NormalizeSample(raw: real): (r: real)
    ensures ClipLow <= r <= ClipHigh
    ensures -NormFactor <= raw <= NormFactor ==> r * NormFactor == raw
    ensures raw >= NormFactor ==> r == ClipHigh
    ensures raw <= -NormFactor ==> r == ClipLow
  {
    Clip(raw / NormFactor)
  }

  /** The buffer written for one entry: every sample normalised, in order. */
  function Normalized(s: seq<real>): (r: seq<real>)
    ensures |r| == |s|
    ensures forall i :: 0 <= i < |r| ==> ClipLow <= r[i] <= ClipHigh
  {
    if s == [] then [] else [NormalizeSample(s[0])] + Normalized(s[1..])
  }

  /** Sample k of the output is sample k of the input, normalised. */
  lemma {:induction false} NormalizedAt(s: seq<real>, k: nat)
    requires k < |s|
    ensures Normalized(s)[k] == NormalizeSample(s[k])
  {
    if k > 0 {
      NormalizedAt(s[1..], k - 1);
    }
  }

  /** Normalising is order preserving on samples: louder in, never quieter out. */
  lemma NormalizeMonotone(a: real, b: real)
    requires a <= b
    ensures NormalizeSample(a) <= NormalizeSample(b)
  {
  }

  /** When no raw sample exceeds the divisor in magnitude nothing is clipped:
      every output sample times the divisor gives back the raw sample. */
  lemma {:induction false} NormalizedOfQuiet(s: seq<real>)
    requires forall i :: 0 <= i < |s| ==> -NormFactor <= s[i] <= NormFactor
    ensures forall i :: 0 <= i < |s| ==> Normalized(s)[i] * NormFactor == s[i]
  {
    forall i | 0 <= i < |s|
      ensures Normalized(s)[i] * NormFactor == s[i]
    {
      NormalizedAt(s, i);
    }
  }

  /**
   * `audio_samples / norm_factor` followed by `np.clip(..., out=audio_samples)`:
   * the buffer is rewritten in place, one sample at a time.
   */
  method NormalizeInPlace(a: array<real>)
    modifies a
    ensures a[..] == Normalized(old(a[..]))
  {
    var i := 0;
    while i < a.Length
      invariant 0 <= i <= a.Length
      invariant forall k :: 0 <= k < i ==> a[k] == NormalizeSample(old(a[k]))
      invariant forall k :: i <= k < a.Length ==> a[k] == old(a[k])
    {
      a[i] := NormalizeSample(a[i]);
      i := i + 1;
    }
    ghost var was := old(a[..]);
    forall k | 0 <= k < a.Length
      ensures a[..][k] == Normalized(was)[k]
    {
      NormalizedAt(was, k);
    }
  }
}
