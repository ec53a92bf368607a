/**
 * The silence trimmer of the audio trimmer window: a clip's samples are
 * scanned from the front for the first sample whose magnitude reaches the
 * threshold and from the back for the last one, and the samples between the
 * two (inclusive) are copied into a new clip.
 *
 * Samples are modelled as reals; the single-precision rounding of the
 * source is not modelled.
 */
module SilenceTrim {
  import ArrayCopy

  /**
   * A decoded audio clip: its name, its interleaved samples, its channel
   * count and its sample rate. The clip's sample count is the length of the
   * sample sequence.
   */
  datatype Clip = Clip(name: string, samples: seq<real>, channels: int, frequency: int)

  /** What trimming produces. */
  datatype TrimResult =
    | Trimmed(clip: Clip)
      // the clip's data could not be read, and no clip is made
    | NoData
      // the copy buffer would have this negative length, and its allocation throws
    | NegativeLength(length: int)

  /** The magnitude of a sample (Mathf.Abs). */
  function Abs(x: real): (r: real)
    ensures r >= 0.0 && (r == x || r == -x)
  {
    if x < 0.0 then -x else x
  }

  /** A sample is loud when its magnitude reaches the threshold (inclusive). */
  predicate Loud(x: real, threshold: real): (loud: bool)
    ensures loud <==> x >= threshold || -x >= threshold
  {
    Abs(x) >= threshold
  }

  /** Some sample of `s` is loud. */
  predicate Audible(s: seq<real>, threshold: real)
  {
    exists k :: 0 <= k < |s| && Loud(s[k], threshold)
  }

  /** The index of the first loud sample, or |s| when there is none. */
  function FirstLoud(s: seq<real>, threshold: real): (i: nat)
    ensures i <= |s|
    ensures forall k :: 0 <= k < i ==> !Loud(s[k], threshold)
    ensures i < |s| ==> Loud(s[i], threshold)
  {
    if s == [] then 0
    else if Loud(s[0], threshold) then 0
    else 1 + FirstLoud(s[1..], threshold)
  }

  /** The index of the last loud sample, or -1 when there is none. */
  function LastLoud(s: seq<real>, threshold: real): (j: int)
    ensures -1 <= j < |s|
    ensures forall k :: j < k < |s| ==> !Loud(s[k], threshold)
    ensures j >= 0 ==> Loud(s[j], threshold)
  {
    if s == [] then -1
    else if Loud(s[|s| - 1], threshold) then |s| - 1
    else LastLoud(s[..|s| - 1], threshold)
  }

  /**
   * The samples trimming keeps: from the first loud sample to the last one,
   * both included, or nothing when no sample is loud.
   */
  function Kept(s: seq<real>, threshold: real): (kept: seq<real>)
  {
    var i, j := FirstLoud(s, threshold), LastLoud(s, threshold);
    if i <= j then s[i..j + 1] else []
  }

  /** Leading quiet samples removed one at a time: a reference for the forward scan. */
  function DropLeadingQuiet(s: seq<real>, threshold: real): (rest: seq<real>)
  {
    if s != [] && !Loud(s[0], threshold) then DropLeadingQuiet(s[1..], threshold) else s
  }

  /** Trailing quiet samples removed one at a time: a reference for the backward scan. */
  function DropTrailingQuiet(s: seq<real>, threshold: real): (rest: seq<real>)
  {
    if s != [] && !Loud(s[|s| - 1], threshold) then DropTrailingQuiet(s[..|s| - 1], threshold) else s
  }

  /**
   * The two scans meet exactly when some sample is loud; for a silent
   * buffer the forward scan ends at |s| and the backward scan at -1.
   */
  lemma ScansMeetIffAudible(s: seq<real>, threshold: real)
    ensures Audible(s, threshold) <==> FirstLoud(s, threshold) <= LastLoud(s, threshold)
    ensures !Audible(s, threshold) ==> FirstLoud(s, threshold) == |s| && LastLoud(s, threshold) == -1
  {
    var i, j := FirstLoud(s, threshold), LastLoud(s, threshold);
    if Audible(s, threshold) {
      var k :| 0 <= k < |s| && Loud(s[k], threshold);
      assert i <= k <= j;
    }
  }

  /** Trimmed samples begin and end with a loud sample, and every dropped sample is quiet. */
  lemma KeptBoundaries(s: seq<real>, threshold: real)
    ensures Kept(s, threshold) != [] ==>
      Loud(Kept(s, threshold)[0], threshold) && Loud(Kept(s, threshold)[|Kept(s, threshold)| - 1], threshold)
    ensures Audible(s, threshold) ==>
      |Kept(s, threshold)| == LastLoud(s, threshold) - FirstLoud(s, threshold) + 1
    ensures !Audible(s, threshold) ==> Kept(s, threshold) == []
  {
    var i, j := FirstLoud(s, threshold), LastLoud(s, threshold);
    ScansMeetIffAudible(s, threshold);
    var r := Kept(s, threshold);
    if i <= j {
      assert r == s[i..j + 1];
      assert r[0] == s[i] && Loud(s[i], threshold);
      assert r[j - i] == s[j] && Loud(s[j], threshold);
    } else {
      assert r == [];
    }
  }

  /** Dropping leading quiet samples leaves the suffix from the first loud one. */
  lemma {:induction false} DropLeadingIsSuffix(s: seq<real>, threshold: real)
    ensures DropLeadingQuiet(s, threshold) == s[FirstLoud(s, threshold)..]
  {
    if s != [] && !Loud(s[0], threshold) {
      DropLeadingIsSuffix(s[1..], threshold);
      assert s[1..][FirstLoud(s[1..], threshold)..] == s[FirstLoud(s, threshold)..];
    }
  }

  /** Dropping trailing quiet samples leaves the prefix up to the last loud one. */
  lemma {:induction false} DropTrailingIsPrefix(s: seq<real>, threshold: real)
    ensures DropTrailingQuiet(s, threshold) == s[..LastLoud(s, threshold) + 1]
  {
    if s != [] && !Loud(s[|s| - 1], threshold) {
      var front := s[..|s| - 1];
      DropTrailingIsPrefix(front, threshold);
      assert front[..LastLoud(front, threshold) + 1] == s[..LastLoud(s, threshold) + 1];
    }
  }

  /** The first loud index is the only index with its two properties. */
  lemma FirstLoudUnique(s: seq<real>, threshold: real, i: nat)
    requires i <= |s|
    requires forall k :: 0 <= k < i ==> !Loud(s[k], threshold)
    requires i < |s| ==> Loud(s[i], threshold)
    ensures FirstLoud(s, threshold) == i
  {
  }

  /** The last loud index is the only index with its two properties. */
  lemma LastLoudUnique(s: seq<real>, threshold: real, j: int)
    requires -1 <= j < |s|
    requires forall k :: j < k < |s| ==> !Loud(s[k], threshold)
    requires j >= 0 ==> Loud(s[j], threshold)
    ensures LastLoud(s, threshold) == j
  {
  }

  /** The last loud index of a suffix is shifted by the suffix's start. */
  lemma LastLoudOfSuffix(s: seq<real>, threshold: real, i: nat)
    requires i <= |s|
    requires i <= LastLoud(s, threshold)
    ensures LastLoud(s[i..], threshold) == LastLoud(s, threshold) - i
  {
    var j, j' := LastLoud(s, threshold), LastLoud(s[i..], threshold);
    assert s[i..][j - i] == s[j];
  }

  /** Trimming is the same as stripping quiet samples from both ends. */
  lemma KeptIsStripped(s: seq<real>, threshold: real)
    ensures Kept(s, threshold) == DropTrailingQuiet(DropLeadingQuiet(s, threshold), threshold)
  {
    var i, j := FirstLoud(s, threshold), LastLoud(s, threshold);
    DropLeadingIsSuffix(s, threshold);
    if i <= j {
      StripSuffix(s, threshold, i, j);
    } else {
      ScansMeetIffAudible(s, threshold);
      assert s[i..] == [];
    }
  }

  /** Once the leading quiet samples are gone, dropping the trailing ones leaves the kept samples. */
  lemma StripSuffix(s: seq<real>, threshold: real, i: nat, j: int)
    requires i == FirstLoud(s, threshold) && j == LastLoud(s, threshold) && i <= j
    ensures DropTrailingQuiet(s[i..], threshold) == s[i..j + 1]
  {
    DropTrailingIsPrefix(s[i..], threshold);
    LastLoudOfSuffix(s, threshold, i);
    PrefixOfSuffix(s, i, j + 1);
  }

  /** A prefix of a suffix is a slice. */
  lemma PrefixOfSuffix<T>(s: seq<T>, lo: nat, hi: nat)
    requires lo <= hi <= |s|
    ensures s[lo..][..hi - lo] == s[lo..hi]
  {
  }

  /** Trimming an already trimmed buffer changes nothing. */
  lemma KeptIdempotent(s: seq<real>, threshold: real)
    ensures Kept(Kept(s, threshold), threshold) == Kept(s, threshold)
  {
    var r := Kept(s, threshold);
    KeptBoundaries(s, threshold);
    if r != [] {
      var i, j := FirstLoud(r, threshold), LastLoud(r, threshold);
      assert i == 0;
      assert j == |r| - 1;
      assert r[i..j + 1] == r;
    }
  }

  /**
   * What trimming a readable clip yields: the clip with only its kept samples
   * when some sample is loud or there are no samples, and otherwise the
   * failure of allocating a buffer of length -n.
   */
  function TrimOf(clip: Clip, threshold: real): (r: TrimResult)
    ensures r.Trimmed? <==> Audible(clip.samples, threshold) || clip.samples == []
    ensures r.Trimmed? ==> r.clip.name == clip.name && r.clip.channels == clip.channels
                           && r.clip.frequency == clip.frequency
                           && |r.clip.samples| <= |clip.samples|
    ensures r.NegativeLength? ==> r.length == -|clip.samples| < 0
    ensures !r.NoData?
  {
    if Audible(clip.samples, threshold) || clip.samples == []
    then Trimmed(clip.(samples := Kept(clip.samples, threshold)))
    else NegativeLength(-|clip.samples|)
  }

  /** How the length j - i + 1 computed from the two scans decides the outcome. */
  lemma ScanOutcome(s: seq<real>, threshold: real)
    ensures var i, j := FirstLoud(s, threshold), LastLoud(s, threshold);
      && (j - i + 1 >= 0 <==> Audible(s, threshold) || s == [])
      && (j - i + 1 >= 0 ==> s[i..j + 1] == Kept(s, threshold))
      && (j - i + 1 < 0 ==> j - i + 1 == -|s|)
  {
    ScansMeetIffAudible(s, threshold);
  }

  /** TrimOf in terms of the two scan indices, as TrimClip computes it. */
  lemma TrimOfScans(clip: Clip, threshold: real)
    ensures var i, j := FirstLoud(clip.samples, threshold), LastLoud(clip.samples, threshold);
      && (j - i + 1 < 0 ==> TrimOf(clip, threshold) == NegativeLength(j - i + 1))
      && (j - i + 1 >= 0 ==> TrimOf(clip, threshold) == Trimmed(clip.(samples := clip.samples[i..j + 1])))
  {
    ScanOutcome(clip.samples, threshold);
  }

  /** The forward scan of TrimClip: the index of the first loud sample, or |samples|. */
  method ScanForward(samples: seq<real>, threshold: real) returns (i: nat)
    ensures i == FirstLoud(samples, threshold)
  {
    i := 0;
    while i < |samples|
      invariant 0 <= i <= |samples|
      invariant forall k :: 0 <= k < i ==> !Loud(samples[k], threshold)
    {
      if Abs(samples[i]) >= threshold {
        break;
      }
      i := i + 1;
    }
    FirstLoudUnique(samples, threshold, i);
  }

  /** The backward scan of TrimClip: the index of the last loud sample, or -1. */
  method ScanBackward(samples: seq<real>, threshold: real) returns (j: int)
    ensures j == LastLoud(samples, threshold)
  {
    j := |samples| - 1;
    while j >= 0
      invariant -1 <= j < |samples|
      invariant forall k :: j < k < |samples| ==> !Loud(samples[k], threshold)
    {
      if Abs(samples[j]) >= threshold {
        break;
      }
      j := j - 1;
    }
    LastLoudUnique(samples, threshold, j);
  }

  /** A fresh buffer of `length` samples copied from `samples` starting at `start`. */
  method CopyRange(samples: seq<real>, start: nat, length: nat) returns (buffer: array<real>)
    requires start + length <= |samples|
    ensures fresh(buffer)
    ensures buffer[..] == samples[start..start + length]
  {
    buffer := new real[length];
    ArrayCopy.Copy(samples, start, buffer, 0, length);
  }

  /**
   * TrimClip: the effective threshold is the slider value divided by 100;
   * the forward loop stops at the first loud sample, the backward loop at
   * the last, and the samples between them are copied into a new clip of
   * length j - i + 1 with the same name, channels and rate. For a silent
   * non-empty clip that length is -n, and the allocation fails. When the
   * clip's data cannot be read there is no result.
   */
  method TrimClip(clip: Clip, trimThreshold: real, dataLoaded: bool) returns (r: TrimResult)
    ensures r == if dataLoaded then TrimOf(clip, trimThreshold / 100.0) else NoData
  {
    var threshold := trimThreshold / 100.0;
    if !dataLoaded {
      return NoData;
    }
    var samples := clip.samples;

    var i := ScanForward(samples, threshold);
    var j := ScanBackward(samples, threshold);
    TrimOfScans(clip, threshold);

    var length := j - i + 1;
    if length < 0 {
      r := NegativeLength(length);
    } else {
      var newSamples := CopyRange(samples, i, length);
      r := Trimmed(clip.(samples := newSamples[..]));
    }
  }
}
