/**
 * Chroma accumulation and normalisation (src/lib/audio-utils.ts, detectKey): the
 * magnitudes of in-band bins of every frame are added into twelve pitch-class
 * slots, and the slots are then divided by their maximum.
 */
module Chroma {
  import opened Wrappers
  import AnalysisWindow
  import PitchClass

  /** A spectral magnitude sqrt(re^2 + im^2): never negative. */
  type Magnitude = r: real | 0.0 <= r

  /**
   * The magnitude of bin k of the Hann-windowed FFT of a frame. The transform is
   * floating point, so it is a parameter of the model.
   */
  type Spectrum = (seq<real>, nat) -> Magnitude

  /** The samples of frame f: data[f * HopSize .. f * HopSize + FftSize]. */
  function Frame(data: seq<real>, f: nat): (frame: seq<real>)
    requires f < AnalysisWindow.FrameCount(|data|)
    ensures |frame| == AnalysisWindow.FftSize
  {
    var offset := f * AnalysisWindow.HopSize;
    data[offset..offset + AnalysisWindow.FftSize]
  }

  /** Total magnitude that bins 1 .. k-1 of one frame contribute to pitch class pc. */
  function BinSum(table: seq<int>, frame: seq<real>, magnitude: Spectrum, pc: int, k: nat): (s: real)
    requires k <= |table|
    ensures s >= 0.0
  {
    if k <= 1 then 0.0
    else BinSum(table, frame, magnitude, pc, k - 1) + (if table[k - 1] == pc then magnitude(frame, k - 1) else 0.0)
  }

  /** Total magnitude that the first `frames` frames contribute to pitch class pc. */
  function FrameSum(data: seq<real>, table: seq<int>, magnitude: Spectrum, pc: int, frames: nat): (s: real)
    requires |table| == PitchClass.BinCount
    requires frames <= AnalysisWindow.FrameCount(|data|)
    ensures s >= 0.0
  {
    if frames == 0 then 0.0
    else FrameSum(data, table, magnitude, pc, frames - 1)
         + BinSum(table, Frame(data, frames - 1), magnitude, pc, PitchClass.BinCount)
  }

  /**
   * The chroma vector of a window: slot pc holds the total magnitude of every in-band
   * bin of pitch class pc over every frame. A window shorter than one frame gives zeros.
   */
  function ChromaVector(data: seq<real>, table: seq<int>, magnitude: Spectrum): (v: seq<real>)
    requires |table| == PitchClass.BinCount
    ensures |v| == PitchClass.PitchClasses
    ensures forall pc :: 0 <= pc < |v| ==> v[pc] >= 0.0
    ensures |data| < AnalysisWindow.FftSize ==> forall pc :: 0 <= pc < |v| ==> v[pc] == 0.0
  {
    seq(PitchClass.PitchClasses, pc => FrameSum(data, table, magnitude, pc, AnalysisWindow.FrameCount(|data|)))
  }

  /**
   * The frame loop and the accumulation loop of detectKey: for every frame and every
   * bin k >= 1 whose table entry is a pitch class, add the bin's magnitude to that slot.
   */
  method AccumulateChroma(data: seq<real>, table: seq<int>, magnitude: Spectrum) returns (chroma: seq<real>)
    requires PitchClass.IsChromaTable(table)
    ensures chroma == ChromaVector(data, table, magnitude)
  {
    chroma := seq(PitchClass.PitchClasses, _ => 0.0);
    var offset := 0;
    ghost var f := 0;
    while offset + AnalysisWindow.FftSize <= |data|
      invariant f <= AnalysisWindow.FrameCount(|data|)
      invariant offset == f * AnalysisWindow.HopSize
      invariant offset + AnalysisWindow.FftSize <= |data| ==> f < AnalysisWindow.FrameCount(|data|)
      invariant |chroma| == PitchClass.PitchClasses
      invariant forall pc :: 0 <= pc < PitchClass.PitchClasses ==>
                  chroma[pc] == FrameSum(data, table, magnitude, pc, f)
    {
      var frame := data[offset..offset + AnalysisWindow.FftSize];
      assert frame == Frame(data, f);
      var k := 1;
      while k < PitchClass.BinCount
        invariant 1 <= k <= PitchClass.BinCount
        invariant |chroma| == PitchClass.PitchClasses
        invariant forall pc :: 0 <= pc < PitchClass.PitchClasses ==>
                    chroma[pc] == FrameSum(data, table, magnitude, pc, f) + BinSum(table, frame, magnitude, pc, k)
      {
        var pc := table[k];
        if pc >= 0 {
          chroma := chroma[pc := chroma[pc] + magnitude(frame, k)];
        }
        k := k + 1;
      }
      offset := offset + AnalysisWindow.HopSize;
      f := f + 1;
    }
  }

  /**
   * Only in-band bins of pitch class pc reach slot pc: two spectra that agree on those
   * bins give the same sum, whatever they hold for bin 0 or for any other bin.
   */
  lemma {:induction false} BinSumDependsOnlyOnItsBins(table: seq<int>, frame: seq<real>, m1: Spectrum, m2: Spectrum, pc: int, k: nat)
    requires k <= |table|
    requires forall b :: 1 <= b < k && table[b] == pc ==> m1(frame, b) == m2(frame, b)
    ensures BinSum(table, frame, m1, pc, k) == BinSum(table, frame, m2, pc, k)
  {
    if k > 1 {
      BinSumDependsOnlyOnItsBins(table, frame, m1, m2, pc, k - 1);
    }
  }

  /** A slot that no bin of the table maps to stays zero. */
  lemma {:induction false} UnmappedSlotStaysZero(data: seq<real>, table: seq<int>, magnitude: Spectrum, pc: int, frames: nat)
    requires |table| == PitchClass.BinCount
    requires frames <= AnalysisWindow.FrameCount(|data|)
    requires forall b :: 1 <= b < |table| ==> table[b] != pc
    ensures FrameSum(data, table, magnitude, pc, frames) == 0.0
  {
    if frames > 0 {
      UnmappedSlotStaysZero(data, table, magnitude, pc, frames - 1);
      BinSumOfUnmappedSlot(table, Frame(data, frames - 1), magnitude, pc, PitchClass.BinCount);
    }
  }

  lemma {:induction false} BinSumOfUnmappedSlot(table: seq<int>, frame: seq<real>, magnitude: Spectrum, pc: int, k: nat)
    requires k <= |table|
    requires forall b :: 1 <= b < |table| ==> table[b] != pc
    ensures BinSum(table, frame, magnitude, pc, k) == 0.0
  {
    if k > 1 {
      BinSumOfUnmappedSlot(table, frame, magnitude, pc, k - 1);
    }
  }

  /** A frame whose spectrum is zero in every bin adds nothing to any slot. */
  lemma {:induction false} SilentFrameAddsNothing(table: seq<int>, frame: seq<real>, magnitude: Spectrum, pc: int, k: nat)
    requires k <= |table|
    requires forall b :: 0 <= b < |table| ==> magnitude(frame, b) == 0.0
    ensures BinSum(table, frame, magnitude, pc, k) == 0.0
  {
    if k > 1 {
      SilentFrameAddsNothing(table, frame, magnitude, pc, k - 1);
    }
  }

  /** `Math.max(...values)` of a non-empty list. */
  function MaxOf(s: seq<real>): (m: real)
    requires |s| > 0
    ensures forall i :: 0 <= i < |s| ==> s[i] <= m
    ensures exists i :: 0 <= i < |s| && s[i] == m
  {
    if |s| == 1 then s[0]
    else
      var rest := MaxOf(s[1..]);
      assert forall i :: 1 <= i < |s| ==> s[i] == s[1..][i - 1];
      if s[0] >= rest then s[0] else rest
  }

  /** Every slot divided by the largest slot. */
  function Scaled(chroma: seq<real>, maxChroma: real): seq<real>
    requires maxChroma != 0.0
  {
    seq(|chroma|, i requires 0 <= i < |chroma| => chroma[i] / maxChroma)
  }

  /**
   * The normalisation step: None (detectKey returns "Unknown") exactly when every
   * slot is zero; otherwise every slot scaled into [0, 1], the largest becoming 1.
   */
  function Normalize(chroma: seq<real>): (r: Option<seq<real>>)
    requires |chroma| == PitchClass.PitchClasses
    requires forall i :: 0 <= i < |chroma| ==> chroma[i] >= 0.0
    ensures r.None? <==> forall i :: 0 <= i < |chroma| ==> chroma[i] == 0.0
    ensures r.Some? ==> |r.value| == |chroma|
    ensures r.Some? ==> forall i :: 0 <= i < |chroma| ==> 0.0 <= r.value[i] <= 1.0
    ensures r.Some? ==> exists i :: 0 <= i < |chroma| && r.value[i] == 1.0
  {
    var maxChroma := MaxOf(chroma);
    if maxChroma == 0.0 then None
    else
      var v := Scaled(chroma, maxChroma);
      forall i | 0 <= i < |chroma|
        ensures 0.0 <= v[i] <= 1.0
      {
        FractionOfMax(chroma[i], maxChroma);
      }
      var top :| 0 <= top < |chroma| && chroma[top] == maxChroma;
      SelfQuotient(maxChroma);
      assert v[top] == maxChroma / maxChroma == 1.0;
      assert chroma[top] != 0.0;
      Some(v)
  }

  lemma SelfQuotient(m: real)
    requires m != 0.0
    ensures m / m == 1.0
  {
  }

  lemma FractionOfMax(c: real, m: real)
    requires 0.0 <= c <= m && m > 0.0
    ensures 0.0 <= c / m <= 1.0
  {
  }

  /**
   * Normalisation only rescales: each normalised slot is the raw slot over the maximum,
   * so the order of the slots is kept.
   */
  lemma NormalizeKeepsProportions(chroma: seq<real>)
    requires |chroma| == PitchClass.PitchClasses
    requires forall i :: 0 <= i < |chroma| ==> chroma[i] >= 0.0
    requires Normalize(chroma).Some?
    ensures forall i :: 0 <= i < |chroma| ==> Normalize(chroma).value[i] == chroma[i] / MaxOf(chroma)
    ensures forall i, j :: 0 <= i < |chroma| && 0 <= j < |chroma| ==>
              (chroma[i] <= chroma[j] <==> Normalize(chroma).value[i] <= Normalize(chroma).value[j])
  {
    var m := MaxOf(chroma);
    var v := Normalize(chroma).value;
    NormalizedIsScaled(chroma);
    forall i, j | 0 <= i < |chroma| && 0 <= j < |chroma|
      ensures chroma[i] <= chroma[j] <==> v[i] <= v[j]
    {
      DivisionMonotone(chroma[i], chroma[j], m);
    }
  }

  lemma NormalizedIsScaled(chroma: seq<real>)
    requires |chroma| == PitchClass.PitchClasses
    requires forall i :: 0 <= i < |chroma| ==> chroma[i] >= 0.0
    requires Normalize(chroma).Some?
    ensures MaxOf(chroma) > 0.0
    ensures forall i :: 0 <= i < |chroma| ==> Normalize(chroma).value[i] == chroma[i] / MaxOf(chroma)
  {
    var m := MaxOf(chroma);
    assert m != 0.0 && Normalize(chroma).value == Scaled(chroma, m);
  }

  lemma DivisionMonotone(a: real, b: real, m: real)
    requires m > 0.0
    ensures a <= b <==> a / m <= b / m
  {
    if a / m <= b / m {
      assert (a / m) * m <= (b / m) * m;
    }
  }
}
