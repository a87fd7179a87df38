/**
 * detectKey (src/lib/audio-utils.ts) assembled from its parts: window selection, the
 * bin table, chroma accumulation, normalisation with the "Unknown" exit, and the
 * 24-way selection. The floating-point stages are parameters: the rounded MIDI number
 * of a frequency, the magnitude spectrum of a frame, and the square root.
 */
module KeyDetector {
  import opened Wrappers
  import AnalysisWindow
  import Arith
  import PitchClass
  import Chroma
  import KeyProfile
  import KeySelection

  /** The chroma vector of the analysis window of a buffer. */
  function BufferChroma(raw: seq<real>, sampleRate: nat, roundedMidi: real -> int, magnitude: Chroma.Spectrum): (v: seq<real>)
    requires sampleRate > 0
    ensures |v| == PitchClass.PitchClasses && forall pc :: 0 <= pc < |v| ==> v[pc] >= 0.0
  {
    Chroma.ChromaVector(AnalysisWindow.AnalysisSlice(raw, sampleRate), PitchClass.ChromaTable(sampleRate, roundedMidi), magnitude)
  }

  /** Reference result: "Unknown" for an all-zero chroma vector, else the best candidate's label. */
  function KeyOf(raw: seq<real>, sampleRate: nat, roundedMidi: real -> int, magnitude: Chroma.Spectrum, sqrt: real -> real): string
    requires sampleRate > 0
  {
    match Chroma.Normalize(BufferChroma(raw, sampleRate, roundedMidi, magnitude))
    case None => KeyProfile.Unknown
    case Some(normalized) => KeyProfile.CandidateLabel(KeySelection.BestCandidate(KeySelection.Scores(normalized, sqrt)))
  }

  /**
   * detectKey on one channel of samples. The result is "Unknown" exactly when no
   * in-band energy was accumulated (in particular for any buffer shorter than one
   * frame), and otherwise one of the 24 key labels.
   */
  method DetectKey(raw: seq<real>, sampleRate: nat, roundedMidi: real -> int, magnitude: Chroma.Spectrum, sqrt: real -> real)
    returns (key: string)
    requires sampleRate > 0
    ensures key == KeyOf(raw, sampleRate, roundedMidi, magnitude, sqrt)
    ensures key == KeyProfile.Unknown <==>
              forall pc :: 0 <= pc < PitchClass.PitchClasses ==> BufferChroma(raw, sampleRate, roundedMidi, magnitude)[pc] == 0.0
    ensures key != KeyProfile.Unknown ==>
              exists c :: 0 <= c < KeyProfile.CandidateCount && key == KeyProfile.CandidateLabel(c)
    ensures |raw| < AnalysisWindow.FftSize ==> key == KeyProfile.Unknown
  {
    var data := AnalysisWindow.AnalysisSlice(raw, sampleRate);
    var table := PitchClass.ChromaTable(sampleRate, roundedMidi);
    var chroma := Chroma.AccumulateChroma(data, table, magnitude);
    var normalized := Chroma.Normalize(chroma);
    if normalized.None? {
      return KeyProfile.Unknown;
    }
    key := KeySelection.SelectKey(normalized.value, sqrt);
    KeyProfile.CandidateLabelsDistinct();
    var best := KeySelection.BestCandidate(KeySelection.Scores(normalized.value, sqrt));
    KeySelection.BestCandidateIsFirstMax(KeySelection.Scores(normalized.value, sqrt), best);
  }

  /** One frame of silence. */
  const Silence: seq<real> := seq(AnalysisWindow.FftSize, _ => 0.0)

  /** Frames whose spectra are silent contribute nothing, however many there are. */
  lemma {:induction false} SilentFramesGiveZero(data: seq<real>, table: seq<int>, magnitude: Chroma.Spectrum, pc: int, frames: nat)
    requires |table| == PitchClass.BinCount
    requires frames <= AnalysisWindow.FrameCount(|data|)
    requires forall f, k :: 0 <= f < frames && 0 <= k < PitchClass.BinCount ==> magnitude(Chroma.Frame(data, f), k) == 0.0
    ensures Chroma.FrameSum(data, table, magnitude, pc, frames) == 0.0
  {
    if frames > 0 {
      SilentFramesGiveZero(data, table, magnitude, pc, frames - 1);
      Chroma.SilentFrameAddsNothing(table, Chroma.Frame(data, frames - 1), magnitude, pc, PitchClass.BinCount);
    }
  }

  /**
   * An all-zero buffer is reported as "Unknown", given that the spectrum of an all-zero
   * frame is zero in every bin.
   */
  lemma SilenceIsUnknown(raw: seq<real>, sampleRate: nat, roundedMidi: real -> int, magnitude: Chroma.Spectrum, sqrt: real -> real)
    requires sampleRate > 0
    requires forall i :: 0 <= i < |raw| ==> raw[i] == 0.0
    requires forall k :: 0 <= k < PitchClass.BinCount ==> magnitude(Silence, k) == 0.0
    ensures KeyOf(raw, sampleRate, roundedMidi, magnitude, sqrt) == KeyProfile.Unknown
  {
    var data := AnalysisWindow.AnalysisSlice(raw, sampleRate);
    var table := PitchClass.ChromaTable(sampleRate, roundedMidi);
    var frames := AnalysisWindow.FrameCount(|data|);
    var w := AnalysisWindow.SelectWindow(|raw|, sampleRate);
    assert forall i :: 0 <= i < |data| ==> data[i] == raw[w.start + i];
    forall f, k | 0 <= f < frames && 0 <= k < PitchClass.BinCount
      ensures magnitude(Chroma.Frame(data, f), k) == 0.0
    {
      var frame := Chroma.Frame(data, f);
      assert forall i :: 0 <= i < |frame| ==> frame[i] == data[f * AnalysisWindow.HopSize + i];
      assert frame == Silence;
    }
    forall pc | 0 <= pc < PitchClass.PitchClasses
      ensures BufferChroma(raw, sampleRate, roundedMidi, magnitude)[pc] == 0.0
    {
      SilentFramesGiveZero(data, table, magnitude, pc, frames);
    }
  }

  /**
   * At a sample rate of 120 Hz or less every bin lies below 60 Hz, so nothing is ever
   * accumulated and the result is "Unknown" whatever the samples.
   */
  lemma LowSampleRateIsUnknown(raw: seq<real>, sampleRate: nat, roundedMidi: real -> int, magnitude: Chroma.Spectrum, sqrt: real -> real)
    requires 0 < sampleRate <= 120
    ensures KeyOf(raw, sampleRate, roundedMidi, magnitude, sqrt) == KeyProfile.Unknown
  {
    var data := AnalysisWindow.AnalysisSlice(raw, sampleRate);
    var table := PitchClass.ChromaTable(sampleRate, roundedMidi);
    Arith.MulMonotone(sampleRate, 120, PitchClass.BinCount - 1);
    PitchClass.LowSampleRateAllOutOfBand(sampleRate, roundedMidi);
    forall pc | 0 <= pc < PitchClass.PitchClasses
      ensures BufferChroma(raw, sampleRate, roundedMidi, magnitude)[pc] == 0.0
    {
      Chroma.UnmappedSlotStaysZero(data, table, magnitude, pc, AnalysisWindow.FrameCount(|data|));
    }
  }
}
