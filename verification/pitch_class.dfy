/**
 * Mapping FFT bins to pitch classes (src/lib/audio-utils.ts, detectKey): each bin's
 * centre frequency is tested against the analysis band and, inside it, the rounded
 * MIDI note number is folded into 0..11 with JavaScript's truncating remainder.
 */
module PitchClass {
  import AnalysisWindow
  import Arith

  /** Lowest and highest centre frequency (Hz) a bin may have to be accumulated. */
  const MinFrequency: int := 60
  const MaxFrequency: int := 4200
  /** Number of pitch classes, C through B. */
  const PitchClasses: int := 12
  /** Number of positive-frequency bins kept from an FftSize-point spectrum. */
  const BinCount: nat := AnalysisWindow.FftSize / 2
  /** Table entry of a bin that lies outside the analysis band. */
  const OutOfBand: int := -1

  /**
   * JavaScript's `a % 12`: the remainder of division truncated toward zero, so its
   * sign follows the dividend (unlike Dafny's Euclidean `%`).
   */
  function TruncRem(a: int): (r: int)
    ensures -PitchClasses < r < PitchClasses
    ensures a >= 0 ==> r >= 0
    ensures a < 0 ==> r <= 0
    ensures (a - r) % PitchClasses == 0
  {
    if a >= 0 then
      a % PitchClasses
    else
      var q := (-a) / PitchClasses;
      assert -a == PitchClasses * q + (-a) % PitchClasses;
      MultipleOfTwelve(-q);
      -((-a) % PitchClasses)
  }

  lemma MultipleOfTwelve(q: int)
    ensures (PitchClasses * q) % PitchClasses == 0
  {
  }

  /**
   * `((m % 12) + 12) % 12` on a rounded MIDI number: always a pitch class, and
   * always the mathematical (Euclidean) residue of m modulo 12.
   */
  function FoldPitchClass(m: int): (pc: int)
    ensures 0 <= pc < PitchClasses
    ensures pc == m % PitchClasses
  {
    var t := TruncRem(m);
    SameResidue(m, t);
    assert (t + PitchClasses) % PitchClasses == t % PitchClasses;
    TruncRem(t + PitchClasses)
  }

  /** Numbers whose difference is a multiple of 12 have the same residue. */
  lemma SameResidue(a: int, b: int)
    requires (a - b) % PitchClasses == 0
    ensures a % PitchClasses == b % PitchClasses
  {
    var k := (a - b) / PitchClasses;
    assert a == b + PitchClasses * k;
  }

  /** Centre frequency `(k * sampleRate) / fftSize` of bin k. */
  function BinFrequency(k: nat, sampleRate: nat): real
  {
    (k * sampleRate) as real / AnalysisWindow.FftSize as real
  }

  /** `freq >= 60 && freq <= 4200`. */
  predicate InBand(freq: real)
  {
    MinFrequency as real <= freq <= MaxFrequency as real
  }

  /**
   * The table entry of bin k: the pitch class of its rounded MIDI number when the
   * bin is in band, OutOfBand otherwise. `roundedMidi` stands for
   * Math.round(12 * log2(f / 440) + 69), which is floating point.
   */
  function BinChroma(k: nat, sampleRate: nat, roundedMidi: real -> int): (pc: int)
    ensures OutOfBand <= pc < PitchClasses
    ensures pc == OutOfBand <==>
              !(MinFrequency * AnalysisWindow.FftSize <= k * sampleRate <= MaxFrequency * AnalysisWindow.FftSize)
    ensures pc != OutOfBand ==> pc == roundedMidi(BinFrequency(k, sampleRate)) % PitchClasses
  {
    var freq := BinFrequency(k, sampleRate);
    if InBand(freq) then FoldPitchClass(roundedMidi(freq)) else OutOfBand
  }

  /** Predicate on a precomputed bin table: one entry per kept bin, each OutOfBand or a pitch class. */
  predicate IsChromaTable(table: seq<int>)
  {
    |table| == BinCount && forall k :: 0 <= k < |table| ==> OutOfBand <= table[k] < PitchClasses
  }

  /**
   * The `binChroma` table, precomputed once per call from the sample rate alone. Bin 0
   * (the DC bin, frequency 0) is always out of band.
   */
  function ChromaTable(sampleRate: nat, roundedMidi: real -> int): (table: seq<int>)
    ensures IsChromaTable(table)
    ensures table[0] == OutOfBand
    ensures forall k :: 0 <= k < |table| ==>
              (table[k] == OutOfBand <==> !InBand(BinFrequency(k, sampleRate)))
  {
    seq(BinCount, k requires 0 <= k < BinCount => BinChroma(k, sampleRate, roundedMidi))
  }

  /** A sample rate below 60 * 8192 / 4095 Hz puts every bin out of band. */
  lemma LowSampleRateAllOutOfBand(sampleRate: nat, roundedMidi: real -> int)
    requires (BinCount - 1) * sampleRate < MinFrequency * AnalysisWindow.FftSize
    ensures forall k :: 0 <= k < BinCount ==> ChromaTable(sampleRate, roundedMidi)[k] == OutOfBand
  {
    var table := ChromaTable(sampleRate, roundedMidi);
    forall k | 0 <= k < BinCount
      ensures table[k] == OutOfBand
    {
      assert table[k] == BinChroma(k, sampleRate, roundedMidi);
      Arith.MulMonotone(k, BinCount - 1, sampleRate);
    }
  }
}
