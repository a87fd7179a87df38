/**
 * The analysis window of the key detector (src/lib/audio-utils.ts, detectKey):
 * at most 30 seconds taken from the middle of the buffer, cut into overlapping
 * frames of FftSize samples that start every HopSize samples.
 */
module AnalysisWindow {

  /** Length of one analysis frame (the FFT size). */
  const FftSize: nat := 8192
  /** Distance between the starts of two consecutive frames. */
  const HopSize: nat := 4096
  /** The longest stretch of audio analysed, in seconds. */
  const WindowSeconds: nat := 30

  /** Half-open sample range [start, end) of a buffer. */
  datatype Range = Range(start: nat, end: nat)

  /**
   * The range kept from a buffer of `len` samples at `sampleRate` Hz:
   * start = max(0, floor((len - maxSamples) / 2)), end = min(len, start + maxSamples).
   * Dafny's `/` with a positive divisor rounds toward negative infinity, as Math.floor does.
   */
  function SelectWindow(len: nat, sampleRate: nat): (w: Range)
    requires sampleRate > 0
    ensures w.start <= w.end <= len
    ensures w.end - w.start <= WindowSeconds * sampleRate
    ensures len <= WindowSeconds * sampleRate ==> w == Range(0, len)
    ensures len > WindowSeconds * sampleRate ==>
              && w.end - w.start == WindowSeconds * sampleRate
              && 0 <= (len - w.end) - w.start <= 1
  {
    var maxSamples := WindowSeconds * sampleRate;
    var centred := (len - maxSamples) / 2;
    var start := if centred > 0 then centred else 0;
    var end := if len < start + maxSamples then len else start + maxSamples;
    Range(start, end)
  }

  /** The samples detectKey analyses: rawData.slice(start, end). */
  function AnalysisSlice(raw: seq<real>, sampleRate: nat): (data: seq<real>)
    requires sampleRate > 0
    ensures |data| <= |raw| && |data| <= WindowSeconds * sampleRate
    ensures |raw| <= WindowSeconds * sampleRate ==> data == raw
  {
    var w := SelectWindow(|raw|, sampleRate);
    raw[w.start..w.end]
  }

  /**
   * Number of iterations of `for (offset = 0; offset + FftSize <= len; offset += HopSize)`.
   */
  function FrameCount(len: nat): (count: nat)
    ensures count == 0 <==> len < FftSize
    ensures count > 0 ==> (count - 1) * HopSize + FftSize <= len
    ensures count * HopSize + FftSize > len
  {
    if len < FftSize then 0 else (len - FftSize) / HopSize + 1
  }

  /** The start offsets of the frames the loop visits, in visiting order. */
  function FrameOffsets(len: nat): (offsets: seq<nat>)
    ensures |offsets| == FrameCount(len)
    ensures forall i :: 0 <= i < |offsets| ==> offsets[i] == i * HopSize
  {
    seq(FrameCount(len), i => i * HopSize)
  }

  /**
   * The frame loop reads only in-bounds samples, visits offsets in increasing order,
   * and visits exactly the multiples of HopSize at which a whole frame fits.
   */
  lemma FrameOffsetsExact(len: nat)
    ensures forall i :: 0 <= i < |FrameOffsets(len)| ==>
              FrameOffsets(len)[i] % HopSize == 0 && FrameOffsets(len)[i] + FftSize <= len
    ensures forall i, j :: 0 <= i < j < |FrameOffsets(len)| ==> FrameOffsets(len)[i] < FrameOffsets(len)[j]
    ensures forall o: nat :: o % HopSize == 0 && o + FftSize <= len ==> o in FrameOffsets(len)
  {
    var offs := FrameOffsets(len);
    forall i | 0 <= i < |offs|
      ensures offs[i] % HopSize == 0 && offs[i] + FftSize <= len
    {
      assert offs[i] == i * HopSize;
      assert i * HopSize <= (FrameCount(len) - 1) * HopSize;
    }
    forall o: nat | o % HopSize == 0 && o + FftSize <= len
      ensures o in offs
    {
      var i := o / HopSize;
      assert o == i * HopSize;
      assert i < FrameCount(len) by {
        if len >= FftSize { assert i <= (len - FftSize) / HopSize; }
      }
      assert offs[i] == o;
    }
  }

  /** A buffer shorter than one frame (or a window cut shorter than one) yields no frame. */
  lemma ShortWindowHasNoFrames(raw: seq<real>, sampleRate: nat)
    requires sampleRate > 0
    requires |raw| < FftSize
    ensures FrameOffsets(|AnalysisSlice(raw, sampleRate)|) == []
  {
  }
}
