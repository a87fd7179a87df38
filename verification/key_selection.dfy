/**
 * Choosing the key (src/lib/audio-utils.ts, detectKey): the normalised chroma vector is
 * rotated by each of the 12 shifts and correlated with the major and then the minor
 * profile; the first candidate with the highest score wins, because a later candidate
 * replaces the best one only when its score is strictly greater.
 */
module KeySelection {
  import Chroma
  import Correlation
  import KeyProfile
  import PitchClass

  /**
   * `rotated[i] = normalized[(i + shift) % 12]`: rotating by `shift` moves the first
   * `shift` entries to the end.
   */
  function Rotate<T>(v: seq<T>, shift: nat): (r: seq<T>)
    requires |v| == PitchClass.PitchClasses && shift < PitchClass.PitchClasses
    ensures r == v[shift..] + v[..shift]
  {
    seq(PitchClass.PitchClasses, i requires 0 <= i < PitchClass.PitchClasses => v[(i + shift) % PitchClass.PitchClasses])
  }

  /** Shift 0 leaves the vector as it is. */
  lemma RotateByZero<T>(v: seq<T>)
    requires |v| == PitchClass.PitchClasses
    ensures Rotate(v, 0) == v
  {
  }

  /** A rotation is a permutation of the chroma vector. */
  lemma RotatePermutes<T>(v: seq<T>, shift: nat)
    requires |v| == PitchClass.PitchClasses && shift < PitchClass.PitchClasses
    ensures multiset(Rotate(v, shift)) == multiset(v)
  {
    assert v == v[..shift] + v[shift..];
  }

  /** Two rotations in a row are one rotation by the sum of the shifts. */
  lemma RotateCompose<T>(v: seq<T>, a: nat, b: nat)
    requires |v| == PitchClass.PitchClasses && a < PitchClass.PitchClasses && b < PitchClass.PitchClasses
    ensures Rotate(Rotate(v, a), b) == Rotate(v, (a + b) % PitchClass.PitchClasses)
  {
    var n := PitchClass.PitchClasses;
    forall i | 0 <= i < n
      ensures Rotate(Rotate(v, a), b)[i] == Rotate(v, (a + b) % n)[i]
    {
      RotateComposeAt(v, a, b, i);
    }
  }

  /** Entry i of two rotations in a row. */
  lemma RotateComposeAt<T>(v: seq<T>, a: nat, b: nat, i: nat)
    requires |v| == PitchClass.PitchClasses && a < PitchClass.PitchClasses && b < PitchClass.PitchClasses
    requires i < PitchClass.PitchClasses
    ensures Rotate(Rotate(v, a), b)[i] == Rotate(v, (a + b) % PitchClass.PitchClasses)[i]
  {
    var n := PitchClass.PitchClasses;
    RotateTwiceAt(v, a, b, i);
    RotateAt(v, (a + b) % n, i);
    ShiftsAdd(i, a, b);
  }

  /** Entry i of two rotations in a row, read off the original. */
  lemma RotateTwiceAt<T>(v: seq<T>, a: nat, b: nat, i: nat)
    requires |v| == PitchClass.PitchClasses && a < PitchClass.PitchClasses && b < PitchClass.PitchClasses
    requires i < PitchClass.PitchClasses
    ensures Rotate(Rotate(v, a), b)[i]
            == v[((i + b) % PitchClass.PitchClasses + a) % PitchClass.PitchClasses]
  {
    var j := (i + b) % PitchClass.PitchClasses;
    RotateAt(Rotate(v, a), b, i);
    RotateAt(v, a, j);
  }

  /** Shifting by b and then by a reaches the same pitch class as shifting by (a + b) mod 12. */
  lemma ShiftsAdd(i: nat, a: nat, b: nat)
    requires i < PitchClass.PitchClasses && a < PitchClass.PitchClasses && b < PitchClass.PitchClasses
    ensures ((i + b) % PitchClass.PitchClasses + a) % PitchClass.PitchClasses
            == (i + (a + b) % PitchClass.PitchClasses) % PitchClass.PitchClasses
  {
    var n := PitchClass.PitchClasses;
    Wrap(i + b);
    Wrap((i + b) % n + a);
    Wrap(a + b);
    Wrap(i + (a + b) % n);
  }

  /** Entry i of a rotation, read off the splice. */
  lemma RotateAt<T>(v: seq<T>, shift: nat, i: nat)
    requires |v| == PitchClass.PitchClasses && shift < PitchClass.PitchClasses && i < PitchClass.PitchClasses
    ensures Rotate(v, shift)[i] == v[(i + shift) % PitchClass.PitchClasses]
  {
    Wrap(i + shift);
  }

  /** Reduction modulo 12 of a number below 24 subtracts 12 at most once. */
  lemma Wrap(x: int)
    requires 0 <= x < 2 * PitchClass.PitchClasses
    ensures x % PitchClass.PitchClasses == if x < PitchClass.PitchClasses then x else x - PitchClass.PitchClasses
  {
  }

  /** `pearsonCorrelation(rotated, profile)` for the profile of a mode. */
  function ProfileScore(rotated: seq<real>, mode: KeyProfile.Mode, sqrt: real -> real): real
    requires |rotated| == PitchClass.PitchClasses
  {
    Correlation.Pearson(rotated, KeyProfile.Profile(mode), sqrt)
  }

  /** The correlation of candidate c: shift c / 2, major for even c, minor for odd c. */
  function Score(normalized: seq<real>, c: nat, sqrt: real -> real): real
    requires |normalized| == PitchClass.PitchClasses && c < KeyProfile.CandidateCount
  {
    ProfileScore(Rotate(normalized, KeyProfile.CandidateShift(c)), KeyProfile.CandidateMode(c), sqrt)
  }

  /** The 24 scores in the order detectKey computes them. */
  function Scores(normalized: seq<real>, sqrt: real -> real): (scores: seq<real>)
    requires |normalized| == PitchClass.PitchClasses
    ensures |scores| == KeyProfile.CandidateCount
  {
    seq(KeyProfile.CandidateCount, c requires 0 <= c < KeyProfile.CandidateCount => Score(normalized, c, sqrt))
  }

  /** Scores 2s and 2s+1 are the major and minor correlations of the vector rotated by s. */
  lemma ScoresOfShift(normalized: seq<real>, shift: nat, sqrt: real -> real)
    requires |normalized| == PitchClass.PitchClasses && shift < PitchClass.PitchClasses
    ensures Scores(normalized, sqrt)[2 * shift] == ProfileScore(Rotate(normalized, shift), KeyProfile.Major, sqrt)
    ensures Scores(normalized, sqrt)[2 * shift + 1] == ProfileScore(Rotate(normalized, shift), KeyProfile.Minor, sqrt)
  {
    assert KeyProfile.CandidateShift(2 * shift) == shift && KeyProfile.CandidateMode(2 * shift) == KeyProfile.Major;
    assert KeyProfile.CandidateShift(2 * shift + 1) == shift && KeyProfile.CandidateMode(2 * shift + 1) == KeyProfile.Minor;
  }

  /** c holds the highest score, and every earlier candidate scores strictly less. */
  predicate IsFirstMax(scores: seq<real>, c: nat)
  {
    && c < |scores|
    && (forall d :: 0 <= d < |scores| ==> scores[d] <= scores[c])
    && (forall d :: 0 <= d < c ==> scores[d] < scores[c])
  }

  /** The first position of v in s. */
  function FirstIndexOf(s: seq<real>, v: real): (i: nat)
    requires v in s
    ensures i < |s| && s[i] == v
    ensures forall j :: 0 <= j < i ==> s[j] != v
  {
    if s[0] == v then 0 else 1 + FirstIndexOf(s[1..], v)
  }

  /** Reference choice: the first candidate whose score equals the highest score. */
  function BestCandidate(scores: seq<real>): nat
    requires |scores| > 0
  {
    var top := Chroma.MaxOf(scores);
    FirstIndexOf(scores, top)
  }

  /** The reference choice is a first maximum, and it is the only one. */
  lemma BestCandidateIsFirstMax(scores: seq<real>, c: nat)
    requires |scores| > 0
    ensures IsFirstMax(scores, BestCandidate(scores))
    ensures IsFirstMax(scores, c) ==> c == BestCandidate(scores)
  {
    var top := Chroma.MaxOf(scores);
    var b := BestCandidate(scores);
    if IsFirstMax(scores, c) {
      assert scores[c] == top;
    }
  }

  /** The first candidate is the first maximum of a one-element prefix. */
  lemma FirstMaxStart(scores: seq<real>)
    requires |scores| > 0
    ensures IsFirstMax(scores[..1], 0)
  {
  }

  /** Scoring candidate k keeps the first maximum, replacing it only on a strictly greater score. */
  lemma FirstMaxStep(scores: seq<real>, k: nat, best: nat)
    requires 0 < k < |scores| && IsFirstMax(scores[..k], best)
    ensures scores[k] > scores[best] ==> IsFirstMax(scores[..k + 1], k)
    ensures scores[k] <= scores[best] ==> IsFirstMax(scores[..k + 1], best)
  {
    assert forall d :: 0 <= d < k ==> scores[..k + 1][d] == scores[..k][d];
  }

  /** Candidates 2s and 2s+1 are the major and minor keys on shift s. */
  lemma CandidatesOfShift(shift: nat)
    requires shift < PitchClass.PitchClasses
    ensures KeyProfile.CandidateLabel(2 * shift) == KeyProfile.KeyLabel(shift, KeyProfile.Major)
    ensures KeyProfile.CandidateLabel(2 * shift + 1) == KeyProfile.KeyLabel(shift, KeyProfile.Minor)
  {
    assert KeyProfile.CandidateShift(2 * shift) == shift && KeyProfile.CandidateMode(2 * shift) == KeyProfile.Major;
    assert KeyProfile.CandidateShift(2 * shift + 1) == shift && KeyProfile.CandidateMode(2 * shift + 1) == KeyProfile.Minor;
  }

  /** `bestCorrelation`: minus infinity until the first candidate is scored. */
  datatype BestScore = NegativeInfinity | Finite(value: real)

  /** `corr > bestCorrelation`. */
  predicate Exceeds(corr: real, best: BestScore)
  {
    best.NegativeInfinity? || corr > best.value
  }

  /**
   * `if (corr > bestCorrelation) { bestCorrelation = corr; bestKey = candidate; }` for
   * candidate k: if the running best was the first maximum of the scores before k, it
   * is the first maximum of the scores up to and including k afterwards.
   */
  method Consider(corr: real, bestCorrelation: BestScore, bestKey: string, candidate: string,
                  ghost scores: seq<real>, ghost k: nat, ghost best: nat)
    returns (bestCorrelation': BestScore, bestKey': string, ghost best': nat)
    requires k < |scores| && corr == scores[k]
    requires k == 0 <==> bestCorrelation.NegativeInfinity?
    requires k > 0 ==> IsFirstMax(scores[..k], best) && bestCorrelation == Finite(scores[best])
    ensures IsFirstMax(scores[..k + 1], best') && bestCorrelation' == Finite(scores[best'])
    ensures best' == k || best' == best
    ensures bestKey' == (if best' == k then candidate else bestKey)
  {
    if k == 0 {
      FirstMaxStart(scores);
    } else {
      FirstMaxStep(scores, k, best);
    }
    bestCorrelation', bestKey', best' := bestCorrelation, bestKey, best;
    if Exceeds(corr, bestCorrelation) {
      bestCorrelation', bestKey', best' := Finite(corr), candidate, k;
    }
  }

  /**
   * One pass of the selection loop: the major and then the minor key on `shift` are
   * scored, and the running best becomes the first maximum of the first 2 * shift + 2
   * candidates.
   */
  method ConsiderShift(normalized: seq<real>, sqrt: real -> real, shift: nat,
                       bestCorrelation: BestScore, bestKey: string, ghost best: nat)
    returns (bestCorrelation': BestScore, bestKey': string, ghost best': nat)
    requires |normalized| == PitchClass.PitchClasses && shift < PitchClass.PitchClasses
    requires shift == 0 <==> bestCorrelation.NegativeInfinity?
    requires shift > 0 ==> var scores := Scores(normalized, sqrt);
                           IsFirstMax(scores[..2 * shift], best) && bestCorrelation == Finite(scores[best])
                           && bestKey == KeyProfile.CandidateLabel(best)
    ensures var scores := Scores(normalized, sqrt);
            IsFirstMax(scores[..2 * shift + 2], best') && bestCorrelation' == Finite(scores[best'])
            && bestKey' == KeyProfile.CandidateLabel(best')
  {
    ghost var scores := Scores(normalized, sqrt);
    CandidatesOfShift(shift);
    ScoresOfShift(normalized, shift, sqrt);
    var rotated := Rotate(normalized, shift);

    var majorCorr := ProfileScore(rotated, KeyProfile.Major, sqrt);
    var c, k, b := Consider(majorCorr, bestCorrelation, bestKey, KeyProfile.KeyLabel(shift, KeyProfile.Major), scores, 2 * shift, best);

    var minorCorr := ProfileScore(rotated, KeyProfile.Minor, sqrt);
    bestCorrelation', bestKey', best' := Consider(minorCorr, c, k, KeyProfile.KeyLabel(shift, KeyProfile.Minor), scores, 2 * shift + 1, b);
  }

  /**
   * The selection loop of detectKey: returns the label of the first candidate with the
   * highest score, in shift-ascending, major-before-minor order.
   */
  method SelectKey(normalized: seq<real>, sqrt: real -> real) returns (key: string)
    requires |normalized| == PitchClass.PitchClasses
    ensures key == KeyProfile.CandidateLabel(BestCandidate(Scores(normalized, sqrt)))
  {
    ghost var scores := Scores(normalized, sqrt);
    key := "C Major";
    var bestCorrelation := NegativeInfinity;
    ghost var best: nat := 0;
    for shift := 0 to PitchClass.PitchClasses
      invariant shift == 0 <==> bestCorrelation.NegativeInfinity?
      invariant shift > 0 ==> IsFirstMax(scores[..2 * shift], best)
      invariant shift > 0 ==> bestCorrelation == Finite(scores[best]) && key == KeyProfile.CandidateLabel(best)
    {
      bestCorrelation, key, best := ConsiderShift(normalized, sqrt, shift, bestCorrelation, key, best);
    }
    assert scores[..2 * PitchClass.PitchClasses] == scores;
    BestCandidateIsFirstMax(scores, best);
  }

  /** The candidate with the same mode whose tonal centre is one semitone higher. */
  function SemitoneUp(c: nat): nat
    requires c < KeyProfile.CandidateCount
  {
    2 * ((KeyProfile.CandidateShift(c) + 1) % PitchClass.PitchClasses) + c % 2
  }

  /** The candidate with the same mode whose tonal centre is one semitone lower. */
  function SemitoneDown(c: nat): nat
    requires c < KeyProfile.CandidateCount
  {
    2 * ((KeyProfile.CandidateShift(c) + PitchClass.PitchClasses - 1) % PitchClass.PitchClasses) + c % 2
  }

  lemma SemitoneUpDownInverse(c: nat)
    requires c < KeyProfile.CandidateCount
    ensures SemitoneUp(c) < KeyProfile.CandidateCount && SemitoneDown(c) < KeyProfile.CandidateCount
    ensures SemitoneDown(SemitoneUp(c)) == c && SemitoneUp(SemitoneDown(c)) == c
  {
    var s := c / 2;
    Wrap(s + 1);
    Wrap(s + 11);
    Wrap((s + 1) % 12 + 11);
    Wrap((s + 11) % 12 + 1);
  }

  /**
   * Moving every pitch class's energy up a semitone (the chroma vector rotated by 11)
   * gives each candidate the score the candidate a semitone lower had before.
   */
  lemma TransposedScores(normalized: seq<real>, sqrt: real -> real, c: nat)
    requires |normalized| == PitchClass.PitchClasses && c < KeyProfile.CandidateCount
    ensures SemitoneDown(c) < KeyProfile.CandidateCount
    ensures Scores(Rotate(normalized, 11), sqrt)[c] == Scores(normalized, sqrt)[SemitoneDown(c)]
  {
    SemitoneUpDownInverse(c);
    var s := KeyProfile.CandidateShift(c);
    var mode := KeyProfile.CandidateMode(c);
    RotateCompose(normalized, 11, s);
    Wrap(s + 11);
    assert KeyProfile.CandidateShift(SemitoneDown(c)) == (11 + s) % 12;
    assert KeyProfile.CandidateMode(SemitoneDown(c)) == mode;
    assert Scores(Rotate(normalized, 11), sqrt)[c] == ProfileScore(Rotate(Rotate(normalized, 11), s), mode, sqrt);
    assert Scores(normalized, sqrt)[SemitoneDown(c)] == ProfileScore(Rotate(normalized, (11 + s) % 12), mode, sqrt);
  }

  /**
   * Transposition: when one candidate scores strictly higher than all others, moving
   * every pitch class up a semitone moves the detected key up a semitone and keeps
   * its mode.
   */
  lemma TranspositionMovesKey(normalized: seq<real>, sqrt: real -> real, c: nat)
    requires |normalized| == PitchClass.PitchClasses && c < KeyProfile.CandidateCount
    requires forall d :: 0 <= d < KeyProfile.CandidateCount && d != c ==>
               Scores(normalized, sqrt)[d] < Scores(normalized, sqrt)[c]
    ensures BestCandidate(Scores(normalized, sqrt)) == c
    ensures BestCandidate(Scores(Rotate(normalized, 11), sqrt)) == SemitoneUp(c)
    ensures KeyProfile.CandidateLabel(SemitoneUp(c)) ==
              KeyProfile.KeyLabel((KeyProfile.CandidateShift(c) + 1) % PitchClass.PitchClasses, KeyProfile.CandidateMode(c))
  {
    var before := Scores(normalized, sqrt);
    var after := Scores(Rotate(normalized, 11), sqrt);
    BestCandidateIsFirstMax(before, c);
    SemitoneUpDownInverse(c);
    var up := SemitoneUp(c);
    TransposedScores(normalized, sqrt, up);
    forall d | 0 <= d < KeyProfile.CandidateCount && d != up
      ensures after[d] < after[up]
    {
      TransposedScores(normalized, sqrt, d);
      SemitoneUpDownInverse(d);
    }
    BestCandidateIsFirstMax(after, up);
    var shiftUp := (KeyProfile.CandidateShift(c) + 1) % PitchClass.PitchClasses;
    assert up == 2 * shiftUp + c % 2;
    assert KeyProfile.CandidateShift(up) == shiftUp;
    assert KeyProfile.CandidateMode(up) == KeyProfile.CandidateMode(c);
  }

  /**
   * A chroma vector with the same energy in every pitch class has zero variance, so
   * every candidate scores 0 and the first one, C major, is chosen.
   */
  lemma FlatChromaIsCMajor(normalized: seq<real>, sqrt: real -> real)
    requires |normalized| == PitchClass.PitchClasses
    requires forall i :: 0 <= i < |normalized| ==> normalized[i] == normalized[0]
    requires sqrt(0.0) == 0.0
    ensures KeyProfile.CandidateLabel(BestCandidate(Scores(normalized, sqrt))) == "C Major"
  {
    var scores := Scores(normalized, sqrt);
    forall c | 0 <= c < KeyProfile.CandidateCount
      ensures scores[c] == 0.0
    {
      var rotated := Rotate(normalized, KeyProfile.CandidateShift(c));
      assert forall i :: 0 <= i < |rotated| ==> rotated[i] == rotated[0];
      Correlation.FlatVectorScoresZero(rotated, KeyProfile.Profile(KeyProfile.CandidateMode(c)), sqrt);
    }
    assert IsFirstMax(scores, 0);
    BestCandidateIsFirstMax(scores, 0);
  }
}
