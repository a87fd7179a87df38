/**
 * The fixed data of key selection (src/lib/audio-utils.ts, detectKey): the note-name
 * table, the Krumhansl-Kessler major and minor profiles, the 24 candidate keys in the
 * order detectKey tries them, and the labels it returns.
 */
module KeyProfile {
  import opened Wrappers

  /** The label returned when the window carries no energy in the analysis band. */
  const Unknown: string := "Unknown"

  /** Note names indexed by pitch class, 0 = C. */
  const NoteNames: seq<string> := ["C", "C#", "D", "Eb", "E", "F", "F#", "G", "Ab", "A", "Bb", "B"]

  const MajorProfile: seq<real> := [6.35, 2.23, 3.48, 2.33, 4.38, 4.09, 2.52, 5.19, 2.39, 3.66, 2.29, 2.88]
  const MinorProfile: seq<real> := [6.33, 2.68, 3.52, 5.38, 2.60, 3.53, 2.54, 4.75, 3.98, 2.69, 3.34, 3.17]

  /** 12 shifts times 2 modes. */
  const CandidateCount: nat := 24

  datatype Mode = Major | Minor

  function ModeSuffix(mode: Mode): string
  {
    match mode
    case Major => " Major"
    case Minor => " Minor"
  }

  /** The profile a mode is correlated against. */
  function Profile(mode: Mode): (p: seq<real>)
    ensures |p| == |NoteNames|
  {
    match mode
    case Major => MajorProfile
    case Minor => MinorProfile
  }

  /** `${noteNames[shift]} Major` or `${noteNames[shift]} Minor`. */
  function KeyLabel(shift: nat, mode: Mode): string
    requires shift < |NoteNames|
  {
    NoteNames[shift] + ModeSuffix(mode)
  }

  /**
   * Candidate c is the one detectKey tries c-th: shifts ascend, and for each shift the
   * major profile is tried before the minor one.
   */
  function CandidateShift(c: nat): nat
  {
    c / 2
  }

  function CandidateMode(c: nat): Mode
  {
    if c % 2 == 0 then Major else Minor
  }

  function CandidateLabel(c: nat): string
    requires c < CandidateCount
  {
    KeyLabel(CandidateShift(c), CandidateMode(c))
  }

  /** Position of `name` in NoteNames at or after `from`, if any. */
  function NoteIndex(name: string, from: nat): (r: Option<nat>)
    requires from <= |NoteNames|
    ensures r.Some? ==> from <= r.value < |NoteNames| && NoteNames[r.value] == name
    ensures r.None? ==> forall i :: from <= i < |NoteNames| ==> NoteNames[i] != name
    decreases |NoteNames| - from
  {
    if from == |NoteNames| then None
    else if NoteNames[from] == name then Some(from)
    else NoteIndex(name, from + 1)
  }

  /** Reads a label back into its tonal centre and mode; None for anything else. */
  function ParseKeyLabel(text: string): (r: Option<(nat, Mode)>)
    ensures r.Some? ==> r.value.0 < |NoteNames| && KeyLabel(r.value.0, r.value.1) == text
  {
    if |text| < 6 then None
    else
      var name := text[..|text| - 6];
      var suffix := text[|text| - 6..];
      var mode := if suffix == " Major" then Some(Major) else if suffix == " Minor" then Some(Minor) else None;
      match (NoteIndex(name, 0), mode)
      case (Some(shift), Some(m)) =>
        assert text == name + suffix;
        Some((shift, m))
      case _ => None
  }

  /** No two note names are alike. */
  lemma NoteNamesDistinct()
    ensures forall i, j :: 0 <= i < j < |NoteNames| ==> NoteNames[i] != NoteNames[j]
  {
  }

  /** Every key label parses back to the shift and mode it was built from. */
  lemma ParseKeyLabelInverse(shift: nat, mode: Mode)
    requires shift < |NoteNames|
    ensures ParseKeyLabel(KeyLabel(shift, mode)) == Some((shift, mode))
  {
    var text := KeyLabel(shift, mode);
    var name := NoteNames[shift];
    assert text[..|text| - 6] == name;
    assert text[|text| - 6..] == ModeSuffix(mode);
    NoteNamesDistinct();
    var found := NoteIndex(name, 0);
    assert found == Some(shift);
  }

  /** Distinct candidates carry distinct labels, and none of them is "Unknown". */
  lemma CandidateLabelsDistinct()
    ensures forall c1, c2 :: 0 <= c1 < c2 < CandidateCount ==> CandidateLabel(c1) != CandidateLabel(c2)
    ensures forall c :: 0 <= c < CandidateCount ==> CandidateLabel(c) != Unknown
  {
    forall c1, c2 | 0 <= c1 < c2 < CandidateCount
      ensures CandidateLabel(c1) != CandidateLabel(c2)
    {
      ParseKeyLabelInverse(CandidateShift(c1), CandidateMode(c1));
      ParseKeyLabelInverse(CandidateShift(c2), CandidateMode(c2));
    }
    assert ParseKeyLabel(Unknown) == None by {
      assert Unknown[|Unknown| - 6..] == "nknown";
    }
    forall c | 0 <= c < CandidateCount
      ensures CandidateLabel(c) != Unknown
    {
      ParseKeyLabelInverse(CandidateShift(c), CandidateMode(c));
    }
  }
}
