# Key detection and YouTube converter card, modelled in Dafny

This project models two parts of a small web audio tool.

The first is the spectral key detector `detectKey` in `src/lib/audio-utils.ts`. Given one
channel of PCM samples and the sample rate, it works in these steps:

- It keeps at most 30 seconds from the middle of the buffer.
- It cuts that window into 8192-sample frames, one every 4096 samples.
- It maps every FFT bin between 60 Hz and 4200 Hz to a pitch class.
- It adds up bin magnitudes per pitch class into a 12-slot chroma vector.
- It scales that vector by its maximum. An all-zero vector gives "Unknown".
- It correlates the 12 rotations of the vector with the Krumhansl-Kessler major and minor profiles.
- It returns the label of the first candidate with the highest Pearson correlation, or "C Major" when no candidate beats the initial value.

The model also covers:

- the bit-reversal permutation at the start of `fft`;
- the zero-denominator rule of `pearsonCorrelation`;
- `formatDuration`.

The second part is the convert button of `src/components/ConverterCard.tsx`:

- the YouTube URL pattern `isValidYouTubeUrl`;
- the id extractor `extractVideoId`;
- the order of the three input checks in `handleConvert`;
- the request for the extracted id;
- the mapping from the service's JSON reply to the file shown on the card.

Modules, one per concern:

| module | file | concern |
|---|---|---|
| `Wrappers` | wrappers.dfy | `Option` |
| `AnalysisWindow` | audio_window.dfy | centred 30-second window, frame offsets |
| `PitchClass` | pitch_class.dfy | bin frequency, band test, truncating `%`, bin table |
| `BitReversal` | bit_reversal.dfy | bit-reversal loop of `fft` |
| `Chroma` | chroma.dfy | chroma accumulation and normalisation |
| `KeyProfile` | key_profile.dfy | note names, profiles, the 24 candidates and their labels |
| `Correlation` | correlation.dfy | `pearsonCorrelation` |
| `KeySelection` | key_selection.dfy | rotation, scores, first-maximum selection |
| `KeyDetector` | detect_key.dfy | `detectKey` end to end |
| `Duration` | duration.dfy | `formatDuration` and a reader of its output |
| `JsText` | js_text.dfy | JavaScript white space, line terminators, `trim` |
| `YouTubeUrl` | youtube_url.dfy | the two regular expressions |
| `Converter` | converter.dfy | `handleConvert` and the reply mapping |

Floating-point steps become parameters of the model:

- `roundedMidi: real -> int` stands for `Math.round(12 * Math.log2(f / 440) + 69)`.
- `magnitude: (frame, bin) -> Magnitude` stands for the Hann window plus the FFT plus `Math.sqrt(re² + im²)`. It is non-negative by type.
- `sqrt: real -> real` stands for the square root inside `pearsonCorrelation`.

Sums and quotients are exact reals. Every lemma that needs a property of one of these
parameters states it as a precondition, for example `sqrt(0.0) == 0.0`.

Each regular expression is modelled twice. One version is a deterministic scan that
follows JavaScript's backtracking order:

- the leftmost start position wins;
- alternatives are tried in order;
- greedy `.*`, `.+` and `[^/]+` prefer the longest match that still succeeds.

The other version is a declarative description of every string the pattern matches
(`YouTubeUrl.AcceptedUrl` and `YouTubeUrl.RegexMatch`). The contracts tie the two together.

The code comment at `audio-utils.ts:9` says the buffer is mixed down to mono. The code
reads only channel 0 (`getChannelData(0)`), and the model follows the code: its input is
that one channel.

## Model

| member | source | states |
|---|---|---|
| AnalysisWindow.SelectWindow | src/lib/audio-utils.ts:10-12 | the window lies inside the buffer and spans at most 30 s of samples; a buffer no longer than that is kept whole; a longer one gives exactly 30 s, centred, with the leftover on the two sides differing by at most one sample |
| AnalysisWindow.AnalysisSlice | src/lib/audio-utils.ts:9-13 | the analysed samples are never more than the buffer or 30 s, and are the whole buffer when it is short |
| AnalysisWindow.FrameCount | src/lib/audio-utils.ts:34 | no frame exactly when fewer than 8192 samples; the last frame fits in the data and one more would not |
| AnalysisWindow.FrameOffsetsExact | src/lib/audio-utils.ts:34 | the frame loop visits exactly the multiples of 4096 whose 8192-sample frame fits, in increasing order |
| AnalysisWindow.ShortWindowHasNoFrames | src/lib/audio-utils.ts:9-34 | a buffer shorter than one frame yields no frame at all |
| PitchClass.TruncRem | src/lib/audio-utils.ts:27 | JavaScript's `% 12` keeps the dividend's sign, stays strictly between -12 and 12, and differs from the dividend by a multiple of 12 |
| PitchClass.FoldPitchClass | src/lib/audio-utils.ts:27 | `((m % 12) + 12) % 12` is always in 0..11 and equals the mathematical residue of m modulo 12 |
| PitchClass.BinChroma | src/lib/audio-utils.ts:23-31 | a bin is marked -1 exactly when its centre frequency k·rate/8192 lies outside [60, 4200] Hz; otherwise it gets the pitch class of its rounded MIDI number |
| PitchClass.ChromaTable | src/lib/audio-utils.ts:19-32 | the table has 4096 entries, each -1 or a pitch class; the DC bin is always -1; an entry is -1 exactly when the bin is out of band |
| PitchClass.LowSampleRateAllOutOfBand | src/lib/audio-utils.ts:22-31 | at 120 Hz or less no bin reaches 60 Hz, so the whole table is -1 |
| BitReversal.ReversedIncrement | src/lib/audio-utils.ts:96-101 | the inner `while (j & bit)` loop plus `j ^= bit` turns the bit reversal of x into the bit reversal of x + 1 |
| BitReversal.ReverseBijective | src/lib/audio-utils.ts:94-106 | reversal of `bits` bits is injective on 0..2^bits-1 and is its own inverse |
| BitReversal.BitReversedInvolution | src/lib/audio-utils.ts:94-106 | applying the bit-reversal permutation twice restores any sequence |
| BitReversal.BitReversedPermutes | src/lib/audio-utils.ts:94-106 | the bit-reversal permutation keeps the multiset of elements |
| BitReversal.SwapPair | src/lib/audio-utils.ts:102-105 | both arrays keep their elements; no position other than i and j changes; positions i and j are exchanged in both arrays when i < j and nothing moves otherwise |
| BitReversal.SwapWithReversal | src/lib/audio-utils.ts:96-105 | one turn of the loop: j becomes the reversal of i; afterwards every position k with k <= i or Reverse(k) <= i holds input element Reverse(k), and every other position still holds its own input element, in both arrays |
| BitReversal.BitReversePermute | src/lib/audio-utils.ts:93-106 | the swap loop leaves element Reverse(k) of the input at position k of both arrays, so real and imaginary parts move together and nothing is lost or duplicated |
| Chroma.ChromaVector | src/lib/audio-utils.ts:34-53 | the chroma vector has 12 non-negative slots, all zero when the window is shorter than one frame |
| Chroma.AccumulateChroma | src/lib/audio-utils.ts:34-53 | the nested frame and bin loops compute exactly the per-pitch-class sum of in-band magnitudes over bins 1..4095 of every frame |
| Chroma.BinSumDependsOnlyOnItsBins | src/lib/audio-utils.ts:46-51 | a slot's total depends only on the magnitudes of bins that map to that pitch class |
| Chroma.UnmappedSlotStaysZero | src/lib/audio-utils.ts:46-51 | a pitch class no bin maps to stays at zero whatever the samples |
| Chroma.SilentFrameAddsNothing | src/lib/audio-utils.ts:46-51 | a frame with an all-zero spectrum adds nothing to any slot |
| Chroma.MaxOf | src/lib/audio-utils.ts:56 | `Math.max(...chromaCounts)` is an upper bound of every slot and is one of the slots |
| Chroma.Normalize | src/lib/audio-utils.ts:55-58 | the "Unknown" exit is taken exactly when every slot is zero; otherwise every slot lands in [0, 1] and some slot is exactly 1 |
| Chroma.NormalizeKeepsProportions | src/lib/audio-utils.ts:58 | each normalised slot is the raw slot over the maximum, so the order between slots is unchanged |
| KeyProfile.ParseKeyLabel | src/lib/audio-utils.ts:64-84 | whatever label it accepts is rebuilt exactly by KeyLabel from the recovered shift and mode |
| KeyProfile.ParseKeyLabelInverse | src/lib/audio-utils.ts:64-84 | every `${noteNames[shift]} Major/Minor` label reads back to its shift and mode |
| KeyProfile.CandidateLabelsDistinct | src/lib/audio-utils.ts:57-85 | the 24 candidate labels are pairwise distinct and none equals "Unknown" |
| Correlation.Pearson | src/lib/audio-utils.ts:130-149 | when the root of the product of the two variance sums is 0 the score is 0; otherwise the score times that root is the covariance sum |
| Correlation.PearsonSymmetric | src/lib/audio-utils.ts:130-149 | correlating x with y gives the same score as correlating y with x |
| Correlation.FlatVectorScoresZero | src/lib/audio-utils.ts:130-149 | a vector with all entries equal has zero variance, and the zero-denominator rule gives it correlation 0 against any profile |
| Correlation.IdenticalVectorsScoreOne | src/lib/audio-utils.ts:130-149 | with an exact square root, a non-flat vector correlates exactly 1 with itself |
| KeySelection.Rotate | src/lib/audio-utils.ts:69-73 | `normalized[(i + shift) % 12]` for i = 0..11 is the vector with its first `shift` slots moved to the end |
| KeySelection.RotatePermutes | src/lib/audio-utils.ts:69-73 | every rotation is a permutation of the chroma vector |
| KeySelection.RotateCompose | src/lib/audio-utils.ts:69-73 | rotating by a and then by b is rotating by (a + b) mod 12 |
| KeySelection.ScoresOfShift | src/lib/audio-utils.ts:69-85 | scores 2s and 2s+1 are the major and minor correlations of the vector rotated by s, the order the loop computes them |
| KeySelection.BestCandidateIsFirstMax | src/lib/audio-utils.ts:66-88 | the reference choice has the highest score and beats every earlier candidate strictly, and it is the only candidate with that property |
| KeySelection.Consider | src/lib/audio-utils.ts:75-85 | if the running best was the first maximum of the scores before candidate k, then after the strict `>` test it is the first maximum of the scores up to k, it holds that candidate's score, and the key changes exactly when candidate k takes over |
| KeySelection.ConsiderShift | src/lib/audio-utils.ts:69-85 | one pass of the shift loop (major, then minor) extends the first maximum of the first 2·shift candidates to the first 2·shift + 2, and the key is that candidate's label |
| KeySelection.SelectKey | src/lib/audio-utils.ts:66-88 | the loop returns the label of the first candidate with the highest score, in shift-ascending, major-before-minor order |
| KeySelection.SemitoneUpDownInverse | src/lib/audio-utils.ts:69-85 | moving a candidate a semitone up and then down, or down and then up, returns the same candidate |
| KeySelection.TransposedScores | src/lib/audio-utils.ts:69-85 | transposing the chroma vector up a semitone gives each candidate the score of the candidate a semitone below it |
| KeySelection.TranspositionMovesKey | src/lib/audio-utils.ts:66-88 | with a strict winner, transposing the input up a semitone moves the detected key up a semitone and keeps its mode |
| KeySelection.FlatChromaIsCMajor | src/lib/audio-utils.ts:66-149 | a flat chroma vector scores 0 everywhere, so the first candidate, "C Major", is returned |
| KeyDetector.DetectKey | src/lib/audio-utils.ts:5-89 | the result is "Unknown" exactly when the accumulated chroma vector is all zero, otherwise one of the 24 key labels, chosen as the first best-scoring candidate; a buffer shorter than 8192 samples is always "Unknown" |
| KeyDetector.SilentFramesGiveZero | src/lib/audio-utils.ts:34-53 | frames whose spectra are all zero contribute nothing, however many there are |
| KeyDetector.SilenceIsUnknown | src/lib/audio-utils.ts:5-57 | an all-zero buffer is reported as "Unknown", provided the spectrum of silence is zero |
| KeyDetector.LowSampleRateIsUnknown | src/lib/audio-utils.ts:22-57 | at a sample rate of 120 Hz or less the result is "Unknown" for every buffer |
| Duration.Rem60 | src/lib/audio-utils.ts:153 | JavaScript's `seconds % 60` takes the dividend's sign, stays within 60 in absolute value, and differs from the dividend by a multiple of 60 of the truncated quotient |
| Duration.NatToString | src/lib/audio-utils.ts:154 | the decimal form of a number is non-empty, all digits, and a single digit exactly below 10 |
| Duration.PadStart2 | src/lib/audio-utils.ts:154 | `padStart(2, '0')` leaves strings of length 2 or more alone and otherwise prepends zeros to length 2 |
| Duration.FormatDuration | src/lib/audio-utils.ts:151-155 | a non-negative duration prints with a colon followed by exactly two characters |
| Duration.NatToStringRoundTrip | src/lib/audio-utils.ts:154 | reading back the decimal form of n gives n |
| Duration.FormatDurationRoundTrip | src/lib/audio-utils.ts:151-155 | for non-negative seconds, the minutes and the two-digit seconds below 60 read back as the whole number of seconds |
| Duration.FormatDependsOnWholeSeconds | src/lib/audio-utils.ts:151-155 | two non-negative durations print alike exactly when their whole seconds agree |
| Duration.NegativeDuration | src/lib/audio-utils.ts:151-155 | -5 seconds prints as "-1:-5": floor for minutes and a sign-keeping remainder for seconds |
| JsText.Trim | src/components/ConverterCard.tsx:34 | the trimmed string neither starts nor ends with white space, and is empty exactly when the input is all white space |
| JsText.TrimIsInfix | src/components/ConverterCard.tsx:34 | trimming removes exactly a white-space prefix and a white-space suffix and keeps the middle unchanged |
| YouTubeUrl.IsValidYouTubeUrl | src/components/ConverterCard.tsx:28-31 | accepts exactly the strings that start with an optional http(s) scheme, an optional "www.", "youtube.com" or "youtu.be", a '/', and one more character that is not a line terminator |
| YouTubeUrl.AcceptedUrlForcesChoice | src/components/ConverterCard.tsx:29 | whenever some combination of the optional groups fits, it is the one the scan takes, so the two optional groups never need backtracking |
| YouTubeUrl.PathForm | src/components/ConverterCard.tsx:23 | the `[^/]+/.+/` alternative succeeds exactly when some path match is followed by an id; it returns the last such id position, as the greedy `.+` does, and no later one fits |
| YouTubeUrl.PrefixForm | src/components/ConverterCard.tsx:23 | the "v/", "embed/", "e/" alternative succeeds exactly when one of the three prefixes is followed by an id |
| YouTubeUrl.QueryForm | src/components/ConverterCard.tsx:23 | the `.*[?&]v=` alternative succeeds exactly when some "?v=" or "&v=" on the line is followed by an id; it returns the last such position, as the greedy `.*` does |
| YouTubeUrl.WatchForm | src/components/ConverterCard.tsx:23 | after "youtube.com/" the capture is the path alternative's when that can succeed, else the prefix alternative's, else the query alternative's; it fails only when none can succeed |
| YouTubeUrl.PrefixMatchUnique | src/components/ConverterCard.tsx:23 | "v/", "embed/" and "e/" exclude one another, so at most one id position follows them |
| YouTubeUrl.MatchAt | src/components/ConverterCard.tsx:23-24 | an attempt at a position succeeds exactly when the pattern can match there, and then returns the capture the backtracking order chooses |
| YouTubeUrl.FindMatch | src/components/ConverterCard.tsx:23-24 | the scan returns the leftmost position where the pattern matches, or reports that it matches nowhere |
| YouTubeUrl.ExtractVideoId | src/components/ConverterCard.tsx:22-26 | an id is returned exactly when the pattern matches somewhere; it is the 11 characters of the capture the backtracking order chooses at the leftmost matching position |
| YouTubeUrl.MatchChoiceUnique | src/components/ConverterCard.tsx:23 | at one start position the backtracking order chooses at most one capture |
| YouTubeUrl.ExtractVideoIdDetermined | src/components/ConverterCard.tsx:22-26 | the chosen capture at the leftmost matching position is exactly what is returned, so the contract fixes the result for every input |
| YouTubeUrl.ShortLinkId | src/components/ConverterCard.tsx:22-26 | "youtu.be/<id>" after text without 'y' yields that id, whatever follows |
| YouTubeUrl.WatchLinkId | src/components/ConverterCard.tsx:22-26 | "youtube.com/watch?v=<id>" yields that id when nothing after it holds '/', '?' or '&' |
| YouTubeUrl.EmbedLinkId | src/components/ConverterCard.tsx:22-26 | "youtube.com/embed/<id>" yields that id when nothing after it holds '/', '?' or '&' |
| YouTubeUrl.ShortLinkAlwaysFound | src/components/ConverterCard.tsx:22-26 | any occurrence of "youtu.be/" followed by an id means some id is extracted |
| Converter.Decide | src/components/ConverterCard.tsx:33-57 | all-white-space input gets the empty-input message; other input the pattern rejects gets the invalid-URL message; accepted input without an id gets the no-id message; otherwise the extracted id is requested |
| Converter.MapResponse | src/components/ConverterCard.tsx:71-77 | a file is produced exactly when the reply is ok and parses, its status is the string "ok", and its link is truthy |
| Converter.ConvertedFileIsComplete | src/components/ConverterCard.tsx:77-83 | a produced file always has a truthy title, duration and link, the status "ok", and the reply's own link |
| Converter.TitleDefault | src/components/ConverterCard.tsx:79 | the title is the reply's title when that is truthy and "YouTube Video" otherwise |
| Converter.DurationDefault | src/components/ConverterCard.tsx:80 | the duration is the reply's duration when that is truthy and "Unknown" otherwise |
| Converter.HandleConvert | src/components/ConverterCard.tsx:33-101 | the service is asked exactly when all three checks pass, at the endpoint plus the id; a rejection keeps the current file and shows an error; otherwise the file is the mapped reply, and the toast is destructive exactly when no file came back |
| Converter.RejectionIgnoresService | src/components/ConverterCard.tsx:33-63 | for a rejected input the outcome does not depend on the service at all |
| Converter.LeadingSpaceIsRejected | src/components/ConverterCard.tsx:34-48 | input that starts with white space gets the empty-input message when it is all white space and the invalid-URL message otherwise, because the URL pattern is anchored and applied to the untrimmed input |
| Converter.MobileLinkHasId | src/components/ConverterCard.tsx:22-26 | the mobile link "https://m.youtube.com/watch?v=dQw4w9WgXcQ" holds an extractable id |
| Converter.MobileLinkIsRejected | src/components/ConverterCard.tsx:42-48 | that mobile link is nevertheless rejected as an invalid YouTube URL |
| Converter.ChannelLinkHasNoId | src/components/ConverterCard.tsx:42-57 | "youtube.com/watch" passes the URL check but yields no id, so it ends at the third check |

## Left out

- The FFT butterfly (`audio-utils.ts:107-127`), the Hann window (line 39) and the magnitude `Math.sqrt` (line 49) are floating point. They are folded into the `magnitude` parameter. Only the bit-reversal permutation of `fft` is modelled.
- `Math.log2` and `Math.round` of the MIDI number (line 26) are folded into the `roundedMidi` parameter. The band test on the exact frequency is modelled.
- Floating-point rounding of the running sums, means and quotients is not modelled: they are exact reals.
- NaN and infinities are not modelled. This covers a NaN correlation that never compares greater, and `formatDuration` of NaN or Infinity.
- `AudioBuffer` and `getChannelData` are left out. The input is that one channel as a sequence of reals.
- The sample rate is a positive integer, not an arbitrary number.
- BitReversal.BitReversePermute requires the length to be a power of two. `fft` is only ever called with 8192.
- `formatSampleRate`, `handleDownload`, the React state hooks, the `isConverting` flag, the toasts' rendering, the request headers and API key, and `console.error` are user interface or I/O. They are left out.
- `fetch` and `response.json()` are the `fetch` parameter of Converter.HandleConvert. It returns the `ok` flag and the parsed body, or None for a body that does not parse.
- Converter.HandleConvert: the contract does not name the toast text of each outcome. Its body has the texts of lines 36, 44, 53, 85-86 and 94-95.
- Strings are sequences of Unicode characters. JavaScript regular expressions without the `u` flag work on UTF-16 code units, so `[^"&?\/\s]{11}` counts code units. For an id holding characters outside the Basic Multilingual Plane, the model captures eleven characters where the source captures eleven code units and can split a surrogate pair.
- Duration.NatToString writes every number in plain decimal digits. `Number.prototype.toString` switches to exponent notation from 1e21 on, which a duration only reaches beyond 6e22 seconds.
- Duration.FormatDurationRoundTrip: stated for non-negative durations only. Negative input keeps its sign in both fields (Duration.NegativeDuration), and no reader of that form is given.
