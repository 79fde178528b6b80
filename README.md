# Music player core: playlist navigation, shuffle, file names, spectrum arithmetic, clock display

This Dafny project models the parts of the browser music player (`script.js`)
whose logic is integer, index or string arithmetic, and proves properties of
them:

- **Playlist navigation** (`playback.dfy`, module `Playback`). This is the shared `State` object and the operations on it:
  - `TrackManager.loadTrack`, `nextTrack`, `prevTrack` and `loadFolder`;
  - `PlaybackControls.play`, `toggleShuffle` and `toggleLoop`.

  Each operation is a pure transition on a `Nav` snapshot (track count, current index, loop mode, shuffle flag, shuffle order). The class `Player` keeps the same state in fields and performs the operations step by step. Each method's postcondition ties the new fields and outcome to the transition of the old state. The invariant `Valid()` says that the shuffle order is a permutation of the track indices and that the current index is a track. `LoadTrack`, `NextTrack`, `PrevTrack`, `ToggleLoop`, `ToggleShuffle` and `LoadFolder` require it and keep it. `ReplacePlaylist` establishes it from any state. `GenerateShuffleOrder` establishes it whenever the current index is in range.

  What the operations ask of the `<audio>` element is returned as a list of effects: load track *k*, play, pause, seek to 0. Shuffle mode with an empty order (shuffle switched on before any folder was loaded) makes `nextTrack`/`prevTrack` read `.url` of `undefined`. The model returns that as the `TypeError` outcome.
- **Shuffle order** (`shuffle.dfy`, module `Shuffle`). `generateShuffleOrder` is the identity order followed by a descending Fisher–Yates swap loop. `Player.GenerateShuffleOrder` runs the loop in place on an array (`SwapDown`). The proofs show that every sequence of draws yields a permutation of the track indices.
- **Display names** (`filenames.dfy`, module `FileNames`). `cleanFileName` is a chain of four steps:
  - strip the audio extension (any letter case);
  - strip a leading track number and its separators;
  - turn underscores into spaces;
  - trim.
- **Spectrum arithmetic** (`visualizer.dfy`, module `Visualizer`):
  - `smoothFrequencyData`, the clipped moving average written into a `Uint8Array`, as a method with nested loops;
  - the split of the spectrum into bass/mid/treble thirds in `animate`, with the targets computed from it;
  - the bar layout and the bar-to-bin index map of `drawBars`, and the same map for the 100 ring points of `drawAlbumArtWaves`.
- **Clock display** (`timeformat.dfy`, module `TimeFormat`). `Utils.formatTime` turns seconds into `m:ss`. NaN and ±Infinity count as one input, and any other number as a real.

`Math.random` is replaced by a sequence of draws `draws[i]` in `[0, i]`, passed in as a parameter. `DOM.audio.currentTime > 3` in `prevTrack` becomes the boolean parameter `pastThreeSeconds`.

## Model

| member | source | states |
|---|---|---|
| Shuffle.Range | script.js:292 | the initial order has length n and holds k at position k |
| Shuffle.Swap | script.js:295-296 | the destructuring swap exchanges positions i and j and leaves every other position alone |
| Shuffle.SwapPreservesElements | script.js:295-296 | a swap keeps the multiset of entries |
| Shuffle.ShuffleDown | script.js:293-297 | the swap loop from index i down to 1 keeps the length |
| Shuffle.FisherYates | script.js:291-298 | the generated order has one entry per track |
| Shuffle.ShuffleDownPreservesElements | script.js:293-297 | the whole swap loop keeps the multiset of entries, whatever the draws |
| Shuffle.FisherYatesIsPermutation | script.js:291-298 | for any valid draws the generated order has one entry per track and is a permutation of 0..n-1 |
| Shuffle.RangeOccurrences | script.js:292 | the initial order holds each of 0..n-1 exactly once and nothing else |
| Shuffle.PermutationFacts | script.js:291-298 | in a permutation of 0..n-1, every entry is a track index, every track index occurs, and no entry repeats |
| Playback.IndexOf | script.js:381 | indexOf returns -1 exactly when the value is absent; otherwise it returns the first position holding it |
| Playback.JsRem | script.js:382 | JavaScript's `%` with a positive divisor: in [0, b) for a non-negative dividend and in (-b, 0] for a negative one |
| Playback.PlayEffects | script.js:484-487 | play asks for at most one effect, `Play`, and asks for it exactly when there are tracks |
| Playback.NextLoopMode | script.js:516-519 | the next loop mode always differs from the current one |
| Playback.ShuffleNext | script.js:381-383 | the successor of the current track in a non-empty order is an entry of the order |
| Playback.ShufflePrev | script.js:411-413 | the predecessor of the current track in a non-empty order is an entry of the order |
| Playback.NextTrackStep | script.js:372-400 | nextTrack changes at most the current index; on a throw the model keeps the state (the source has already stored `undefined`, see Left out); when the index changes, the new index is a track and it is loaded then played |
| Playback.PrevTrackStep | script.js:402-423 | prevTrack changes at most the current index; past 3 s it only seeks to 0; on a throw the model keeps the state (the source has already stored `undefined`, see Left out); when the index changes, the new index is a track and it is loaded then played |
| Playback.ToggleShuffleStep | script.js:508-514 | toggleShuffle flips the flag and changes nothing else but the order; turning shuffle off keeps the order, and turning it on draws one entry per track |
| Playback.LoadFolderStep | script.js:182-214 | an empty folder changes nothing; otherwise the count becomes n, track 0 is current and loaded, the order has n entries, and loop and shuffle modes are kept |
| Playback.LoadTrackStep | script.js:348-352 | loadTrack never fails |
| Playback.LoadTrackBounds | script.js:348-352 | an index outside [0, length) changes nothing and loads nothing; an index inside becomes current and is loaded |
| Playback.ToggleLoopCycles | script.js:516-519 | toggleLoop goes none→all→one→none; it never keeps the mode, and three presses restore it |
| Playback.IndexOfDistinct | script.js:381 | in a sequence without repeats, indexOf finds each entry at its own position |
| Playback.IndexOfInPermutation | script.js:411 | in a shuffle order, indexOf of the entry at position k is k |
| Playback.ShuffleNeighboursAreTracks | script.js:380-384 | in a valid state the shuffle successor and predecessor of the current track are track indices |
| Playback.NextTrackInOrder | script.js:372-400 | without shuffle: 'one' seeks to 0 and plays; otherwise it loads and plays index+1; past the end it wraps to 0 under 'all' and pauses under 'none' |
| Playback.NextTrackShuffled | script.js:380-399 | with shuffle (and not 'one'), nextTrack loads and plays the cyclic successor in the order, and the stop-at-end branch is never taken |
| Playback.PrevTrackInOrder | script.js:402-423 | without shuffle: past 3 s it only seeks to 0; otherwise it loads and plays index-1; at index 0 it goes to the last track under 'all' and stays at 0 otherwise |
| Playback.PrevTrackShuffled | script.js:402-423 | with shuffle: past 3 s it only seeks; otherwise it loads and plays the cyclic predecessor in the order, whatever the loop mode |
| Playback.TypeErrorOnlyWhenEmpty | script.js:380-384 | from any state reached without a prior throw, next and prev throw exactly when shuffle is on and the playlist is empty (for next, also only when loop is not 'one') |
| Playback.LoadTrackPreservesValid | script.js:348-352 | loadTrack keeps the state valid |
| Playback.NextTrackPreservesValid | script.js:372-400 | nextTrack keeps the current index a track and the order a permutation |
| Playback.PrevTrackPreservesValid | script.js:402-423 | prevTrack keeps the current index a track and the order a permutation |
| Playback.ToggleShufflePreservesValid | script.js:508-514 | toggleShuffle keeps the state valid, including the freshly drawn order |
| Playback.LoadFolderPreservesValid | script.js:182-214 | loadFolder leaves a valid state, and with files it makes track 0 current |
| Playback.JsRemBelowTwice | script.js:382 | for 0 <= a < 2n, `a % n` is a, or a - n |
| Playback.ModOnce | script.js:382 | for n <= a < 2n, the remainder by n is a - n |
| Playback.ShuffleNextAt | script.js:381-383 | the shuffle successor of the entry at position k is the entry at k+1, wrapping to position 0 |
| Playback.ShufflePrevAt | script.js:411-413 | the shuffle predecessor of the entry at position k is the entry at k-1, wrapping to the last position |
| Playback.ShufflePrevUndoesNext | script.js:372-423 | in shuffle mode, prev (before 3 s) after next returns to the original state |
| Playback.ShuffleNextUndoesPrev | script.js:372-423 | in shuffle mode, next after prev returns to the original state, so stepping is a bijection on the tracks |
| Playback.InOrderPrevUndoesNext | script.js:372-423 | without shuffle, prev undoes next whenever next moved (not at the end, or wrapping under 'all') |
| Playback.SwapDown | script.js:293-297 | the in-place swap loop leaves the array equal to the swap loop applied to its old contents, with the same multiset |
| Playback.Playlist | script.js:193-202 | one track per file, in order, each named by cleanFileName of its file name |
| Playback.Player.constructor | script.js:74-83 | the initial state: no tracks, index 0, loop 'none', shuffle off, empty order; it is valid |
| Playback.Player.LoadTrack | script.js:348-352 | the fields and effects are those of the loadTrack transition; the tracks and order are unchanged |
| Playback.Player.Play | script.js:484-487 | play asks the element to play only when there are tracks |
| Playback.Player.NextTrack | script.js:372-400 | the new fields and outcome are those of the nextTrack transition; the state stays valid |
| Playback.Player.PrevTrack | script.js:402-423 | the new fields and outcome are those of the prevTrack transition; the state stays valid |
| Playback.Player.ToggleLoop | script.js:516-519 | only the loop mode changes, to the next in none→all→one; the state stays valid |
| Playback.Player.GenerateShuffleOrder | script.js:291-298 | the new order is the Fisher–Yates result of the identity for these draws, and a permutation of the track indices; nothing else changes |
| Playback.Player.ToggleShuffle | script.js:508-514 | flips the flag and, when turning it on, draws a new order; the state stays valid |
| Playback.Player.ReplacePlaylist | script.js:193-211 | the tracks become the cleaned file list, index 0, with a fresh shuffle order |
| Playback.Player.LoadFolder | script.js:182-214 | an empty file list changes nothing; otherwise the tracks are the cleaned names, track 0 is loaded and the order is new; the state stays valid |
| FileNames.StripExtension | script.js:285 | the first replace returns a prefix of the name |
| FileNames.StripTrackNumber | script.js:286 | the second replace returns a suffix of its input |
| FileNames.Trim | script.js:288 | trim never lengthens its input |
| FileNames.CleanFileName | script.js:283-289 | the display name is never longer than the file name |
| FileNames.StripExtensionAmong | script.js:285 | the result is a prefix of the name, and it differs from the name only if one of the extensions matched |
| FileNames.LeadingRun | script.js:286 | the longest prefix satisfying the predicate: every character in it satisfies it and the next one does not |
| FileNames.UnderscoresToSpaces | script.js:287 | same length, each `_` becomes a space, everything else is kept, and no `_` remains |
| FileNames.TrailingWhitespace | script.js:288 | the trailing white-space run: all white space, and the character before it is not |
| FileNames.TrimCharacterized | script.js:288 | trim returns a slice of its input; everything cut from either end is white space, and the slice neither starts nor ends with white space |
| FileNames.TrimShape | script.js:288 | trim adds no character, and its result neither starts nor ends with white space |
| FileNames.CleanFileNameShape | script.js:283-289 | a display name contains no `_` and neither starts nor ends with white space |
| FileNames.StripsKnownExtension | script.js:285 | base + "." + any case variant of a listed extension loses exactly the extension |
| FileNames.StripAmongFirstMatch | script.js:285 | when exactly one listed extension matches, it is the one stripped |
| FileNames.KeepsUnknownExtension | script.js:285 | a name with no listed extension is unchanged by the first replace |
| FileNames.StripsTrackNumber | script.js:286 | digits, then separators, then a rest not starting with a separator: only the rest remains |
| FileNames.LeadingRunOfPrefix | script.js:286 | the run of a prefix whose characters all match, followed by a non-matching character, is exactly that prefix |
| FileNames.KeepsUnnumberedName | script.js:286 | a name not starting with a digit is unchanged by the second replace |
| FileNames.KeepsNumberWithoutSeparator | script.js:286 | a name whose leading digits are followed by a character other than a separator ("2pac") is unchanged by the second replace |
| FileNames.StripTrackNumberChanges | script.js:286 | the second replace changes a name exactly when it starts with digits followed by a separator |
| Visualizer.Sum | script.js:791 | the sum of n bytes is at most 255·n |
| Visualizer.SumConcat | script.js:786-793 | the sum of a concatenation is the sum of the parts |
| Visualizer.SumBounds | script.js:791 | per-element bounds lo, hi bound the sum by lo·n and hi·n |
| Visualizer.WindowHoldsBin | script.js:872-874 | the clipped window of bin i contains i and has between 1 and 2w+1 bins, so `count` is never 0 |
| Visualizer.WindowMean | script.js:872-879 | the stored value for bin i is the floor of the window's mean: value × window size is at most the window sum, which is below (value + 1) × window size |
| Visualizer.StoredMean | script.js:878-879 | the loop's `sum / count` for bin i is entry i of the smoothed spectrum |
| Visualizer.Smoothed | script.js:867-881 | the smoothed array has the length of the input |
| Visualizer.SumWindow | script.js:870-878 | the inner loop's `sum` is the sum of the clipped window and `count` its size |
| Visualizer.SmoothFrequencyData | script.js:867-881 | returns a fresh array whose entry i is the truncated mean of the clipped window around i |
| Visualizer.SmoothedWithinWindow | script.js:879 | every smoothed value lies between any lower and upper bound of its window, so between the window's minimum and maximum |
| Visualizer.SmoothedConstant | script.js:867-881 | a constant spectrum is returned unchanged |
| Visualizer.SmoothedRadiusZero | script.js:867-881 | with window radius 0 the data is returned unchanged |
| Visualizer.BandsPartition | script.js:790-793 | the three slices concatenate to the spectrum; bass and mid have `third` bins, treble between third and third+2; the band sums add up to the total |
| Visualizer.BandTargets | script.js:778-794 | the intensity target is always a finite, non-negative number |
| Visualizer.RatioBound | script.js:791-793 | a band sum of at most 255·m bins divided by n and 255 is finite and lies in [0, m/n] |
| Visualizer.RatioAtMostOne | script.js:791-792 | a band of n bins divided by n and 255 lies in [0, 1] |
| Visualizer.TargetsBounds | script.js:785-794 | with at least 3 bins, intensity, bass and mid lie in [0, 1] and treble in [0, treble length / third] |
| Visualizer.TrebleTargetCanExceedOne | script.js:793 | with five bins at full scale, the treble target is 3 |
| Visualizer.ShortSpectrumTargets | script.js:790-793 | with 1 or 2 bins, bass and mid are NaN and treble is not finite |
| Visualizer.SilentTargets | script.js:778-794 | without data or while paused, all four targets are 0 |
| Visualizer.BarCount | script.js:825-829 | for a non-negative width the bar count is non-negative and the bars with their gaps are narrower than the width |
| Visualizer.BarsFit | script.js:825-830 | once a bar fits, the bars plus gaps leave a margin of 3 to 11 pixels of the width |
| Visualizer.BinIndex | script.js:833 | the bin index is the floor of i·len/count: index·count is at most i·len, which is below (index + 1)·count |
| Visualizer.BinIndexInRange | script.js:833 | bar i of count shows a bin index inside the data |
| Visualizer.BinIndexMonotone | script.js:833 | bars further right never show lower bins |
| Visualizer.BinIndexStrictlyMonotone | script.js:833 | with no more bars than bins, no two bars show the same bin |
| Visualizer.BinValue | script.js:833-834 | without data the value is 0; when the bin index is inside the data, the value is that bin's magnitude |
| Visualizer.BinValueReadsBin | script.js:833-834 | with data, each bar reads its bin and the `or 0` fallback is unused; without data each bar shows 0 |
| Visualizer.RingPointBins | script.js:956-962 | each of the 100 ring points reads a bin inside a non-empty spectrum; later points never read lower bins; with at least 100 bins no two points read the same bin |
| TimeFormat.DigitChar | script.js:1093 | a digit value becomes a decimal digit character |
| TimeFormat.NatToString | script.js:1093 | toString of a natural number is a non-empty string of digits, one digit long exactly below 10 |
| TimeFormat.IntToString | script.js:1093 | toString of an integer is non-empty, starts with '-' exactly for a negative number, and is all digits otherwise |
| TimeFormat.JsRem | script.js:1092 | JavaScript's `%` on numbers with a positive divisor: the remainder has the sign of the dividend and is no larger in magnitude; a dividend smaller in magnitude than the divisor is its own remainder |
| TimeFormat.QuotientTruncation | script.js:1092 | the truncated quotient has the sign of x, m times it lies between 0 and x, and it is 0 when the magnitude of x is below m |
| TimeFormat.SmallQuotient | script.js:1092 | a dividend smaller in magnitude than the divisor gives a quotient strictly between -1 and 1 |
| TimeFormat.FormatTime | script.js:1089-1094 | every display has at least four characters and contains a colon |
| TimeFormat.PadStart2 | script.js:1093 | padStart(2, '0') gives at least two characters |
| TimeFormat.NatToStringValue | script.js:1093 | the digits of toString read back as the number |
| TimeFormat.WholeMinutesAndSeconds | script.js:1091-1092 | for a non-negative time, floor(s/60) and floor(s % 60) are the integer quotient and remainder of floor(s) by 60 |
| TimeFormat.SecondsField | script.js:1093 | a seconds value below 60 pads to exactly two digits, the first 0–5, reading back as the value |
| TimeFormat.FormatTimeIsClock | script.js:1089-1094 | a non-negative time shows as minutes ":" two-digit seconds of its whole seconds |
| TimeFormat.ParseClockOfClock | script.js:1093 | the clock of n whole seconds parses back to n |
| TimeFormat.ParseFormatTime | script.js:1089-1094 | parsing the display of a non-negative time gives back its whole seconds |
| TimeFormat.FormatTimeDistinguishes | script.js:1089-1094 | non-negative times with different whole seconds display differently |
| TimeFormat.NotFiniteShowsZero | script.js:1090 | NaN and the infinities display "0:00", like a zero time |
| TimeFormat.NegativeTimeShape | script.js:1091-1093 | a negative time is not clamped: -5 s displays as "-1:-5" |

## Left out

- The DOM, rendering of the playlist and track display, album-art classes and button state. These are UI updates with no bearing on the modelled state.
- The Web Audio graph (`AudioEngine`), `isPlaying` updates, volume and mute, and progress-bar seeking. These are browser I/O. `isPlaying` enters only as a parameter of the band targets.
- `Math.random`. It is modelled as the input sequence `draws`.
- `DOM.audio.currentTime`. It enters only as the `pastThreeSeconds` flag of `prevTrack`.
- The filter and sort in `loadFolder` (MIME type test, `localeCompare` with numeric collation), `URL.createObjectURL`, the "no audio files" alert and metadata extraction, which may later overwrite a track's name asynchronously. `LoadFolder` receives the file names already filtered and sorted. An empty list changes nothing, as the early return does.
- Track fields other than the name (id, file, artist, album, art, url, duration). Only the name is derived by modelled code.
- Playback.TypeErrorOnlyWhenEmpty: holds only for states reached without a prior throw. When `loadTrack(undefined)` throws, the source has already stored `undefined` in `State.currentIndex` (script.js:349-354). With shuffle on, `indexOf(undefined)` is -1 and the same throw repeats. With shuffle off, `nextTrack` computes `undefined + 1`, which is NaN (script.js:385), skips the end test (script.js:388) and throws again in `loadTrack(NaN)`. `prevTrack` behaves the same way (script.js:415-421). This lasts until a non-empty `loadFolder` resets the index. The model keeps the old index instead. After a throw it therefore returns `Done` outcomes where the source keeps throwing.
- Playback.NextTrackStep / Playback.PrevTrackStep / Playback.Player.NextTrack / Playback.Player.PrevTrack: in the `TypeError` case the model leaves the state unchanged and only reports the error. The source has already written `undefined` into `State.currentIndex` (script.js:351) before it throws at script.js:354, as the line above describes.
- Floating point: `lerp` smoothing, the superellipse ring geometry, sine deformations, gradients, glow and particles.
- Visualizer.BandTargets uses exact reals. Values are not rounded to doubles.
- Visualizer.BinIndex is the exact floor of i·len/count. JavaScript computes `(i / count) * len` in floating point, which can round an exact integer product down by one ulp.
- TimeFormat.NatToString / TimeFormat.IntToString: always write decimal digits. JavaScript's `toString` writes integers of magnitude 10^21 or more in exponent form (`"1e+21"`), so for times of 6·10^22 seconds or more the minutes field of script.js:1093 differs from the model's, and FormatTimeIsClock, ParseFormatTime and FormatTimeDistinguishes do not describe the program on those inputs.
- TimeFormat.FormatTime takes an exact real. Floating-point rounding of `seconds / 60` and `seconds % 60` is not modelled.
- Visualizer.BarsFit covers the bar layout's integer arithmetic only. `offsetX` is half the stated margin, and the sidebar offset and `isMobile` test are window geometry.
