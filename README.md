# A verified model of the colour tool's core

This project models the discrete core of the colour tool in `src/assets/js/script.js` and proves properties of that model in Dafny. The core covers:

- the hex colour codec (`hexToRgb`, `rgbToHex`, `isValidHex`);
- the input guards of the hex, RGB and base-colour fields;
- the saved-colour list;
- pixel sampling and the k-means extraction of dominant colours;
- the five palette schemes and the wheel's colour harmonies;
- the colour-psychology bands;
- the WCAG 2.x contrast ratio and its three badges.

One module per piece:

| file | module | models |
|---|---|---|
| `wrappers.dfy` | `Wrappers` | `Option`, the model of JavaScript's `null` |
| `hex_codec.dfy` | `HexCodec` | `hexToRgb`, `rgbToHex`, `isValidHex`, the hex and RGB input handlers, the base-colour hex handler |
| `saved_colors.dfy` | `SavedColorStore` | the `savedColors` array, `saveCurrentColor`, `deleteSavedColor` |
| `pixel_sampling.dfy` | `PixelSampling` | the sampling loop of `extractColors` |
| `dominant_colors.dfy` | `DominantColors` | `extractDominantColors`, as written and corrected |
| `palette.dfy` | `Palette` | `generatePaletteColors`, its five generators, `generateHarmonyColors` |
| `psychology.dfy` | `Psychology` | `getColorPsychology` |
| `contrast.dfy` | `Contrast` | `calculateContrastRatio`, `updateAccessibilityBadges` |

Conventions:

- Colours are `Rgb` triples of `Byte`s (0..255).
- Strings are `seq<char>`.
- A JavaScript `null` is `None`.
- JavaScript's `%` is modelled as a truncating remainder (`JsRem`, `JsRealRem360`), not as Dafny's Euclidean one.

Functions that compute nothing the model can check are parameters:

- `Math.random` is a sequence of seed indices.
- `rgbToHsl` is the function `toHsl`.
- `getRelativeLuminance` is the function `luminance`.
- `hslToHex` is left out. Each generator returns the HSL triples it would pass to it.

Where the code loops and pushes, the model is a method with a loop: the sampling loop, the k-means rounds, and the four `forEach` generators. Each such method is proved equal to a specification function, and the properties are proved about that function. The saved-colour list is a class whose methods update its `colors` field.

## Model

| member | source | states |
|---|---|---|
| HexCodec.HexToRgb | src/assets/js/script.js:240-249 | yields a colour exactly when the input is six hex digits of either case, optionally preceded by `#` |
| HexCodec.RgbToHex | src/assets/js/script.js:251-253 | `rgbToHex` yields `#` and six characters; RgbToHexDigits states which ones |
| HexCodec.RgbToHexDigits | src/assets/js/script.js:251-253 | the `(1 << 24)` / `toString(16)` / `slice(1)` trick gives `#` followed by each channel as two zero-padded base-16 digits |
| HexCodec.RgbToHexIsCanonical | src/assets/js/script.js:251-253 | `rgbToHex` always yields 7 characters: `#` then six lower-case hex digits |
| HexCodec.PairOfPad | src/assets/js/script.js:240-253 | the two digits written for a channel read back as that channel |
| HexCodec.HexToRgbOfRgbToHex | src/assets/js/script.js:240-253 | decoding an encoded colour gives the colour back |
| HexCodec.PadOfPair | src/assets/js/script.js:240-253 | re-encoding a parsed digit pair gives the same pair in lower case |
| HexCodec.RgbToHexOfHexToRgb | src/assets/js/script.js:240-253 | encoding a decoded hex string gives `#` and its digits in lower case |
| HexCodec.IsValidHex | src/assets/js/script.js:325-327 | `/^[0-9A-F]{6}$/i`; IsValidHexAgreesWithHexToRgb relates it to `hexToRgb` |
| HexCodec.IsValidHexAgreesWithHexToRgb | src/assets/js/script.js:325-327 | `isValidHex` accepts only strings that `hexToRgb` also accepts, with or without `#`, and rejects a leading `#` |
| HexCodec.KeepHexDigits | src/assets/js/script.js:134 | the filter never lengthens the text and leaves only hex digits |
| HexCodec.KeepHexDigitsFixed | src/assets/js/script.js:134 | `replace(/[^0-9A-F]/gi, '')` leaves a string unchanged exactly when every character is a hex digit |
| HexCodec.KeepHexDigitsAppend | src/assets/js/script.js:134 | the filter works character by character: filtering a concatenation concatenates the filtered parts |
| HexCodec.KeepHexDigitsDrops | src/assets/js/script.js:134 | a single non-hex character is dropped, and a single hex digit is kept as it is |
| HexCodec.KeepHexDigitsMembers | src/assets/js/script.js:134 | a character occurs in the result exactly when it occurs in the text and is a hex digit |
| HexCodec.HexFieldInput | src/assets/js/script.js:133-141 | the field keeps at most 6 hex digits, a prefix of the hex characters typed; `updateColor` runs exactly when 6 remain, with a colour `hexToRgb` accepts |
| HexCodec.HexFieldInputIdempotent | src/assets/js/script.js:133-141 | sanitising an already sanitised field changes nothing |
| HexCodec.RgbFieldInput | src/assets/js/script.js:184-193 | a colour goes to `updateColor` exactly when all three parsed channels (NaN read as 0) lie in 0..255; it is canonical and decodes to those channels |
| HexCodec.RemoveFirstHash | src/assets/js/script.js:882 | a string without `#` is unchanged; otherwise exactly one character goes |
| HexCodec.RemoveFirstHashAt | src/assets/js/script.js:882 | `replace("#", "")` removes only the first `#` |
| HexCodec.BaseHexFieldInput | src/assets/js/script.js:880-886 | as written: a value is written exactly when the text minus its first `#` passes `isValidHex`, and it is the text with `#` prepended unless it already starts with one |
| HexCodec.BaseHexFieldInputAcceptsInnerHash | src/assets/js/script.js:880-886 | as written, a `#` among the digits passes the guard, and the value written into the colour input is one `hexToRgb` rejects |
| HexCodec.BaseHexFieldInputFixed | src/assets/js/script.js:880-886 | the corrected guard accepts exactly what `hexToRgb` accepts and writes a value that decodes to the same colour |
| SavedColorStore.AfterSave | src/assets/js/script.js:350-351 | the old list stays a prefix, at most one entry is added, and the entries are the old ones plus the saved colour |
| SavedColorStore.AfterSaveShape | src/assets/js/script.js:350-351 | saving appends the colour when the exact string is absent and otherwise changes nothing, so a duplicate-free list stays duplicate-free |
| SavedColorStore.AfterSaveIdempotent | src/assets/js/script.js:350-351 | saving the same colour twice is saving it once |
| SavedColorStore.SpliceStart | src/assets/js/script.js:392 | `splice` counts a negative start from the end and clamps the start into 0..length |
| SavedColorStore.SpliceOne | src/assets/js/script.js:392 | `splice(index, 1)` shortens the list by one exactly when the clamped start is inside it, and never adds an entry |
| SavedColorStore.SpliceOneAtValidIndex | src/assets/js/script.js:392 | deleting at a valid index removes exactly that entry and keeps the others in order |
| SavedColorStore.SpliceOnePastEnd | src/assets/js/script.js:392 | deleting past the end leaves the list alone |
| SavedColorStore.SpliceOneKeepsNoDuplicates | src/assets/js/script.js:392 | deleting cannot create a duplicate |
| SavedColorStore.SavedColors.constructor | src/assets/js/script.js:6 | the list starts as what was stored |
| SavedColorStore.SavedColors.Save | src/assets/js/script.js:349-358 | `saveCurrentColor` pushes exactly when `includes` fails, keeps the list duplicate-free and grows it by at most one |
| SavedColorStore.SavedColors.Delete | src/assets/js/script.js:391-396 | `deleteSavedColor` is `splice(index, 1)`; at a valid index it removes that entry, and it keeps the list duplicate-free |
| PixelSampling.Sampled | src/assets/js/script.js:642-653 | at most one colour per 40 bytes of the buffer, rounded up |
| PixelSampling.SampledMembers | src/assets/js/script.js:642-653 | a colour is collected exactly when it is the colour of a pixel at a byte offset that is a multiple of 40 and whose alpha is at least 128 |
| PixelSampling.SampledAppend | src/assets/js/script.js:642-653 | sampling runs over whole 40-byte blocks in buffer order |
| PixelSampling.SampledTransparent | src/assets/js/script.js:650 | a buffer whose visited pixels are all below the alpha cutoff yields no colours |
| PixelSampling.SamplePixels | src/assets/js/script.js:642-653 | the loop collects exactly the sampled colours, in order |
| DominantColors.Seeded | src/assets/js/script.js:671-675 | one initial centroid per seed, each a copy of one of the colours |
| DominantColors.SqDist | src/assets/js/script.js:689-691 | the squared Euclidean distance, without the square root, which keeps the same order; SqDistZero states it is 0 exactly for equal colours |
| DominantColors.SqDistZero | src/assets/js/script.js:689-691 | the distance is 0 exactly when the two colours are equal |
| DominantColors.EmptyClusters | src/assets/js/script.js:679-681 | `Array(k).fill().map(() => [])`: exactly `k` clusters, all empty |
| DominantColors.NearestFrom | src/assets/js/script.js:688-697 | the scan keeps the first centroid at minimum distance |
| DominantColors.Nearest | src/assets/js/script.js:685-697 | each colour goes to a centroid at minimum distance, the lowest index among ties, because the comparison is a strict `<` |
| DominantColors.NearestCentroid | src/assets/js/script.js:685-697 | the `centroids.forEach` loop computes that centroid |
| DominantColors.Assign | src/assets/js/script.js:679-700 | one cluster per centroid; AssignMembers and AssignIsFilter state the contents |
| DominantColors.AssignMembers | src/assets/js/script.js:683-700 | a colour is in cluster `j` exactly when it is one of the colours and `j` is its nearest centroid |
| DominantColors.AssignTotalSize | src/assets/js/script.js:683-700 | the cluster sizes add up to the number of colours |
| DominantColors.ClusterOf | src/assets/js/script.js:683-700 | reference filter: the colours whose nearest centroid is `j`, in input order, never more than there are colours |
| DominantColors.AssignIsFilter | src/assets/js/script.js:683-700 | each cluster is exactly that filter, so every colour is pushed once, onto its nearest centroid's cluster, in input order |
| DominantColors.AssignColors | src/assets/js/script.js:679-700 | the `colors.forEach` loop builds those clusters |
| DominantColors.RoundedMean | src/assets/js/script.js:706-714 | `Math.round(sum / n)` for a non-negative sum: the nearest integer, with halves rounded up |
| DominantColors.RoundedMeanIsByte | src/assets/js/script.js:706-714 | the mean of channel values stays in 0..255, so every centroid stays a colour through all rounds |
| DominantColors.MeanColor | src/assets/js/script.js:706-714 | each channel is `Math.round(sum / length)` as RoundedMean characterises it; RoundedMeanIsByte keeps it a byte and MeanOfUniform gives back a repeated colour |
| DominantColors.MeanOfUniform | src/assets/js/script.js:706-714 | a cluster of one repeated colour has that colour as its mean |
| DominantColors.UpdateCentroids | src/assets/js/script.js:703-715 | as written: one new centroid per cluster; EmptyClusterTakesFirstCentroid and RoundedMean state what each is |
| DominantColors.Step | src/assets/js/script.js:679-715 | one round, assignment then update, keeps the number of centroids |
| DominantColors.Iterate | src/assets/js/script.js:678-716 | the ten rounds keep the number of centroids; IterateFixedPoint states when they stay put |
| DominantColors.EmptyClusterTakesFirstCentroid | src/assets/js/script.js:704 | as written, an empty cluster's centroid becomes the previous round's `centroids[0]`, not its own old value |
| DominantColors.IterateFixedPoint | src/assets/js/script.js:678-716 | centroids that one round leaves unchanged stay unchanged for all rounds |
| DominantColors.Ranking | src/assets/js/script.js:722-726 | each centroid's hex string paired with the size of the cluster it is given |
| DominantColors.SortByFrequency | src/assets/js/script.js:727 | the sort returns a permutation of the ranked centroids |
| DominantColors.SortByFrequencySorted | src/assets/js/script.js:727 | the result is ordered by descending frequency |
| DominantColors.SortEqualFrequenciesIsIdentity | src/assets/js/script.js:727 | with all frequencies equal, the stable sort keeps the order |
| DominantColors.RankingByEmptyClusters | src/assets/js/script.js:718-728 | as written, the ranking reads freshly created empty clusters, so the sort keeps centroid order |
| DominantColors.Colors | src/assets/js/script.js:728 | `.map((item) => item.color)`: one hex string per ranked entry, in order |
| DominantColors.DominantColors | src/assets/js/script.js:667-729 | as written: no colours give `[]`, otherwise exactly `k` colours |
| DominantColors.DominantColorsShape | src/assets/js/script.js:667-729 | no colours give `[]`; otherwise exactly `k` hex strings, the final centroids in index order |
| DominantColors.DominantColorsCanonical | src/assets/js/script.js:667-729 | every extracted colour is `#` and six lower-case hex digits |
| DominantColors.DominantColorsOfFixedPoint | src/assets/js/script.js:667-729 | seed colours that one round leaves alone are returned in seed order |
| DominantColors.ExtractDominantColors | src/assets/js/script.js:667-729 | the method with loops computes the same list as the specification functions |
| DominantColors.EmptyClusterExample | src/assets/js/script.js:704 | with centroids a, b, b over the colours a, b, the third centroid turns into a as written, and stays b when corrected |
| DominantColors.FrequencySortExample | src/assets/js/script.js:718-728 | one a and two b colours seeded 0, 1: as written, a is listed before the more frequent b |
| DominantColors.UpdateCentroidsKeepingOwn | src/assets/js/script.js:703-704 | corrected update, as the comment says: an empty cluster keeps its own centroid; a non-empty cluster takes its mean |
| DominantColors.UpdatesAgreeWithoutEmptyClusters | src/assets/js/script.js:703-715 | on every non-empty cluster the as-written and corrected updates give the same centroid, the mean |
| DominantColors.StepKeepingOwn | src/assets/js/script.js:679-715 | the corrected round, assignment then the corrected update, keeps the number of centroids |
| DominantColors.IterateKeepingOwn | src/assets/js/script.js:678-716 | the ten corrected rounds keep the number of centroids; IterateKeepingOwnLast and IterateKeepingOwnFixedPoint state how they compose |
| DominantColors.IterateKeepingOwnFixedPoint | src/assets/js/script.js:678-716 | a fixed point of the corrected round stays put |
| DominantColors.IterateKeepingOwnLast | src/assets/js/script.js:678-716 | `n + 1` corrected rounds are `n` rounds followed by one more, so the last round's clusters are those of the centroids before it |
| DominantColors.RankedCentroids | src/assets/js/script.js:718-728 | corrected ranking: one entry per centroid, each with its last-round cluster size; RankedCentroidsShape states the order |
| DominantColors.DominantColorsRanked | src/assets/js/script.js:667-729 | corrected result: no colours give `[]`, otherwise exactly `k` colours; RankedCentroidsShape states that they are ordered by cluster size |
| DominantColors.RankedCentroidsShape | src/assets/js/script.js:718-728 | the corrected ranking has one entry per centroid after the ten rounds, is a permutation of those centroids paired with their last-round cluster sizes, is sorted by descending size, and the sizes add up to the number of colours |
| DominantColors.TotalFrequencyOfRanking | src/assets/js/script.js:718-724 | the ranked frequencies add up to the cluster sizes |
| DominantColors.FrequencySortFixedExample | src/assets/js/script.js:718-728 | on the same input, the corrected ranking lists b first |
| Palette.JsRem | src/assets/js/script.js:963 | JavaScript's `%` on integers: the remainder has the sign of the dividend and is smaller than the divisor |
| Palette.JsRemOfTurn | src/assets/js/script.js:963 | on non-negative hue sums it equals the mathematical remainder modulo 360 |
| Palette.Darker | src/assets/js/script.js:976 | `Math.max(lo, l - d)` is the larger of the two |
| Palette.Lighter | src/assets/js/script.js:978 | `Math.min(hi, l + d)` is the smaller of the two |
| Palette.Monochromatic | src/assets/js/script.js:946-956 | five triples with the base hue and saturation, lightness 20, 35, 50, 65, 80 |
| Palette.GenerateMonochromatic | src/assets/js/script.js:946-956 | the `forEach` loop builds those triples |
| Palette.Analogous | src/assets/js/script.js:958-969 | five triples with the base saturation and lightness |
| Palette.GenerateAnalogous | src/assets/js/script.js:958-969 | the `forEach` loop builds them |
| Palette.AnalogousHues | src/assets/js/script.js:958-969 | for a base hue in 0..360, each hue is the base turned by -60, -30, 0, 30, 60 modulo 360, inside 0..359 |
| Palette.Complementary | src/assets/js/script.js:971-986 | six triples |
| Palette.ComplementaryShape | src/assets/js/script.js:971-986 | three shades of the base hue, then three of the hue 180 degrees away, with lightness `max(20, l-20)`, `l`, `min(80, l+20)` |
| Palette.Triadic | src/assets/js/script.js:988-1000 | nine triples |
| Palette.GenerateTriadic | src/assets/js/script.js:988-1000 | the `forEach` loop builds them |
| Palette.TriadicShape | src/assets/js/script.js:988-1000 | three shades at each of the hues turned by 0, 120, 240, inside 0..359, with lightness `max(20, l-10)`, `l`, `min(80, l+10)` |
| Palette.Tetradic | src/assets/js/script.js:1002-1013 | eight triples |
| Palette.GenerateTetradic | src/assets/js/script.js:1002-1013 | the `forEach` loop builds them |
| Palette.TetradicShape | src/assets/js/script.js:1002-1013 | at each of the hues turned by 0, 90, 180, 270, inside 0..359, saturation `max(30, s-20)` and then `s`, always the base lightness |
| Palette.ShadeBounds | src/assets/js/script.js:976-978 | the darker shade is never below 20 and the lighter never above 80; they are `l - d` and `l + d` wherever those are inside; past the other bound (with the triadic step 10, a base lightness above 90 or below 10) the darker shade is the lighter of the two |
| Palette.GeneratePaletteColors | src/assets/js/script.js:926-944 | a known scheme yields at least five generated colours, any other scheme the base colour alone; PaletteDispatch ties each scheme to its own generator |
| Palette.PaletteSizes | src/assets/js/script.js:926-944 | the scheme sizes are 5, 5, 6, 9 and 8; an unknown scheme returns the base colour alone |
| Palette.PaletteDispatch | src/assets/js/script.js:926-944 | each scheme name yields the triples of its own generator (Monochromatic, Analogous, Complementary, Triadic, Tetradic), in order |
| Palette.JsRealRem360 | src/assets/js/script.js:1127 | `% 360` on a non-negative number lies in [0, 360) |
| Palette.JsRealRemIsRotation | src/assets/js/script.js:1127-1142 | below two turns, `(h + d) % 360` is `h + d` turned back by at most one turn |
| Palette.HarmonyOf | src/assets/js/script.js:1124-1144 | each of the four harmony names selects its harmony |
| Palette.HarmonyTones | src/assets/js/script.js:1124-1144 | one fully saturated, half-lightness tone per offset of the harmony |
| Palette.HarmonyColors | src/assets/js/script.js:1121-1147 | all harmony colours have saturation 100 and lightness 50; an unknown type yields none |
| Palette.HarmonyHues | src/assets/js/script.js:1121-1147 | complementary gives 2 colours, the others 3; each hue is the base turned by 0/180, -30/0/30, 0/120/240 or 0/150/210, inside [0, 360) |
| Psychology.ColorPsychology | src/assets/js/script.js:1181-1232 | the branch chain puts the hue into a band whose interval contains it |
| Psychology.BandsDisjoint | src/assets/js/script.js:1181-1232 | the band intervals do not overlap |
| Psychology.ColorPsychologyExactly | src/assets/js/script.js:1181-1232 | the chain picks band b exactly when the hue lies in b's interval: red for [0,30) and from 330 up, violet for negatives and [300,330) |
| Psychology.BandName | src/assets/js/script.js:1184-1226 | the `name` heading each branch returns; BandNamesDistinct states they differ |
| Psychology.BandNamesDistinct | src/assets/js/script.js:1181-1232 | the seven headings are distinct |
| Contrast.ContrastRatio | src/assets/js/script.js:816-819 | `(max + 0.05) / (min + 0.05)` is at least 1, and exactly 1 for equal luminances |
| Contrast.ContrastRatioSymmetric | src/assets/js/script.js:816-819 | the ratio is symmetric in its two luminances |
| Contrast.ContrastRatioAtMost21 | src/assets/js/script.js:816-819 | for luminances in 0..1 the ratio is at most 21, and reaches 21 only for black against white |
| Contrast.CalculateContrastRatio | src/assets/js/script.js:809-820 | the ratio of two hex colours is at least 1, and 1 when both decode to the same colour |
| Contrast.BadgeResults | src/assets/js/script.js:831-844 | the three badges are shown in order under their own texts |
| Contrast.BadgesNested | src/assets/js/script.js:831-844 | AA Normal passes from 4.5, AA Large from 3.0, AAA Normal from 7.0; AAA implies AA Normal, which implies AA Large |
| Contrast.BadgesMonotone | src/assets/js/script.js:840 | a higher ratio never fails a badge that a lower one passes |
| Contrast.BadgeExtremes | src/assets/js/script.js:816-844 | for every luminance, a colour against one of equal luminance fails all three badges; black on white passes all three |

## Left out

- DOM, events, toasts, clipboard and the display functions are user-interface glue and are not modelled. This includes `displaySavedColors`, `displayExtractedColors`, `displayGeneratedPalette` and `displayHarmonyColors`.
- `localStorage` is persistence and is not modelled. The list is kept in memory, and `SavedColors.constructor` takes whatever was stored.
- File and image input and the JSON export are I/O. The pixel buffer is an input sequence of bytes.
- `rgbToHsl`, `hslToHex`, `rgbToHsv`, `hsvToHex` and `getRelativeLuminance` are floating-point conversions. They are parameters or left out, and the generators return the triples passed to `hslToHex`. No property depends on rounding at .5 boundaries.
- The picker, hue slider and colour-wheel geometry (`atan2`, `drawColorWheel`) are float geometry driving DOM state. Harmony and psychology therefore take the hue as a real number.
- The random palette of `generatePalette` is DOM output and is not modelled. In k-means, `Math.random` is replaced by seed indices, each below the number of colours.
- `Math.sqrt` in the distance is not modelled. The squared distance has the same minimiser and the same ties.
- `parseInt` is not modelled. The RGB-field handler receives each field's parse result, with `None` standing for `NaN`.
- The descriptive texts of the psychology panel (emotions, usage, cultural meaning) are constant strings and are not modelled. Only the band and its heading are.
- The gradient CSS string is plain interpolation and is not modelled.
- PixelSampling.SamplePixels: requires a buffer of whole pixels, as canvas `ImageData` always is. On a buffer with a trailing partial pixel the source would push a colour with `undefined` channels, since `undefined < 128` is false; the model does not sample it. No behaviour on canvas buffers depends on this.
- DominantColors.ExtractDominantColors: requires `k >= 1` when there are colours. With `k = 0` and some colours, the source throws on `clusters[0].push`.
- Palette.GeneratePaletteColors: requires a base colour that `hexToRgb` accepts. It always comes from a colour input, and the source would throw on `null`.
- Contrast.CalculateContrastRatio: requires valid hex colours and non-negative luminances, which the colour inputs and `getRelativeLuminance` always supply.
- DominantColors.RankedCentroidsShape: proves sortedness and permutation of the corrected ranking, but not that the sort is stable.
- The as-written k-means keeps two behaviours that its own comments contradict (see "## Findings").
  - An empty cluster takes `centroids[0]`, although the comment at `script.js:704` says it keeps its old centroid.
  - The ranking reads freshly created clusters, although the comment at `script.js:718` says it sorts by cluster size.
- The middle shade of the complementary and triadic palettes is the base lightness itself, unclamped. Each outer shade is clamped on one side only: the darker is raised to at least 20 and the lighter lowered to at most 80 (see Palette.ShadeBounds).

## Findings

| source | as written | input that shows it | evidently intended | confidence | as-written member | corrected member |
|---|---|---|---|---|---|---|
| src/assets/js/script.js:704 | an empty cluster returns `centroids[0]`, the previous round's first centroid | colours black, white; seeds 0, 1, 1 (centroids black, white, white): after one round the third centroid is black | per the comment, an empty cluster keeps its own old centroid | not executed | DominantColors.EmptyClusterExample | DominantColors.UpdateCentroidsKeepingOwn |
| src/assets/js/script.js:718-727 | the frequency sort reads a freshly created array of empty clusters, so every frequency is 0 and the order never changes | colours black, white, white; seeds 0, 1: white holds two of the three colours but is listed second | per the comment, sort by the size of each centroid's cluster | not executed | DominantColors.FrequencySortExample | DominantColors.RankedCentroidsShape |
| src/assets/js/script.js:880-886 | the guard tests `isValidHex(hex.replace("#", ""))`, and a string pattern removes only the first `#`, wherever it is | `abc#def` passes, and `#abc#def` is assigned to the base colour input; the page markup is not part of this model, but if that input is an `<input type="color">` the browser sanitises the value to `#000000`, so the palette turns black instead of following the typed colour | accept exactly an optional leading `#` followed by six hex digits | not executed | HexCodec.BaseHexFieldInputAcceptsInnerHash | HexCodec.BaseHexFieldInputFixed |
