# Entropy Detection Tool: a Dafny model of its computational core

The Entropy Detection Tool takes a file and reports two things. The first is
the Shannon entropy of the file's byte distribution, with a verdict from
"Very Low" to "Maximum". The second is a plot of the entropy of each
1024-byte window of the file. Before it reads a file, the tool checks the
file's extension against an allow-list and its size against a 50 MiB limit.

This project models that core in Dafny and proves properties of it:

- `Frequency` covers the byte-frequency tables. `Tally` is the counting loop
  of `calculate_entropy`. `ChunkTable` is the comprehension that
  `display_histogram` builds for each window.
- `Probability` turns counts into probabilities `freq / total_bytes`, using
  exact rational arithmetic.
- `Entropy` holds the two entropy formulas. The whole-file one subtracts the
  terms from a running value that starts at 0. The per-window one negates the
  sum of the terms. The base-2 logarithm is a parameter `log2: real -> real`
  with no fixed meaning. Each lemma states what it needs of it: at most
  `log2(1.0) == 0.0`, or that `log2` is non-positive on (0, 1].
- `Windowing` cuts data into windows the way
  `for i in range(0, len(data), size): data[i:i+size]` does.
- `Profile` gives the per-window entropy sequence. `ComputeProfile` is the
  histogram loop written as a method.
- `Classification` is the five-bucket threshold ladder of
  `get_entropy_strength_message`.
- `Upload` holds the validation decision of `upload_file` and the handler's
  overall outcome.

For empty data the frequency dictionary is empty, the probability loop never
runs, and the entropy stays 0. `Probabilities` divides only for table
entries that exist, so empty data divides nothing, and `EntropyOfEmpty`
proves the result is 0. The windowing loop also yields an empty profile for
empty data (`ProfileOfEmpty`).

Sums in the model run over byte values in ascending order. The source uses
other orders. The whole-file loop iterates `byte_freq`, which holds the byte
values in order of first occurrence. The per-window sum iterates
`chunk_freq`, which is filled from `set(chunk)` and so holds them in the
set's own order. For a window holding 200, 3 and 9, that order is 200, 9, 3:
neither first occurrence nor ascending. In exact arithmetic every order gives
the same value. The orders differ only under float rounding, which is left
out below.

The thresholds 3.0, 5.0, 7.0 and 7.99 are exact reals. The source compares a
float entropy with the float literal 7.99, and that literal is slightly above
the exact 7.99. No float lies strictly between the two values. So for every
float input, comparing with the exact 7.99 gives the same verdict.

## Model

| member | source | states |
|---|---|---|
| Frequency.Tally | main.py:52-54 | the table's keys are exactly the distinct byte values of the data; each entry is that byte's number of occurrences, so at least 1 |
| Frequency.TallyTotal | main.py:52-56 | the counts of the table add up to `len(data)` |
| Frequency.TallyOfRepeated | main.py:52-54 | data made of one repeated byte gives a one-entry table holding the data's length |
| Frequency.ChunkTableIsTally | main.py:70 | the per-window comprehension `{byte: chunk.count(byte) for byte in set(chunk)}` is the same table the counting loop builds for that window |
| Frequency.ChunkTable | main.py:70 | the per-window comprehension; no contract of its own, see ChunkTableIsTally, which shows it is the counting loop's table, so Tally's contract applies to it |
| Probability.Probabilities | main.py:56-59 | one probability per table entry, and probability times total equals the count; with zero total the table is empty, so no division happens |
| Probability.ProbabilitiesInUnitInterval | main.py:56-59 | every probability of a byte that occurs lies in (0, 1] |
| Probability.ProbabilitiesSumToOne | main.py:56-59 | for non-empty data the probabilities sum to exactly 1 |
| Probability.DistributionOfEmpty | main.py:52-59 | empty data gives no probabilities at all |
| Probability.DistributionOfRepeated | main.py:52-59 | one repeated byte gives a single probability of 1 |
| Probability.DistributionOfUniform | main.py:52-59 | if every byte value occurs k times, the data is 256k long and each probability is 1/256 |
| Entropy.AccumulateIsNegatedTotal | main.py:57-60 | subtracting the terms `prob * log2(prob)` one by one from a running value is subtracting their sum |
| Entropy.Accumulate | main.py:57-60 | the `entropy -= prob * math.log2(prob)` loop; no contract of its own, see AccumulateIsNegatedTotal |
| Entropy.GlobalEntropy | main.py:52-62 | the value `calculate_entropy` returns; no contract of its own, see ChunkEntropyIsGlobalEntropy, EntropyOfEmpty, EntropyOfRepeated, EntropyOfUniform, EntropyNonNegative |
| Entropy.ChunkEntropy | main.py:70-72 | the `-sum(...)` of one window; no contract of its own, see ChunkEntropyIsGlobalEntropy |
| Entropy.ChunkEntropyIsGlobalEntropy | main.py:70-72 | the per-window formula (negated sum over the comprehension table) equals the whole-file formula (running subtraction over the counted table) on the same bytes |
| Entropy.EntropyOfEmpty | main.py:56-62 | empty data has entropy 0 under both formulas |
| Entropy.EntropyOfRepeated | main.py:56-60 | one repeated byte has entropy 0 once `log2(1) == 0` |
| Entropy.EntropyOfUniform | main.py:56-60 | if every byte value occurs equally often, the entropy is `-log2(1/256)`, which is 8 bits |
| Entropy.EntropyNonNegative | main.py:57-60 | if `log2` is non-positive on (0, 1], the entropy is non-negative |
| Windowing.WindowsFromCover | main.py:68-69 | the windows from an offset are just enough to cover the rest of the data: k windows with (k-1)*size < remaining <= k*size, and none when nothing remains |
| Windowing.WindowsFrom | main.py:68-69 | the windows from one offset on; no contract of its own, see WindowsFromCover |
| Windowing.Windows | main.py:68-69 | the chunks `data[i:i+size]` for `i in range(0, len(data), size)`; no contract of its own, see WindowsLength, WindowsShape, ConcatWindows, WindowsOfFullPrefix, WindowsOfShort |
| Windowing.WindowsLength | main.py:68 | the loop visits `ceil(len(data) / size)` windows |
| Windowing.WindowsShape | main.py:68-69 | every window is non-empty and at most `size` long, and every window but the last is exactly `size` long |
| Windowing.ConcatWindows | main.py:68-69 | joining the windows in order gives back the data |
| Windowing.WindowsOfFullPrefix | main.py:68-69 | a prefix exactly one window long becomes the first window, and the rest is windowed as if it stood alone |
| Windowing.WindowsOfShort | main.py:68-69 | non-empty data no longer than one window is a single window |
| Profile.ComputeProfile | main.py:64-73 | the histogram loop yields the entropy of each 1024-byte window in window order, `ceil(len(data) / 1024)` values |
| Profile.EntropyProfile | main.py:64-73 | the `entropy_values` list `display_histogram` plots; no contract of its own, see ComputeProfile, ProfileOfEmpty, ProfileOfShort, ProfileOfFullPrefix, ProfileOfRepeatedThenUniform |
| Profile.ProfileOfEmpty | main.py:66-68 | empty data gives an empty profile |
| Profile.ProfileOfShort | main.py:68-73 | non-empty data of at most 1024 bytes gives the one-element profile `[whole-data entropy]` |
| Profile.ProfileOfFullPrefix | main.py:68-73 | a full first window contributes its entropy, followed by the profile of the remaining bytes |
| Profile.ProfileOfRepeatedThenUniform | main.py:65-73 | 1024 copies of one byte followed by 1024 bytes holding every value four times give the profile `[0, -log2(1/256)]` |
| Classification.Classify | main.py:10-20 | total over the reals; the bucket returned is one whose half-open range `[lower bound, next bucket's lower bound)` holds the input |
| Classification.ClassifyUnique | main.py:10-20 | a bucket whose range holds the input is the one returned, so the ranges do not overlap and each input has exactly one bucket |
| Classification.ClassifyMonotone | main.py:10-20 | a larger entropy never lands in a lower bucket |
| Classification.ClassifyBoundaries | main.py:11-20 | 2.999999 is Very Low, 3.0 is Low, 5.0 is Moderate, 7.0 is High, 7.99 is Maximum |
| Classification.StrengthMessageIsOneOfFive | main.py:10-20 | the message for any entropy is one of the five bucket texts |
| Classification.Message | main.py:11-20 | the five texts, one per bucket; no contract of its own, see StrengthMessageIsOneOfFive |
| Classification.StrengthMessage | main.py:10-20 | `get_entropy_strength_message`; no contract of its own, it is the text of Classify's bucket, see Classify, ClassifyUnique, StrengthMessageIsOneOfFive |
| Upload.Validate | main.py:88-99 | an extension outside the allow-list after lower-casing is unsupported; otherwise a size above 52428800 is too large; otherwise the file is accepted |
| Upload.Lower | main.py:90 | `ext.lower()` on ASCII letters: the length is kept and each character is lower-cased on its own; see LowerIdempotent, ValidateIgnoresCase |
| Upload.LowerIdempotent | main.py:90 | lower-casing an already lower-cased extension changes nothing |
| Upload.RejectionMessage | main.py:90-98 | the two rejection texts; no contract of its own, see RejectionTexts |
| Upload.ValidateIgnoresCase | main.py:89-90 | an extension and its lower-cased form get the same verdict |
| Upload.ExtensionCheckedFirst | main.py:88-92 | an extension off the allow-list is refused whatever the size |
| Upload.SizeLimitIsInclusive | main.py:95-97 | with an allowed extension, 52428800 bytes is accepted and 52428801 is too large |
| Upload.AcceptedDownwardClosed | main.py:95-99 | a smaller file with the same extension as an accepted one is accepted too |
| Upload.MixedCaseAccepted | main.py:88-90 | `.TXT` and `.Png` are accepted and `.exe` is not |
| Upload.AllowedShape | main.py:88-90 | every accepted extension is a dot followed by three characters |
| Upload.HandleUpload | main.py:86-110 | the handler rejects exactly when validation does not accept, and then shows the fixed text for that verdict; an accepted file shows the whole-file entropy of its bytes, the bucket of that entropy, and the window profile of the same bytes, one value per 1024-byte window |
| Upload.RejectionTexts | main.py:88-99 | an extension off the allow-list shows "Unsupported file type." whatever the size; an allowed extension over 52428800 bytes shows "File is too large. Max 50 MB allowed." |
| Upload.RejectionIgnoresContents | main.py:86-103 | a rejected file's outcome does not depend on its contents |

## Left out

- `math.log2` is not modelled as a number. It is a parameter of every entropy function. This is floating-point numerics.
- Entropy.EntropyNonNegative: states only the lower half of the range [0, 8] that entropy lies in, and only under a stated property of `log2`, because `log2` is a parameter. The upper bound 8 is not proved.
- Floating-point rounding is not modelled. Probabilities and sums are exact rationals, so the order in which the dictionary is iterated does not matter in the model.
- `{entropy:.4f}` formatting of the label text is not modelled (float-to-text). `Upload.HandleUpload` returns the entropy and its bucket instead of the formatted string.
- The read-error path (`try`/`except` around reading) is not modelled. `Upload.HandleUpload` is given the file's bytes as an input and assumes the read succeeds.
- Reading the file, `os.path.getsize` and `os.path.splitext` are I/O and library calls. The extension and the size are inputs. The model does not tie the size to the length of the bytes.
- Upload.Lower: lower-cases ASCII letters only, while Python's `str.lower` covers all of Unicode. The only non-ASCII character that lower-cases to an ASCII letter is the Kelvin sign, which becomes `k`. No allowed extension contains `k`. Python also lower-cases U+0130 (capital I with dot above) to the two characters `i` and U+0307, which lengthens the string, while `Lower` keeps the length. U+0307 is not ASCII, so such a string is never on the allow-list either way. The verdict is therefore the same for every input.
- The PyQt5 window, the file dialog and the `if file_path:` guard are not modelled. They are UI plumbing.
- The matplotlib plotting of the profile is not modelled. It is fire-and-forget display.
- The unused imports `filetype` and `numpy` are not modelled.
