# dm-data-format-permutator, modelled in Dafny

`main.py` masks one column of a CSV file. It reads the header, finds the
column by name, and for every data row guesses what the cell holds
(`detect_data_type`) and replaces it with a fresh value of the same kind
(`permute_data_format`). The output file name defaults to the input name
with `.csv` turned into `_masked.csv`.

The model has seven modules:

- `Text` (text.dfy): ASCII digits and whitespace, `str.strip()` and
  `str.replace()` with Python's semantics, and their properties.
- `Regex` (regex.dfy): the fragment of Python regular expressions that the
  detector uses, with its meaning as a language. `re.match` is a prefix
  test: it succeeds when some prefix of the string is in the language.
- `Detector` (detector.dfy): `detect_data_type`, written with hand-built
  prefix recognisers. It is proved equal, on every input, to a reference
  that applies the four regular expressions of the source through their
  language semantics.
- `Fabricator` (fabricator.dfy): the branch and fallback skeleton of
  `permute_data_format`, as the function `FabricateWith` (the guarded
  body) wrapped by `Fabricate` (the `Faker(locale)` call before it):
  - each Faker and dateutil call is an oracle result that either returns
    a value or raises;
  - the `strftime` and f-string formatting is modelled exactly.
- `Paths` (paths.dfy): the output-file name.
- `Options` (options.dfy): the optional value shared by `Paths` and
  `Pipeline`.
- `Pipeline` (pipeline.dfy): the header and row loop of `main`, as a
  method with a loop. It is proved equal to a recursive specification,
  `MaskedTable`, and the properties are stated about that specification.

The functions that compute, and which the lemmas below are about, are
`Text.Strip`, `Text.ReplaceAll`, `Detector.Classify`, `Detector.Detect`,
`Detector.ReferenceDetect`, `Fabricator.FabricateWith`,
`Paths.DefaultOutputPath` and `Pipeline.MaskedTable`.

The model follows the code in two places where the tool's own description
differs from it:

- The default output name is described as the input name with a trailing
  `.csv` replaced. The code uses `str.replace`, which rewrites every
  `.csv` anywhere in the path. `Paths.SplitAtCsv` proves that the text on
  either side of any `.csv` is rewritten on its own, and
  `Paths.DefaultInnerCsv` shows `data.csv.bak` becoming
  `data_masked.csv.bak`.
- The fabricator is described as never raising, because it returns the
  original value on any error. However, `Faker(locale)` (main.py:38) runs
  before its `try`. An exception there leaves the function and reaches the
  per-row handler in `main`, which writes the original row. `Fabricate`
  returns `Raised` in that case, and `MaskRow` writes the row unchanged.

Consequences of the code that the proofs make explicit:

- The four patterns never match the same stripped value
  (`PatternsExclusive`), so the order of the tests never decides the
  outcome.
- The optional groups of the currency pattern never matter: the test is
  `$` followed by a digit (`DetectCurrency`).
- Every match is a prefix match, so appending text to a classified value
  never changes its tag (`DetectPrefixStable`).
- A path without `.csv` is its own default output name
  (`DefaultUnchanged`). The tool then opens the input file for writing
  too; file handling is not part of this model.

## Model

| member | source | states |
|---|---|---|
| Text.TrimStartSpec | main.py:74 | leading-whitespace removal keeps a suffix, drops only whitespace and leaves no leading whitespace |
| Text.TrimEndSpec | main.py:74 | trailing-whitespace removal keeps a prefix, drops only whitespace and leaves no trailing whitespace |
| Text.StripSpec | main.py:74 | `strip()` keeps a slice of the input, what it removes on either side is whitespace, and the result neither begins nor ends with whitespace |
| Text.StripBlank | main.py:73-76 | `strip()` yields the empty string exactly when the value is all whitespace |
| Text.StripUnchanged | main.py:74 | a value that neither begins nor ends with whitespace is its own `strip()` |
| Text.StripIdempotent | main.py:74 | stripping twice is stripping once |
| Text.TrimStartExtend | main.py:74 | once a value has a non-space character, appending text only extends what leading-whitespace removal keeps |
| Text.TrimEndExtend | main.py:74 | appending text never shortens what trailing-whitespace removal keeps of a string that is not blank |
| Text.StripExtend | main.py:74 | for a value that is not blank, the stripped value is a prefix of the stripped value of any extension |
| Text.ReplaceAbsent | main.py:100 | `replace` with a pattern that does not occur returns the string unchanged |
| Text.ReplaceNotShorter | main.py:100 | a replacement at least as long as the pattern never shortens the string |
| Text.ReplaceGrows | main.py:100 | a longer replacement lengthens every string in which the pattern occurs |
| Text.Without | main.py:51 | dropping a character: none is left, and every other character occurs as often as before |
| Text.RemoveChar | main.py:51 | `replace(c, '')` equals `Without` on every input, so every `c` is removed and every other character kept |
| Regex.NullableMatchesEmpty | main.py:84-86 | the optional and repeated groups accept the empty word, as their shape says |
| Regex.CatSlice | main.py:80-86 | a concatenation matches a slice exactly when its parts match adjacent slices |
| Regex.CatFrom | main.py:80-86 | a concatenation matches a prefix from position i exactly when its first part matches up to some m and the rest matches a prefix from m |
| Regex.ExtendFrom | main.py:80-86 | `re.match` is a prefix test: a successful match still succeeds after text is appended |
| Regex.OptClassThen | main.py:86 | an optional character is either consumed or skipped, and the rest must then match |
| Regex.RepThen | main.py:80-86 | `\d{n}` followed by a tail r consumes exactly n characters of the class, then r must match |
| Regex.UpToThen | main.py:86 | up to n characters of the class followed by r: some run of m <= n such characters, then r |
| Detector.IsoDateCorrect | main.py:80 | the recogniser for `\d{4}-\d{2}-\d{2}` holds exactly when `re.match` of that pattern succeeds |
| Detector.UsDateCorrect | main.py:82 | the recogniser for `\d{2}/\d{2}/\d{4}` holds exactly when `re.match` of that pattern succeeds |
| Detector.CurrencyCorrect | main.py:84 | `re.match` of the currency pattern succeeds exactly when the value begins with `$` and a digit |
| Detector.PhoneCorrect | main.py:86 | the staged phone recogniser holds exactly when `re.match` of the telephone pattern succeeds |
| Detector.DetectAgreesWithPatterns | main.py:63-89 | the detector equals the reference that strips, rejects the empty value and tries the four regular expressions in order |
| Detector.DetectBlank | main.py:73-76 | an empty or all-whitespace value is 'unknown' |
| Detector.PhoneStart | main.py:86 | a phone number begins with `+`, whitespace, `(`, or three digits followed by `)`, a separator or three more digits |
| Detector.PhoneExcludesOthers | main.py:80-86 | a value that begins with the phone shape begins with neither date shape nor `$` |
| Detector.PatternsExclusive | main.py:80-87 | no two of the four patterns match the same string |
| Detector.PhoneStageLength | main.py:86 | the phone pattern from each item on needs at least a fixed number of characters |
| Detector.PhoneLength | main.py:86 | every phone match is at least ten characters long |
| Detector.DetectDate | main.py:80-83 | 'date' exactly when the stripped value begins with either date shape, whatever follows |
| Detector.DetectCurrency | main.py:84-85 | 'currency' exactly when the stripped value matches the currency pattern, that is, begins with `$` and a digit |
| Detector.DetectTelephone | main.py:86-87 | 'telephone' exactly when the stripped value matches the telephone pattern |
| Detector.DetectUnknown | main.py:89 | 'unknown' exactly when none of the four patterns matches the stripped value |
| Detector.FixedTestsExtend | main.py:80-85 | the date and currency tests look only at the first ten or two characters |
| Detector.ClassifyExtend | main.py:80-89 | appending text to a classified stripped value keeps its tag |
| Detector.DetectPrefixStable | main.py:73-89 | appending text to a value that is not 'unknown' keeps its tag |
| Detector.IsoDateExample | main.py:80-81 | `2023-01-15` is 'date' |
| Detector.UsDateExample | main.py:82-83 | `01/15/2023` is 'date' |
| Detector.CurrencyExample | main.py:84-85 | `$1,234.56` is 'currency' |
| Detector.TelephoneExample | main.py:86-87 | `(555) 123-4567` is 'telephone' |
| Detector.TenDigitPhoneExample | main.py:86-87 | `5551234567` is 'telephone' |
| Detector.CountryCodePhoneExample | main.py:86-87 | `+1 (555) 123-4567` is 'telephone' |
| Detector.UnknownExample | main.py:89 | `hello` is 'unknown' |
| Fabricator.Dec | main.py:53 | `str(n)` is a string of digits without leading zeros whose value is n |
| Fabricator.DecLength | main.py:53 | a number below 10^w prints in at most w digits |
| Fabricator.Pad | main.py:45 | a zero-filled field of exactly the given width whose digits denote n |
| Fabricator.FormatIso | main.py:45 | `strftime('%Y-%m-%d')` has ten characters, has the ISO date shape, and its three digit fields denote the year, month and day |
| Fabricator.FormatAmount | main.py:53 | `$units.cents` has four to seven characters, begins with `$` and a digit, and is `$`, `str(units)`, `.`, `str(cents)` |
| Fabricator.CleanAmount | main.py:51 | the string given to `float` is the value without `$` and then without `,`, so by `Without` no `$` or `,` is left and every other character is kept |
| Fabricator.Fabricate | main.py:38-61 | raises exactly when `Faker(locale)` raises; otherwise returns the result of the guarded body |
| Fabricator.DateBranch | main.py:40-49 | returns the original when parsing or generation fails; otherwise a generated ISO date that classifies as 'date' again and is the same for every input that parses |
| Fabricator.CurrencyBranch | main.py:50-53 | returns the original when `float` or a number draw fails; otherwise `$units.cents`, which classifies as 'currency' again |
| Fabricator.TelephoneBranch | main.py:54-55 | the input when generation fails; otherwise exactly the number `phone_number()` returned, the same for every input |
| Fabricator.UnknownBranch | main.py:56-61 | the original value when `pystr` raises; otherwise exactly the string `pystr` returned, the same for every input of the same length |
| Fabricator.UnknownKeepsLength | main.py:56-58 | any other tag yields a value of the input's length |
| Fabricator.FallbackOrGenerated | main.py:26-61 | for each tag, the answer is the original value or what that tag's own generator call produced |
| Fabricator.BrokenGeneratorKeepsData | main.py:59-61 | when every call fails, every value comes back unchanged |
| Paths.OutputPath | main.py:100 | a non-empty `-o` argument wins; `None` or the empty string selects the default name |
| Paths.DefaultUnchanged | main.py:100 | the default name equals the input name exactly when the input contains no `.csv` |
| Paths.SplitAtCsv | main.py:100 | any `.csv` becomes `_masked.csv`, and the text before and after it is rewritten on its own |
| Paths.DefaultAppendCsv | main.py:100 | a trailing `.csv` becomes `_masked.csv`, and the rest of the name is rewritten on its own |
| Paths.SimpleExample | main.py:100 | `a.csv` becomes `a_masked.csv` |
| Paths.DefaultInnerCsv | main.py:100 | for names free of `.csv`, `x.csv.y` becomes `x_masked.csv.y` and `x.csv.csv` becomes `x_masked.csv_masked.csv` |
| Pipeline.ColumnIndex | main.py:113-117 | the first position of the column name in the header, and none exactly when the name is absent |
| Pipeline.MaskRow | main.py:119-131 | same length; every other cell identical; short rows and raising fabricators leave the row unchanged; otherwise the cell becomes the fabricated value for the original, unstripped cell and its tag |
| Pipeline.ExitCode | main.py:116-139 | exit status 0 exactly for a completed run, and 1 for a missing column (`sys.exit(1)` at line 117) or a missing header (the general handler, lines 137-139) |
| Pipeline.MaskTable | main.py:110-131 | empty input writes nothing; a missing column writes only the header; otherwise the written table is `MaskedTable` of the input |
| Pipeline.MaskedTable | main.py:119-131 | the header first and unchanged, then one masked row per data row, in order |
| Pipeline.MaskedTableShape | main.py:119-128 | same number of rows; each row as long as before; every cell outside the column identical; short rows untouched |
| Pipeline.NoFakerKeepsTable | main.py:129-131 | when `Faker(locale)` raises for every row, the output equals the input |

## Left out

- Argument parsing, opening and closing files, CSV quoting, logging and
  `sys.exit` are not modelled (main.py:9-24, 95-108, 132-139). Rows arrive
  already split into cells. A fatal error is the `Status` of `MaskTable`.
- A missing input file and other I/O errors are not modelled
  (main.py:134-139).
- `Faker`, `date_time_this_decade`, `random_number`, `phone_number`,
  `pystr` and `dateutil.parser.parse` are foreign and random. What
  `Faker(locale)` yields is the `faker` argument of `Fabricate` (the
  `fakers` argument, one per row, of `MaskTable`). Each of the other calls
  is an oracle field of `Generator`. `Raised` stands for a call raising.
- `float(...)` is floating point. Its result is discarded, so the model
  keeps only whether it succeeds (`parsesAsFloat`).
- Unicode semantics of `\d`, `\s` and `str.strip()` are not modelled. The
  model accepts only ASCII digits and ASCII whitespace (code points 9-13
  and 28-32).
- The `isinstance(data, str)` test is not modelled (main.py:73, 75). The
  CSV reader only yields strings, so the non-string branch cannot be
  reached from `main`.
- `permute_data_format` is tried only with the four detector tags. Any
  other `data_type` string takes the same `else` branch as 'unknown'.
- Fabricator.UnknownKeepsLength: assumes that `pystr(min_chars=n,
  max_chars=n)` returns n characters when it returns (`HonoursLength`).
  This is Faker's promise, not something proved.
- Fabricator.TelephoneBranch: makes no claim that the generated number
  classifies as 'telephone', because Faker's phone formats are locale
  data.
- Fabricator.FormatIso: years are limited to four digits, as in any year
  of the current decade.
