# sra_dowloader mapping builder, in Dafny

This project models the input-file interpretation of `download_sra.py`:
`parse_input_file`, which turns an INI file into the settings for the two
external tools and an ordered dictionary from run name to SRA accession, and
the guard in the `__main__` block that requires exactly one of `-dw` and
`-rename`.

The model starts from an already-parsed file (`InputFile.IniFile`). It holds
an optional string for each `[Config]` option, and the `[SRR_code]` (name,
value) pairs in file order, or `None` when that section is absent. The
built-in `PREFIX`, `PREFETCH`, `FQDUMP` and `MAX_DW_SIZE` are a parameter
(`InputFile.Defaults`), because the file never defines them. Each `sys.exit()`
becomes an error value (`InputFile.ParseError`, `Cli.RunError`). The
`ValueError` that `int()` raises on a token that is not a number becomes one
too.

Modules, one per concern:

- `Results`: `Option` and the failure-compatible `Result`.
- `Text`: `str.split` on one character, `join`, and the whitespace stripping `int()` performs.
- `Decimal`: `str()` of an `int`, and the part of `int()` the range syntax
  uses: surrounding ASCII whitespace (space, `\t`, `\n`, `\v`, `\f`, `\r`),
  an optional `+`/`-`, and ASCII digits. `Decimal.ParseInt` itself has no
  contract; the `ParseInt*` lemmas, `SeparatorRejected` and
  `IntToDecimalRoundTrip` state what it does.
- `OrderedMaps`: Python's insertion-ordered `dict`. `d[k] = v` overwrites an
  existing key where it stands and appends a new key at the end.
- `InputFile`: the data model and `ParseInputFile` (`parse_input_file`).
- `MappingProperties`: what the builder promises. This covers the settings,
  the two error exits, the verbatim and range-expanded mappings, and the
  uniqueness of generated run names.
- `Cli`: mode selection and the main flow up to the chosen operation.

Three behaviours of the code that are easy to miss, all modelled as written:

- A value in non-range mode is glued to the prefix verbatim. It is not
  checked to be a number.
- Range endpoints may be negative. `str()` then writes a `-`, so an
  accession is not always "prefix plus a non-negative integer".
- A range token that is not an integer stops the program through an uncaught
  `ValueError`, not through the "two integer numbers" message. That error is
  raised while the tokens are converted, so it takes precedence over the
  count check (`NotAnInteger` before `WrongRangeArity`).

## Model

| member | source | states |
|---|---|---|
| InputFile.ParseInputFile | download_sra.py:16-100 | the result is the missing-section error exactly when `[SRR_code]` is absent or empty; outside range mode, no other error is possible |
| MappingProperties.SettingsFollowConfig | download_sra.py:46-65 | `prefetch_exe`, `fqdump_exe` and `max_dw_size` are the configured `[Config]` value when present and the default otherwise |
| MappingProperties.RangesOnlyForExactTrue | download_sra.py:32-38 | any `ranges` value other than the exact text "True" gives the same result as an absent option, and can only fail for a missing section |
| MappingProperties.LowercaseTrueIsVerbatim | download_sra.py:35-38 | with `ranges = true` the entry `sample = 5,7` is copied verbatim as `sample -> SRR5,7` |
| MappingProperties.VerbatimMode | download_sra.py:91-93 | without range mode, any non-empty section succeeds; with distinct names the mapping has one entry per name, in file order, with value prefix plus the value as written |
| MappingProperties.PrefixOnlyInValues | download_sra.py:40-44 | changing the prefix changes neither success, nor the three other settings, nor the run names and their order |
| MappingProperties.ValuesCarryPrefix | download_sra.py:90-93 | every accession in a successful mapping starts with the resolved prefix |
| InputFile.ParseInts | download_sra.py:80 | the conversion fails exactly when some token is not an integer, and then reports the first such token; otherwise it yields one integer per token, in order |
| InputFile.ParseRange | download_sra.py:80-86 | a range error always names the `[SRR_code]` key it was found in |
| InputFile.ParseRangeSpec | download_sra.py:80-88 | a value is accepted exactly when it splits at commas into exactly two integers, and then denotes them; a bad token is reported before the count, otherwise the count found is reported |
| MappingProperties.ParseRangeRoundTrip | download_sra.py:80-88 | `str(start) + "," + str(end)` parses back to `(start, end)` for all integers (Python itself refuses numbers over 4300 digits; see Left out) |
| MappingProperties.ThreeNumbersExample | download_sra.py:81-86 | the value `5,6,7` fails with the arity error reporting 3 numbers for its key |
| InputFile.ExpandRange | download_sra.py:88-90 | a range yields `max(0, end - start + 1)` entries; entry `i` is `name_i -> prefix + str(start + i)`, in ascending `i` |
| InputFile.RangeKey | download_sra.py:90 | the key `name_i` is the run name, an underscore, then decimal digits that denote the index `i`, without a leading zero |
| InputFile.VerbatimAssignments | download_sra.py:91-93 | without range mode, one assignment per entry, in file order: the name, and the prefix glued to the value as written |
| InputFile.RangeAssignments | download_sra.py:77-90 | range mode succeeds exactly when every value is a valid range; otherwise it fails with the error of the first invalid one |
| MappingProperties.RangeAssignmentsAppend | download_sra.py:78-90 | expanding consecutive blocks of entries concatenates their expansions in order, and succeeds exactly when both blocks do |
| MappingProperties.RangeAssignmentsSingle | download_sra.py:80-90 | a single entry contributes the expansion of its range, or fails with its value's error |
| MappingProperties.RangeModeFailsWhole | download_sra.py:81-86 | in range mode, the first malformed value fails the whole call with that entry's error; no partial mapping is returned |
| MappingProperties.RangeModeMapping | download_sra.py:77-95 | in range mode with valid values and distinct names, `sra_dict` is exactly the concatenated expansions, and no key repeats |
| MappingProperties.RangeKeyInjective | download_sra.py:90 | `name_i` keys are equal exactly when both the names and the indices are equal |
| MappingProperties.RangeKeysDistinct | download_sra.py:78-90 | with distinct section names, range mode never assigns the same key twice |
| MappingProperties.RangeAssignmentStems | download_sra.py:90 | every generated key, cut at its last `_`, is the name of a `[SRR_code]` entry |
| MappingProperties.RangeKeysIgnorePrefix | download_sra.py:88-90 | the keys range mode generates do not depend on the prefix |
| MappingProperties.SampleRangeExample | download_sra.py:32-100 | `ranges = True`, `sample = 5,7` and prefix `SRR` give `sample_0 -> SRR5`, `sample_1 -> SRR6`, `sample_2 -> SRR7` |
| OrderedMaps.Put | download_sra.py:90 | after `d[k] = v` the key holds `v`, and a new key is appended at the end |
| OrderedMaps.PutOther | download_sra.py:90 | `d[k] = v` leaves every other key's value unchanged |
| OrderedMaps.PutKeys | download_sra.py:90 | `d[k] = v` keeps the key order when `k` is present, and appends `k` otherwise |
| OrderedMaps.PutDistinct | download_sra.py:93 | assignment never makes a key occur twice |
| OrderedMaps.AssignGet | download_sra.py:76-93 | looking up a key in the built dict gives the value of the last assignment to it |
| OrderedMaps.AssignWellFormed | download_sra.py:76-93 | the built dict has distinct keys and holds only assigned pairs |
| OrderedMaps.AssignDistinct | download_sra.py:76-93 | when no key is assigned twice, the dict is exactly the assignments, in order |
| OrderedMaps.AssignKeysIgnoreValues | download_sra.py:76-93 | the keys of the built dict, and their order, depend only on the keys assigned |
| Text.Split | download_sra.py:80 | `split(",")` yields at least one piece, and no piece contains a comma |
| Text.JoinSplit | download_sra.py:80 | joining the pieces of a split with the separator gives back the value |
| Text.SplitJoin | download_sra.py:80 | splitting a join of comma-free pieces gives back the pieces |
| Decimal.NatToDecimal | download_sra.py:90 | `str(i)` of a non-negative index is a non-empty run of digits without a leading zero |
| Decimal.IntToDecimal | download_sra.py:90 | `str(v)` starts with `-` exactly for negative `v`; the rest, or for non-negative `v` the whole text, is a non-empty run of digits without a leading zero |
| Decimal.NatToDecimalValue | download_sra.py:90 | the digits of `str(n)` denote `n` |
| Decimal.NatToDecimalInjective | download_sra.py:90 | distinct indices have distinct decimal texts |
| Decimal.ParseIntDigits | download_sra.py:80 | `int` of a digit string is its value; `int` of an empty or blank token, or of a lone sign, fails |
| Decimal.ParseIntSigned | download_sra.py:80 | `int("-" + d)` is minus the value of the digits `d`, and `int("+" + d)` is their value |
| Decimal.ParseIntPadded | download_sra.py:80 | whitespace runs before and after a token do not change what `int` makes of it |
| Decimal.ParseIntRejects | download_sra.py:80 | a character that is neither a digit nor a leading sign, anywhere in the stripped token, makes `int` fail |
| Decimal.SeparatorRejected | download_sra.py:80 | `int("\x1c7")` fails: the separator U+001C is not whitespace to `int`, although `str.isspace` accepts it |
| Decimal.IntToDecimalRoundTrip | download_sra.py:80-90 | `int(str(v)) == v` for every integer (Python itself refuses numbers over 4300 digits; see Left out) |
| Cli.SelectMode | download_sra.py:134-140 | a mode is selected exactly when one of `-rename` and `-dw` is set; `-dw` selects download |
| Cli.Run | download_sra.py:132-147 | neither or both flags stop the program before the input file is looked at; otherwise the run succeeds exactly when the file is interpreted, with the flag's mode |

## Left out

- Reading the INI file is not modelled: `configparser`'s option-name lowercasing, `DEFAULT`-section inheritance, interpolation, duplicate-option errors, and merging several `-inp` files. The model starts from parsed sections. Because `configparser` rejects duplicate options, the lemmas about exact mapping shapes assume distinct `[SRR_code]` names. Without that, `OrderedMaps.AssignGet` gives the dict's last-write-wins behaviour.
- `Decimal.ParseInt` covers the six ASCII whitespace characters `int()` skips (space, `\t`, `\n`, `\v`, `\f`, `\r`), one sign and ASCII digits. It leaves out the underscores between digits and the non-ASCII digits and spaces that Python's `int()` also accepts; a token with any of those is rejected by the model. It also leaves out the limit CPython sets on conversions between `int` and `str` (4300 digits by default since 3.11 and in the 3.7-3.10 security releases): the model converts a token of any length, where Python raises `ValueError`, and `IntToDecimal` writes any integer, where `str()` raises for one over the limit.
- `Decimal.IntToDecimalRoundTrip` and `MappingProperties.ParseRangeRoundTrip` hold for integers of any size in the model; in Python they hold only for numbers within that 4300-digit limit.
- Logging, `pformat` and the verbose dump (lines 37, 73, 85, 97-98) are side effects only. The error messages become the fields of `ParseError`: the key, the bad token, or the count found.
- `InputFile.ParseRange`: the key carried by `NotAnInteger(key, token)`, and the "names the key" clause for that error, are the model's own addition. The `ValueError` raised by `int()` at line 80 reports only the token; only the arity message at lines 82-83 names the key.
- `sys.exit()` ends the process. It is modelled as an error result, and nothing after it runs. An `Err` means "the program stopped", not a failing exit status: `sys.exit()` without an argument (lines 74, 86, 136, 140) exits with status 0, like a success, while the uncaught `ValueError` of `NotAnInteger` exits with status 1.
- `parse_arguments` (argparse, lines 103-129) is not modelled beyond the two mode flags.
- `do_download_sra` and `do_rename_sra` are not part of this model: they compose shell commands, submit batch jobs through `subprocess`, and rename files. `Cli.Run` stops at the selected mode and the built settings.
- The `Range` named tuple is not defined in `download_sra.py`; it is modelled as the pair `(start, end)` it is built from.
- The `PREFIX`, `PREFETCH`, `FQDUMP` and `MAX_DW_SIZE` constants are not defined in `download_sra.py`; they are the `Defaults` parameter. The example lemmas use the values `SRR`, `prefetch`, `fastq-dump` and `60Gb`, chosen for illustration.
