# Passport MRZ parser, modelled in Dafny

This project models `parseMRZ` from `utils/mrzParser.ts`, together with its nested helper `convertMRZDate`. The parser takes raw OCR text and returns the nine fields of a two-line passport Machine-Readable Zone (the TD3 layout of ICAO Doc 9303 Part 4). The fields are:

- document code
- issuing country
- surname
- given names
- document number
- nationality
- date of birth
- sex
- date of expiry

When no usable pair of MRZ lines is found, the parser fails with one of two errors.

The model is pure, as the source is: datatypes, functions and lemmas.

- `js_string.dfy` (module `JsString`) defines the ECMAScript string built-ins the parser relies on, with their edge cases written out:
  - `indexOf`/`includes`
  - `split` with a non-empty separator
  - `trim` over the ECMAScript white-space and line-terminator set
  - `substring`, which clamps its bounds and swaps them when reversed
  - `replace(/</g, …)`
  - `filter(Boolean)`
  - `padStart`
  - `String(n)`
  - `parseInt` on decimal digits
- `mrz_parser.dfy` (module `MrzParser`) defines:
  - `MRZData`, the nine-field interface of `utils/mrzParser.ts:3-13`
  - the two thrown errors (`utils/mrzParser.ts:21` and `:25`) as `Failure(TooFewLines)` and `Failure(NoMrzPair)` of a `Result`
  - `ConvertMRZDate`
  - the line scan `ScanLines`
  - the pair search `FindMrzIndex`
  - the fixed-offset field extraction `FieldsOf`
  - `ParseLines`, and `ParseMRZ = ParseLines ∘ ScanLines`
- `mrz_properties.dfy` (module `MrzProperties`) states and proves what the parser guarantees:
  - when each error happens
  - which lines are read
  - the bounds and shape of every field
  - the layout and round trip of the date conversion
- `mrz_examples.dfy` (module `MrzExamples`) works through two sample passports of Utopia that share their data line up to the sex character: the TD3 specimen of ICAO Doc 9303 Part 4 ("ANNA MARIA ERIKSSON", two given names) and "JOHN RESIDENT" (one given name). It also covers a few specific dates.

Where the code and its comment differ, the model follows the code:

- **Line selection.** The doc comment says the last two non-empty lines are used. The code actually takes the first line that contains `"<<"` and the line right after it (`utils/mrzParser.ts:23-30`). `ParseMRZIgnoresTrailingLines` and `WorkedExampleWithTrailingLine` show the consequence: text after the pair is ignored.
- **Redundant test.** The `"<<<"` test in that search is redundant (`IsMrzLineIff`).
- **Century.** The year is always `2000 + YY`. The shift into the 1900s is commented out in the source.
- **Calendar check.** The `isNaN(new Date(…))` test never fails for these integer arguments. It therefore has no counterpart, so `31/02/2074` is produced for `740231` (`ThirtyFirstOfFebruary`).

## Model

| member | source | states |
|---|---|---|
| MrzParser.ParseMRZ | utils/mrzParser.ts:18-79 | `parseMRZ`: the line scan, then the pair search and field extraction; its contract is stated by `ParseMRZTooFewLinesIff`, `ParseMRZNoPairIff`, `ParseMRZSelectsFirstPair` and `ParseMRZIgnoresTrailingLines`, and worked through in `WorkedExample` |
| MrzParser.ParseLines | utils/mrzParser.ts:21-30 | the two error checks and the choice of `lines[mrzIndex]` and `lines[mrzIndex + 1]`; stated by `ParseMRZTooFewLinesIff`, `ParseMRZNoPairIff`, `ParseMRZSelectsFirstPair` and `ParseLinesIgnoresTrailingLines` |
| MrzParser.ScanLines | utils/mrzParser.ts:20 | `split("\n").map(trim).filter(Boolean)`; stated by `ScanLinesShape`, `ScanSingleLine` and `ScanLinesConcat` |
| MrzParser.IsMrzLine | utils/mrzParser.ts:23 | the `findIndex` test; `IsMrzLineIff` shows it is "contains <<" |
| MrzParser.FieldsOf | utils/mrzParser.ts:32-44 | the nine fields at their fixed offsets, dates converted as at lines 65-66; stated by `FieldsOfSlices`, `FieldsOfDocumentNumber`, `FieldsOfNames`, `FieldsOfDates` and `FieldsOfLayout` |
| MrzParser.NormalizeName | utils/mrzParser.ts:36-37 | `replace(/</g, " ").trim()`; stated by `NormalizeNameSpec`, `NormalizeNameOfClean` and `NormalizeNameOfWords` |
| MrzParser.ConvertMRZDate | utils/mrzParser.ts:47-63 | `convertMRZDate`; stated by `ConvertMRZDateEmptyIff`, `ConvertMRZDateLayout`, `ConvertMRZDateShape`, `ConvertMRZDateRoundTrip` and `DisplayDateRoundTrip` |
| MrzParser.IsSixDigits | utils/mrzParser.ts:48 | the test `/^\d{6}$/`: exactly six ASCII digits; used by `ConvertMRZDateEmptyIff` |
| JsString.Includes | utils/mrzParser.ts:23 | `includes`, as a non-negative `indexOf`; stated by `IndexOf` and `IncludesChar` |
| JsString.Split | utils/mrzParser.ts:20 | `split` with a non-empty separator, never an empty list; stated by `SplitJoin`, `SplitPiecesAvoidSep`, `SplitFirstPieces` and `SplitCharConcat` |
| JsString.TrimStart | utils/mrzParser.ts:20 | leading white space removed; stated by `TrimStartSpec` |
| JsString.TrimEnd | utils/mrzParser.ts:20 | trailing white space removed; stated by `TrimEndSpec` |
| JsString.Trim | utils/mrzParser.ts:20 | `trim`; stated by `TrimIsSlice`, `TrimTrimmed` and `TrimOfTrimmed` |
| JsString.TrimEach | utils/mrzParser.ts:20 | `map(l => l.trim())`, of the same length as its input; stated by `TrimEachConcat` |
| JsString.ReplaceChar | utils/mrzParser.ts:36-37 | `replace(/</g, " ")`; stated by `ReplaceCharSpec` |
| JsString.RemoveChar | utils/mrzParser.ts:40 | `replace(/</g, "")`; stated by `RemoveCharSpec` |
| JsString.NatToString | utils/mrzParser.ts:62 | `String(n)`; stated by `NatToStringSpec`, `ParseNatToString` and `NatToStringParse` |
| JsString.ParseDecimal | utils/mrzParser.ts:50-52 | `parseInt(s, 10)` on non-empty strings of digits (it gives 0 on "", where `parseInt` gives NaN; the parser never passes ""); stated by `ParseNatToString` and `NatToStringParse` |
| JsString.PadStart | utils/mrzParser.ts:62 | `padStart`; stated by `PadStartSpec` and `PadStartTwoDigits` |
| JsString.IndexOf | utils/mrzParser.ts:23 | the result is -1 exactly when the pattern occurs nowhere; otherwise the pattern occurs there and at no earlier position |
| JsString.IndexOfExtend | utils/mrzParser.ts:23 | appending text does not move the first occurrence of a pattern that already occurs |
| JsString.IncludesChar | utils/mrzParser.ts:23 | a one-character string is included exactly when that character is present |
| JsString.SplitJoin | utils/mrzParser.ts:20 | joining the pieces of `split` with the separator gives back the original text |
| JsString.SplitPiecesAvoidSep | utils/mrzParser.ts:35 | no piece of `split` contains the separator |
| JsString.IndexOfDoubled | utils/mrzParser.ts:35 | in `a + [c, c] + b`, where `a` holds no `[c, c]` and does not end with `c`, the first `[c, c]` starts right after `a`: the first "<<" follows the surname |
| JsString.SplitFirstPieces | utils/mrzParser.ts:35 | the first piece is the text before the first separator (all of it when there is none); the second piece is the text between the first and second separators |
| JsString.SplitCharConcat | utils/mrzParser.ts:20 | splitting `a + c + b` on the one-character separator `c` gives the pieces of `a` followed by the pieces of `b` |
| JsString.TrimStartSpec | utils/mrzParser.ts:20 | removing leading white space gives the longest suffix that does not start with white space, and everything removed is white space |
| JsString.TrimEndSpec | utils/mrzParser.ts:20 | removing trailing white space gives the longest prefix that does not end with white space, and everything removed is white space |
| JsString.TrimIsSlice | utils/mrzParser.ts:20 | the result is a contiguous slice of the input, and everything removed is white space |
| JsString.TrimTrimmed | utils/mrzParser.ts:36 | the result of `trim` has no white space or line terminator at either end; `trim` leaves trimmed text alone and is idempotent |
| JsString.TrimOfTrimmed | utils/mrzParser.ts:36 | text with no white space at either end is unchanged by `trim` |
| JsString.TrimEachConcat | utils/mrzParser.ts:20 | trimming every line of two concatenated lists of lines is the concatenation of the two trimmed lists |
| JsString.Substring | utils/mrzParser.ts:33-34 | for 0 <= start <= end, `substring(start, end)` is the slice between the two bounds clamped to the length; the result is never longer than the input |
| JsString.SubstringFrom | utils/mrzParser.ts:35 | `substring(start)` is the suffix from the clamped start |
| JsString.ReplaceCharSpec | utils/mrzParser.ts:36-37 | replacing every filler by a space keeps the length and every other character in its position, and leaves no filler |
| JsString.RemoveCharSpec | utils/mrzParser.ts:40 | after deleting every filler, none remains; the result is a subsequence of the input, shorter by the number of fillers |
| JsString.DropEmpty | utils/mrzParser.ts:20 | `filter(Boolean)` is no longer than its input, every kept string is non-empty and comes from the input, and every non-empty input string is kept; order and multiplicity are stated by `DropEmptySpec` |
| JsString.DropEmptySpec | utils/mrzParser.ts:20 | `filter(Boolean)` keeps the input's order (the result is a subsequence of the input) and drops exactly the empty strings (its multiset is the input's with the empty string removed) |
| JsString.DropEmptySingle | utils/mrzParser.ts:20 | on a one-element list, `filter(Boolean)` gives `[]` for the empty string and the list itself otherwise |
| JsString.DropEmptyConcat | utils/mrzParser.ts:20 | `filter(Boolean)` of a concatenation is the concatenation of the two filtered lists |
| JsString.NatToStringSpec | utils/mrzParser.ts:62 | `String(n)` is a non-empty string of digits that starts with 0 only when n is 0 |
| JsString.ParseNatToString | utils/mrzParser.ts:62 | `String(n)` is all digits and `parseInt(String(n))` is `n` |
| JsString.NatToStringParse | utils/mrzParser.ts:50-52 | `String(parseInt(s))` is `s` for digit strings without a leading zero |
| JsString.PadStartSpec | utils/mrzParser.ts:62 | `padStart` gives the longer of the target and input lengths; the input is a suffix of the result and everything before it is the pad character |
| JsString.PadStartTwoDigits | utils/mrzParser.ts:62 | every two-digit string, "00" included, printed as a number and padded to two characters gives back its two digits |
| MrzParser.FindMrzIndex | utils/mrzParser.ts:23 | the result is the first index of a line containing "<<<" or "<<", or -1 when no line does |
| MrzProperties.ConvertMRZDateEmptyIff | utils/mrzParser.ts:48-54 | the date conversion returns "" exactly when its input is not six ASCII digits with month 1..12 and day 1..31; otherwise it returns a non-empty value |
| MrzProperties.ConvertMRZDateLayout | utils/mrzParser.ts:50-62 | an accepted `YYMMDD` becomes `DD/MM/20YY` spelled with the input's own digits, with zero-padded day and month |
| MrzProperties.ConvertMRZDateShape | utils/mrzParser.ts:56-62 | every non-empty result is a `DD/MM/YYYY` date whose year is 2000 + YY, so it lies in 2000..2099 |
| MrzProperties.ConvertMRZDateRoundTrip | utils/mrzParser.ts:50-62 | YY, then MM, then DD read back from the output's digits recover the input |
| MrzProperties.DisplayDateRoundTrip | utils/mrzParser.ts:47-63 | every `DD/MM/20YY` date with day 1..31 and month 1..12 is the conversion of exactly the `YYMMDD` it spells |
| MrzProperties.ScanLinesShape | utils/mrzParser.ts:20 | every scanned line is non-empty, trimmed and free of line feeds |
| MrzProperties.ScanLinesConcat | utils/mrzParser.ts:20 | the lines of two texts joined by a line feed are the lines of the first followed by the lines of the second |
| MrzProperties.ScanSingleLine | utils/mrzParser.ts:20 | text without a line feed scans to its trimmed self, or to no line when it is all white space; with `ScanLinesConcat` this fixes the line scan of every text |
| MrzProperties.NoNewlineTooFewLines | utils/mrzParser.ts:20-21 | text without a line feed fails with the "less than 2 lines" error |
| MrzProperties.ParseMRZTooFewLinesIff | utils/mrzParser.ts:20-21 | parsing fails with the "less than 2 lines" error exactly when fewer than two non-empty lines remain |
| MrzProperties.IsMrzLineIff | utils/mrzParser.ts:23 | the `findIndex` test accepts a line exactly when the line contains "<<" |
| MrzProperties.FindMrzIndexIsFirst | utils/mrzParser.ts:23 | `findIndex` returns the first line containing "<<", or -1 exactly when no line contains it |
| MrzProperties.ParseMRZNoPairIff | utils/mrzParser.ts:23-26 | with at least two lines, parsing fails with the "two consecutive MRZ lines" error exactly when no line contains "<<" or the first such line is the last line |
| MrzProperties.ParseMRZSelectsFirstPair | utils/mrzParser.ts:23-30 | parsing succeeds exactly when the first line containing "<<" has a successor; the record then comes from that line and the next one only |
| MrzProperties.ParseLinesIgnoresTrailingLines | utils/mrzParser.ts:23-30 | appending lines after a usable pair does not change the result |
| MrzProperties.ParseMRZIgnoresTrailingLines | utils/mrzParser.ts:16-30 | appending text after a usable pair does not change the result, although the comment speaks of the last two lines |
| MrzProperties.FieldsOfSlices | utils/mrzParser.ts:33-44 | document code, country, nationality and sex are the fixed slices clamped to their line, of length at most 1, 3, 3 and 1; the dates convert the clamped slices 13..19 and 21..27; nothing fails on short lines |
| MrzProperties.FieldsOfDocumentNumber | utils/mrzParser.ts:40 | the document number has no filler, is a subsequence of the first nine characters of line 2, and is shorter than them by their filler count, so at most nine characters long |
| MrzProperties.NormalizeNameSpec | utils/mrzParser.ts:36-37 | a normalised name has no filler and no white space at either end |
| MrzProperties.NormalizeNameOfClean | utils/mrzParser.ts:36-37 | normalisation leaves a name without fillers or edge white space unchanged |
| MrzProperties.NameFieldsOf | utils/mrzParser.ts:35-37 | the surname comes from the text before the first "<<" of the name part (or all of it); the given names come only from the text between the first and second "<<", and are "" when there is no "<<" |
| MrzProperties.FieldsOfNames | utils/mrzParser.ts:35-37 | the same statement for the record's surname and given names, read from line 1 from offset 5 on |
| MrzProperties.NormalizeNameOfWords | utils/mrzParser.ts:36-37 | a name of words joined by fillers, with no white space and no filler at either end, is normalised to the same words joined by spaces (`ANNA<MARIA` to `ANNA MARIA`), of the same length and with no filler |
| MrzProperties.NamePiecesOfLayout | utils/mrzParser.ts:35 | a name part laid out as surname, "<<", given names, "<<", anything else, where neither name holds "<<" or ends with a filler, splits at "<<" into the surname and the given names first |
| MrzProperties.SplitAfterName | utils/mrzParser.ts:35 | splitting at "<<" a name without "<<" or a trailing filler, followed by "<<", cuts right after the name |
| MrzProperties.FieldsOfDates | utils/mrzParser.ts:65-66 | each date field is either "" or a `DD/MM/20YY` date |
| MrzProperties.FieldsOfLayout | utils/mrzParser.ts:32-78 | for a well-formed pair of lines, multi-word names included, the record is exactly the fields at their standard offsets, with both names normalised and the dates rearranged to `DD/MM/20YY` |
| MrzExamples.SpecimenNames | utils/mrzParser.ts:36-37 | the specimen's surname `ERIKSSON` is kept and its given names `ANNA<MARIA` become `ANNA MARIA` |
| MrzExamples.FieldsOfSample | utils/mrzParser.ts:32-44 | any pair of lines with the sample data-line slices and a name part `surname<<givenNames<<fill` gives the sample record with both names normalised |
| MrzExamples.ResidentNames | utils/mrzParser.ts:36-37 | `RESIDENT` and `JOHN` are kept as they are |
| MrzExamples.ResidentFields | utils/mrzParser.ts:32-66 | `FieldsOf` on `P<UTORESIDENT<<JOHN<<…` and `L898902C36UTO7408122M1204159ZE184226B<<<<<10` is the RESIDENT record |
| MrzExamples.ResidentWorkedExample | utils/mrzParser.ts:18-79 | those two lines give P, UTO, RESIDENT, JOHN, L898902C3, UTO, 12/08/2074, M, 15/04/2012 |
| MrzExamples.WorkedExample | utils/mrzParser.ts:18-79 | the ICAO specimen gives P, UTO, ERIKSSON, ANNA MARIA, L898902C3, UTO, 12/08/2074, F, 15/04/2012 |
| MrzExamples.ExampleFields | utils/mrzParser.ts:32-78 | the specimen's two lines give that record |
| MrzExamples.WorkedExampleWithTrailingLine | utils/mrzParser.ts:23-30 | the specimen followed by a stray line containing "<<" still gives that record |
| MrzExamples.ThirtyFirstOfFebruary | utils/mrzParser.ts:54-62 | `740231` becomes `31/02/2074`: the day is not checked against the month |
| MrzExamples.OutOfRangeDates | utils/mrzParser.ts:48-54 | month 13, day 00 and a five-digit input each give "" |
| MrzExamples.SingleLineFails | utils/mrzParser.ts:20-21 | a single specimen line fails with the "less than 2 lines" error |

## Left out

- Strings are sequences of Unicode scalar values, but ECMAScript strings are UTF-16 code units. Offsets and lengths therefore differ on text containing characters outside the Basic Multilingual Plane.
- The `isNaN(new Date(…))` test (`utils/mrzParser.ts:59-60`) is not modelled. It never rejects the integer year, month and day it is given here.
- The 1900s century shift is commented out in the source and is not modelled.
- MRZ check digits, OCR error correction, and the second character of the document code are not modelled, because the parser does not read them.
- A thrown `Error` and its message become a `Failure` value carrying one of two constructors. The message text itself is not modelled.
- `components/scan-overlay.tsx` (camera capture, canvas cropping, React state) is not part of this model. It is browser I/O and UI.
- `utils/ocr.ts` and `pages/api/scan.ts` (the HTTP upload and the Document AI client call) are not part of this model. They are network plumbing around a foreign service.
- `components/used-gold-purcahse-form.tsx` and `app/page.tsx` are not part of this model. They render forms and pages and have no logic of their own.
- JsString.ParseDecimal: gives 0 on the empty string, where `parseInt` gives NaN. NaN is not modelled, because `convertMRZDate` only parses two-digit slices of a six-digit string.
