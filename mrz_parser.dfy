/**
 * The passport Machine-Readable Zone parser of utils/mrzParser.ts: raw OCR
 * text in, the nine fixed-position fields of a two-line (TD3) MRZ out, or
 * one of two errors. Check digits are not read, and only the first
 * character of the document-code field is kept.
 */
module MrzParser {
  import opened JsString

  /** The parsed record. Dates are `DD/MM/YYYY`, or empty when the six
      characters at their position are not a plausible `YYMMDD`. */
  datatype MRZData = MRZData(
    documentType: string,
    countryCode: string,
    surname: string,
    givenNames: string,
    documentNumber: string,
    nationality: string,
    dateOfBirth: string,
    sex: string,
    dateOfExpiry: string)

  /** The two exceptions `parseMRZ` throws. */
  datatype ParseError =
    | TooFewLines  // "Invalid MRZ: less than 2 lines detected"
    | NoMrzPair    // "Invalid MRZ: could not find two consecutive MRZ lines"

  datatype Result<T> = Success(value: T) | Failure(error: ParseError)

  /** The filler character of the MRZ. */
  const Filler: char := '<'

  /** The regular expression `^\d{6}$`. */
  predicate IsSixDigits(s: string) {
    |s| == 6 && AllDigits(s)
  }

  /** `convertMRZDate`: `YYMMDD` to `DD/MM/YYYY` with the year always taken
      in the 2000s, or "" when the input is not six digits or the month or
      the day is out of range. The day is not checked against the month.
      The `isNaN(new Date(...))` test of the source never fails for these
      integer arguments and has no counterpart here. */
  function ConvertMRZDate(mrzDate: string): string {
    if !IsSixDigits(mrzDate) then ""
    else
      var yy := ParseDecimal(mrzDate[0..2]);
      var mm := ParseDecimal(mrzDate[2..4]);
      var dd := ParseDecimal(mrzDate[4..6]);
      if mm < 1 || mm > 12 || dd < 1 || dd > 31 then ""
      else
        var fullYear := 2000 + yy;
        PadStart(NatToString(dd), 2, '0') + "/" + PadStart(NatToString(mm), 2, '0')
          + "/" + NatToString(fullYear)
  }

  /** The test of `findIndex`: the line contains "<<<" or "<<". */
  predicate IsMrzLine(l: string) {
    Includes(l, "<<<") || Includes(l, "<<")
  }

  /** `lines.findIndex(IsMrzLine)`: the first qualifying index, or -1. */
  function FindMrzIndex(lines: seq<string>): (r: int)
    ensures -1 <= r < |lines|
    ensures r >= 0 ==> IsMrzLine(lines[r])
    ensures forall k :: 0 <= k < |lines| && (r == -1 || k < r) ==> !IsMrzLine(lines[k])
  {
    if lines == [] then -1
    else if IsMrzLine(lines[0]) then 0
    else
      var r := FindMrzIndex(lines[1..]);
      if r == -1 then -1 else r + 1
  }

  /** `ocrText.split("\n").map(l => l.trim()).filter(Boolean)`. */
  function ScanLines(ocrText: string): seq<string> {
    DropEmpty(TrimEach(Split(ocrText, "\n")))
  }

  /** Name normalisation: every filler becomes a space, then `trim`. */
  function NormalizeName(raw: string): string {
    Trim(ReplaceChar(raw, Filler, ' '))
  }

  /** The fixed-offset fields of the document line `line1` and the data line
      `line2`. Every slice is clamped to its line, so short lines give
      truncated or empty fields and nothing fails. */
  function FieldsOf(line1: string, line2: string): MRZData {
    var namesRaw := Split(SubstringFrom(line1, 5), "<<");
    MRZData(
      documentType := Substring(line1, 0, 1),
      countryCode := Substring(line1, 2, 5),
      surname := NormalizeName(namesRaw[0]),
      givenNames := if |namesRaw| > 1 then NormalizeName(namesRaw[1]) else "",
      documentNumber := RemoveChar(Substring(line2, 0, 9), Filler),
      nationality := Substring(line2, 10, 13),
      dateOfBirth := ConvertMRZDate(Substring(line2, 13, 19)),
      sex := Substring(line2, 20, 21),
      dateOfExpiry := ConvertMRZDate(Substring(line2, 21, 27)))
  }

  /** `parseMRZ` after the line scan: the MRZ pair is the first line that
      contains "<<" and the line right after it. */
  function ParseLines(lines: seq<string>): Result<MRZData> {
    if |lines| < 2 then Failure(TooFewLines)
    else
      var mrzIndex := FindMrzIndex(lines);
      if mrzIndex == -1 || mrzIndex + 1 >= |lines| then Failure(NoMrzPair)
      else Success(FieldsOf(lines[mrzIndex], lines[mrzIndex + 1]))
  }

  /** `parseMRZ`. */
  function ParseMRZ(ocrText: string): Result<MRZData> {
    ParseLines(ScanLines(ocrText))
  }
}
