/**
 * What `parseMRZ` and `convertMRZDate` guarantee: the two error cases and
 * when each happens, which pair of lines is used, the bounds and shape of
 * every field, and the exact layout and round trip of the date conversion.
 */
module MrzProperties {
  import opened JsString
  import opened MrzParser

  // ---------------------------------------------------------------------------
  // Date conversion

  /** The number written by two ASCII digits. */
  function TwoDigitValue(a: char, b: char): nat
    requires IsAsciiDigit(a) && IsAsciiDigit(b)
  {
    10 * DigitValue(a) + DigitValue(b)
  }

  /** A `YYMMDD` string the converter accepts: six ASCII digits, month in
      1..12, day in 1..31 (whatever the month). */
  predicate IsPlausibleMrzDate(s: string) {
    && IsSixDigits(s)
    && 1 <= TwoDigitValue(s[2], s[3]) <= 12
    && 1 <= TwoDigitValue(s[4], s[5]) <= 31
  }

  /** A `DD/MM/20YY` string with day in 1..31 and month in 1..12. */
  predicate IsDisplayDate(d: string) {
    && |d| == 10
    && d[2] == '/' && d[5] == '/' && d[6] == '2' && d[7] == '0'
    && IsAsciiDigit(d[0]) && IsAsciiDigit(d[1]) && IsAsciiDigit(d[3])
    && IsAsciiDigit(d[4]) && IsAsciiDigit(d[8]) && IsAsciiDigit(d[9])
    && 1 <= TwoDigitValue(d[0], d[1]) <= 31
    && 1 <= TwoDigitValue(d[3], d[4]) <= 12
  }

  /** The `YYMMDD` string a display date came from. */
  function MrzDateOfDisplay(d: string): string
    requires |d| == 10
  {
    d[8..10] + d[3..5] + d[0..2]
  }

  lemma {:induction false} ParseTwoDigits(s: string, lo: nat)
    requires lo + 2 <= |s| && IsAsciiDigit(s[lo]) && IsAsciiDigit(s[lo + 1])
    ensures AllDigits(s[lo..lo + 2])
    ensures ParseDecimal(s[lo..lo + 2]) == TwoDigitValue(s[lo], s[lo + 1])
  {
    var p := s[lo..lo + 2];
    assert p[..1] == [s[lo]] && p[1] == s[lo + 1];
    assert ParseDecimal(p[..1]) == 10 * ParseDecimal([]) + DigitValue(s[lo]) by {
      assert p[..1][..0] == [];
    }
    assert ParseDecimal(p) == 10 * ParseDecimal(p[..1]) + DigitValue(p[1]);
  }

  /** `String(2000 + yy)` is "20" followed by the two digits of `yy`. */
  lemma {:induction false} YearString(a: char, b: char)
    requires IsAsciiDigit(a) && IsAsciiDigit(b)
    ensures NatToString(2000 + TwoDigitValue(a, b)) == ['2', '0', a, b]
  {
    var n := 2000 + TwoDigitValue(a, b);
    assert n / 10 == 200 + DigitValue(a) && n % 10 == DigitValue(b);
    var m := 200 + DigitValue(a);
    assert m / 10 == 20 && m % 10 == DigitValue(a);
    assert NatToString(20) == ['2', '0'];
    assert NatToString(m) == ['2', '0', DigitChar(DigitValue(a))];
    assert DigitChar(DigitValue(a)) == a && DigitChar(DigitValue(b)) == b;
  }

  /** The converter answers "" exactly when the input is not a plausible
      `YYMMDD`; it never fails. */
  lemma {:induction false} ConvertMRZDateEmptyIff(s: string)
    ensures ConvertMRZDate(s) != "" <==> IsPlausibleMrzDate(s)
  {
    if IsSixDigits(s) {
      ParseTwoDigits(s, 2);
      ParseTwoDigits(s, 4);
    }
  }

  /** A plausible `YYMMDD` becomes `DD/MM/20YY` written with the same
      digits: zero-padded day and month, and the year 2000 + YY. */
  lemma {:induction false} ConvertMRZDateLayout(s: string)
    requires IsPlausibleMrzDate(s)
    ensures ConvertMRZDate(s) == [s[4], s[5], '/', s[2], s[3], '/', '2', '0', s[0], s[1]]
  {
    ConvertMRZDateParts(s);
    ParseTwoDigits(s, 0);
    ParseTwoDigits(s, 2);
    ParseTwoDigits(s, 4);
    PaddedTwoDigits(s[4], s[5]);
    PaddedTwoDigits(s[2], s[3]);
    YearString(s[0], s[1]);
    DisplayConcat(s[4], s[5], s[2], s[3], s[0], s[1]);
  }

  /** On a plausible date both range tests pass, so the conversion is the
      formatted day, month and year. */
  lemma {:induction false} ConvertMRZDateParts(s: string)
    requires IsPlausibleMrzDate(s)
    ensures AllDigits(s[0..2]) && AllDigits(s[2..4]) && AllDigits(s[4..6])
    ensures ConvertMRZDate(s)
         == PadStart(NatToString(ParseDecimal(s[4..6])), 2, '0') + "/"
          + PadStart(NatToString(ParseDecimal(s[2..4])), 2, '0') + "/"
          + NatToString(2000 + ParseDecimal(s[0..2]))
  {
    ParseTwoDigits(s, 2);
    ParseTwoDigits(s, 4);
    ParseTwoDigits(s, 0);
  }

  /** A two-digit day or month, printed and padded to two characters, gives
      back its digits. */
  lemma {:induction false} PaddedTwoDigits(a: char, b: char)
    requires IsAsciiDigit(a) && IsAsciiDigit(b)
    ensures PadStart(NatToString(TwoDigitValue(a, b)), 2, '0') == [a, b]
  {
    ParseTwoDigits([a, b], 0);
    assert [a, b][0..2] == [a, b];
    PadStartTwoDigits([a, b]);
  }

  lemma {:induction false} DisplayConcat(d0: char, d1: char, m0: char, m1: char, y0: char, y1: char)
    ensures [d0, d1] + "/" + [m0, m1] + "/" + ['2', '0', y0, y1]
         == [d0, d1, '/', m0, m1, '/', '2', '0', y0, y1]
  {
  }

  /** Every non-empty result is a display date whose year is 2000 + YY,
      hence in 2000..2099. */
  lemma {:induction false} ConvertMRZDateShape(s: string)
    ensures var r := ConvertMRZDate(s);
      r == "" || (IsDisplayDate(r) && 2000 <= 2000 + TwoDigitValue(r[8], r[9]) <= 2099
                  && TwoDigitValue(r[8], r[9]) == TwoDigitValue(s[0], s[1]))
  {
    ConvertMRZDateEmptyIff(s);
    if IsPlausibleMrzDate(s) {
      ConvertMRZDateRoundTrip(s);
      ConvertMRZDateLayout(s);
    }
  }

  /** Round trip: YY, MM and DD are read back from the output's digits. */
  lemma {:induction false} ConvertMRZDateRoundTrip(s: string)
    requires IsPlausibleMrzDate(s)
    ensures IsDisplayDate(ConvertMRZDate(s))
    ensures MrzDateOfDisplay(ConvertMRZDate(s)) == s
  {
    ConvertMRZDateLayout(s);
    SpelledDisplayDate(s);
  }

  /** The characters of a plausible `YYMMDD` rearranged as `DD/MM/20YY`
      form a display date that spells the same `YYMMDD`. */
  lemma {:induction false} SpelledDisplayDate(s: string)
    requires IsPlausibleMrzDate(s)
    ensures var r := [s[4], s[5], '/', s[2], s[3], '/', '2', '0', s[0], s[1]];
      IsDisplayDate(r) && MrzDateOfDisplay(r) == s
  {
    var r := [s[4], s[5], '/', s[2], s[3], '/', '2', '0', s[0], s[1]];
    assert MrzDateOfDisplay(r) == [s[0], s[1], s[2], s[3], s[4], s[5]];
  }

  /** The other direction: every display date is the conversion of the
      `YYMMDD` string it spells, so the conversion is a bijection between
      plausible MRZ dates and display dates. */
  lemma {:induction false} DisplayDateRoundTrip(d: string)
    requires IsDisplayDate(d)
    ensures IsPlausibleMrzDate(MrzDateOfDisplay(d))
    ensures ConvertMRZDate(MrzDateOfDisplay(d)) == d
  {
    DisplayDateSpells(d);
    ConvertMRZDateLayout(MrzDateOfDisplay(d));
  }

  /** The `YYMMDD` a display date spells is plausible, and rearranging it
      as `DD/MM/20YY` gives the display date back. */
  lemma {:induction false} DisplayDateSpells(d: string)
    requires IsDisplayDate(d)
    ensures var s := MrzDateOfDisplay(d);
      && IsPlausibleMrzDate(s)
      && [s[4], s[5], '/', s[2], s[3], '/', '2', '0', s[0], s[1]] == d
  {
    var s := MrzDateOfDisplay(d);
    assert s == [d[8], d[9], d[3], d[4], d[0], d[1]];
  }

  // ---------------------------------------------------------------------------
  // Line splitting and MRZ-pair selection

  /** Every scanned line is non-empty, trimmed and holds no line feed. */
  lemma {:induction false} ScanLinesShape(ocrText: string)
    ensures forall l <- ScanLines(ocrText) :: l != "" && IsTrimmed(l) && '\n' !in l
  {
    var parts := Split(ocrText, "\n");
    var trimmed := TrimEach(parts);
    SplitPiecesAvoidSep(ocrText, "\n");
    forall i | 0 <= i < |parts| ensures IsTrimmed(trimmed[i]) && '\n' !in trimmed[i] {
      IncludesChar(parts[i], '\n');
      TrimIsSlice(parts[i]);
      TrimTrimmed(parts[i]);
      assert parts[i] in parts;
    }
  }

  /** Text without a line feed is scanned as its trimmed self, or as no
      line at all when only white space remains. */
  lemma {:induction false} ScanSingleLine(l: string)
    requires '\n' !in l
    ensures ScanLines(l) == if Trim(l) == [] then [] else [Trim(l)]
  {
    IncludesChar(l, '\n');
    assert Split(l, "\n") == [l];
    assert TrimEach([l]) == [Trim(l)];
    DropEmptySingle(Trim(l));
  }

  /** Text without a line feed is one line, so it is too short. */
  lemma {:induction false} NoNewlineTooFewLines(ocrText: string)
    requires '\n' !in ocrText
    ensures ParseMRZ(ocrText) == Failure(TooFewLines)
  {
    IncludesChar(ocrText, '\n');
    assert Split(ocrText, "\n") == [ocrText];
  }

  /** The "<<<" test of `findIndex` adds nothing: a line qualifies exactly
      when it contains "<<". */
  lemma {:induction false} IsMrzLineIff(l: string)
    ensures IsMrzLine(l) <==> Includes(l, "<<")
  {
    if Includes(l, "<<<") {
      var k := IndexOf(l, "<<<");
      assert l[k..k + 3] == "<<<";
      assert l[k] == l[k..k + 3][0] == '<' && l[k + 1] == l[k..k + 3][1] == '<';
      assert l[k..k + 2] == "<<";
      assert OccursAt(l, "<<", k);
    }
  }

  /** `i` is the first line that contains "<<". */
  predicate IsFirstMrzLine(lines: seq<string>, i: int) {
    && 0 <= i < |lines|
    && Includes(lines[i], "<<")
    && forall k :: 0 <= k < i ==> !Includes(lines[k], "<<")
  }

  lemma {:induction false} FindMrzIndexIsFirst(lines: seq<string>)
    ensures FindMrzIndex(lines) == -1 <==> forall i :: !IsFirstMrzLine(lines, i)
    ensures FindMrzIndex(lines) >= 0 ==> IsFirstMrzLine(lines, FindMrzIndex(lines))
    ensures forall i :: IsFirstMrzLine(lines, i) ==> i == FindMrzIndex(lines)
  {
    forall l <- lines {
      IsMrzLineIff(l);
    }
    var r := FindMrzIndex(lines);
    if r != -1 {
      assert lines[r] in lines;
      assert forall k :: 0 <= k < r ==> lines[k] in lines;
      assert IsFirstMrzLine(lines, r);
    }
  }

  /** Fewer than two non-empty lines is the first error, and the only cause
      of it. */
  lemma {:induction false} ParseMRZTooFewLinesIff(ocrText: string)
    ensures ParseMRZ(ocrText) == Failure(TooFewLines) <==> |ScanLines(ocrText)| < 2
  {
  }

  /** With two or more lines, the second error happens exactly when no line
      contains "<<" or the first one that does is the last line. */
  lemma {:induction false} ParseMRZNoPairIff(ocrText: string)
    ensures var lines := ScanLines(ocrText);
      ParseMRZ(ocrText) == Failure(NoMrzPair) <==>
        (|lines| >= 2 && forall i :: IsFirstMrzLine(lines, i) ==> i == |lines| - 1)
  {
    FindMrzIndexIsFirst(ScanLines(ocrText));
  }

  /** On success the record is read from the first line that contains "<<"
      and the line right after it, and from no other line. */
  lemma {:induction false} ParseMRZSelectsFirstPair(ocrText: string)
    ensures var lines := ScanLines(ocrText);
      && (ParseMRZ(ocrText).Success? <==> exists i :: IsFirstMrzLine(lines, i) && i + 1 < |lines|)
      && forall i :: IsFirstMrzLine(lines, i) && i + 1 < |lines| ==>
           ParseMRZ(ocrText) == Success(FieldsOf(lines[i], lines[i + 1]))
  {
    var lines := ScanLines(ocrText);
    FindMrzIndexIsFirst(lines);
    var r := FindMrzIndex(lines);
    if ParseMRZ(ocrText).Success? {
      assert IsFirstMrzLine(lines, r) && r + 1 < |lines|;
    }
  }

  lemma {:induction false} FindMrzIndexConcat(a: seq<string>, b: seq<string>)
    requires FindMrzIndex(a) >= 0
    ensures FindMrzIndex(a + b) == FindMrzIndex(a)
  {
    if !IsMrzLine(a[0]) {
      FindMrzIndexConcat(a[1..], b);
      assert (a + b)[1..] == a[1..] + b;
    }
  }

  /** The lines of two texts joined by a line feed are the lines of the
      first followed by the lines of the second. */
  lemma {:induction false} ScanLinesConcat(a: string, b: string)
    ensures ScanLines(a + "\n" + b) == ScanLines(a) + ScanLines(b)
  {
    SplitCharConcat(a, '\n', b);
    var t1 := TrimEach(Split(a, "\n"));
    var t2 := TrimEach(Split(b, "\n"));
    TrimEachConcat(Split(a, "\n"), Split(b, "\n"));
    DropEmptyConcat(t1, t2);
  }

  /** Lines after a usable MRZ pair never change the result. */
  lemma {:induction false} ParseLinesIgnoresTrailingLines(lines: seq<string>, more: seq<string>)
    requires ParseLines(lines).Success?
    ensures ParseLines(lines + more) == ParseLines(lines)
  {
    FindMrzIndexConcat(lines, more);
    var i := FindMrzIndex(lines);
    assert (lines + more)[i] == lines[i] && (lines + more)[i + 1] == lines[i + 1];
  }

  /** Text after a usable MRZ pair never changes the result: the parser
      takes the first pair, not the last two lines of the text. */
  lemma {:induction false} ParseMRZIgnoresTrailingLines(ocrText: string, extra: string)
    requires ParseMRZ(ocrText).Success?
    ensures ParseMRZ(ocrText + "\n" + extra) == ParseMRZ(ocrText)
  {
    ScanLinesConcat(ocrText, extra);
    ParseLinesIgnoresTrailingLines(ScanLines(ocrText), ScanLines(extra));
  }

  // ---------------------------------------------------------------------------
  // Fields

  /** The fixed-offset slices: clamped to their line, so of bounded length,
      and never an error. */
  lemma {:induction false} FieldsOfSlices(line1: string, line2: string)
    ensures var d := FieldsOf(line1, line2);
      && d.documentType == line1[..Min(1, |line1|)]
      && d.countryCode == line1[Min(2, |line1|)..Min(5, |line1|)]
      && d.nationality == line2[Min(10, |line2|)..Min(13, |line2|)]
      && d.sex == line2[Min(20, |line2|)..Min(21, |line2|)]
      && d.dateOfBirth == ConvertMRZDate(line2[Min(13, |line2|)..Min(19, |line2|)])
      && d.dateOfExpiry == ConvertMRZDate(line2[Min(21, |line2|)..Min(27, |line2|)])
      && |d.documentType| <= 1 && |d.countryCode| <= 3
      && |d.nationality| <= 3 && |d.sex| <= 1
  {
  }

  /** The document number is line 2's first nine characters with every
      filler deleted; so it has at most nine characters and no filler. */
  lemma {:induction false} FieldsOfDocumentNumber(line1: string, line2: string)
    ensures var n := FieldsOf(line1, line2).documentNumber; var raw := line2[..Min(9, |line2|)];
      && Filler !in n
      && IsSubsequence(n, raw)
      && |n| == |raw| - multiset(raw)[Filler]
      && |n| <= 9
  {
    RemoveCharSpec(line2[..Min(9, |line2|)], Filler);
  }

  /** Name normalisation leaves no filler and no whitespace at either end. */
  lemma {:induction false} NormalizeNameSpec(raw: string)
    ensures Filler !in NormalizeName(raw)
    ensures IsTrimmed(NormalizeName(raw))
  {
    var spaced := ReplaceChar(raw, Filler, ' ');
    ReplaceCharSpec(raw, Filler, ' ');
    TrimKeepsAbsent(spaced, Filler);
    TrimTrimmed(spaced);
  }

  /** The surname comes from the text before the first "<<" of the name
      part (all of it when there is none) and the given names only from the
      text between the first and the second "<<"; with no "<<" there are no
      given names. Neither holds a filler or whitespace at its ends. */
  lemma {:induction false} NameFieldsOf(namePart: string)
    ensures var parts := Split(namePart, "<<");
      var surname := NormalizeName(parts[0]);
      var givenNames := if |parts| > 1 then NormalizeName(parts[1]) else "";
      && Filler !in surname && IsTrimmed(surname)
      && Filler !in givenNames && IsTrimmed(givenNames)
      && (!Includes(namePart, "<<") ==>
            surname == NormalizeName(namePart) && givenNames == "")
      && (Includes(namePart, "<<") ==>
            var i := IndexOf(namePart, "<<");
            var rest := namePart[i + 2..];
            var j := IndexOf(rest, "<<");
            && surname == NormalizeName(namePart[..i])
            && givenNames == NormalizeName(if j < 0 then rest else rest[..j]))
  {
    var parts := Split(namePart, "<<");
    SplitFirstPieces(namePart, "<<");
    NormalizeNameSpec(parts[0]);
    if |parts| > 1 {
      NormalizeNameSpec(parts[1]);
    }
  }

  /** The name fields are read from line 1 from offset 5 on, as
      `NameFieldsOf` describes. */
  lemma {:induction false} FieldsOfNames(line1: string, line2: string)
    ensures var d := FieldsOf(line1, line2); var namePart := line1[Min(5, |line1|)..];
      && Filler !in d.surname && IsTrimmed(d.surname)
      && Filler !in d.givenNames && IsTrimmed(d.givenNames)
      && (!Includes(namePart, "<<") ==>
            d.surname == NormalizeName(namePart) && d.givenNames == "")
      && (Includes(namePart, "<<") ==>
            var i := IndexOf(namePart, "<<");
            var rest := namePart[i + 2..];
            var j := IndexOf(rest, "<<");
            && d.surname == NormalizeName(namePart[..i])
            && d.givenNames == NormalizeName(if j < 0 then rest else rest[..j]))
  {
    FieldsOfNameParts(line1, line2);
    NameFieldsOf(line1[Min(5, |line1|)..]);
  }

  lemma {:induction false} FieldsOfNameParts(line1: string, line2: string)
    ensures var d := FieldsOf(line1, line2); var parts := Split(line1[Min(5, |line1|)..], "<<");
      && d.surname == NormalizeName(parts[0])
      && d.givenNames == (if |parts| > 1 then NormalizeName(parts[1]) else "")
  {
  }

  /** Each date field is empty or a display date. */
  lemma {:induction false} FieldsOfDates(line1: string, line2: string)
    ensures var d := FieldsOf(line1, line2);
      && (d.dateOfBirth == "" || IsDisplayDate(d.dateOfBirth))
      && (d.dateOfExpiry == "" || IsDisplayDate(d.dateOfExpiry))
  {
    ConvertMRZDateShape(Substring(line2, 13, 19));
    ConvertMRZDateShape(Substring(line2, 21, 27));
  }

  /** A name that holds no filler and no whitespace at its ends is left
      alone by the normalisation. */
  lemma {:induction false} NormalizeNameOfClean(s: string)
    requires Filler !in s && IsTrimmed(s)
    ensures NormalizeName(s) == s
  {
    assert ReplaceChar(s, Filler, ' ') == s;
    TrimTrimmed(s);
  }

  /** A name written as words joined by fillers -- no white space, and no
      filler at either end -- is normalised to the same words joined by
      spaces: `ANNA<MARIA` becomes `ANNA MARIA`. */
  lemma {:induction false} NormalizeNameOfWords(s: string)
    requires forall i :: 0 <= i < |s| ==> !IsWhitespace(s[i])
    requires s == [] || (s[0] != Filler && s[|s| - 1] != Filler)
    ensures NormalizeName(s) == ReplaceChar(s, Filler, ' ')
    ensures Filler !in NormalizeName(s) && |NormalizeName(s)| == |s|
  {
    var r := ReplaceChar(s, Filler, ' ');
    ReplaceCharSpec(s, Filler, ' ');
    if s != [] {
      assert r[0] == s[0] && r[|r| - 1] == s[|s| - 1];
    }
    TrimOfTrimmed(r);
  }

  /** A name that may be laid out before a "<<": it holds no "<<" and does
      not end with a filler, so the "<<" after it is the first one. */
  predicate IsNameField(s: string) {
    NoDoubled(s, Filler) && (s == [] || s[|s| - 1] != Filler)
  }

  /** The first two pieces of such a name part are the two names. */
  lemma {:induction false} NamePiecesOfLayout(surname: string, givenNames: string, tail: string)
    requires IsNameField(surname) && IsNameField(givenNames)
    ensures var parts := Split(surname + "<<" + givenNames + "<<" + tail, "<<");
      |parts| > 1 && parts[0] == surname && parts[1] == givenNames
  {
    var rest := givenNames + "<<" + tail;
    assert surname + "<<" + givenNames + "<<" + tail == surname + "<<" + rest;
    SplitAfterName(surname, rest);
    SplitAfterName(givenNames, tail);
  }

  /** Splitting at "<<" a name field followed by "<<" cuts right after the
      name. */
  lemma {:induction false} SplitAfterName(name: string, rest: string)
    requires IsNameField(name)
    ensures Split(name + "<<" + rest, "<<") == [name] + Split(rest, "<<")
  {
    var s := name + "<<" + rest;
    IndexOfDoubled(name, Filler, rest);
    SplitAt(s, "<<", |name|);
    assert s[..|name|] == name;
    assert s[|name| + 2..] == rest;
  }

  /** A well-formed pair -- line 1 holds the surname and the given names
      from offset 5 on, each followed by "<<" and each free of "<<" and of a
      trailing filler, line 2 has at least 27 characters, no filler in the
      document number and plausible dates -- is read field by field at the
      fixed offsets, with the names normalised. */
  lemma {:induction false} FieldsOfLayout(line1: string, line2: string, surname: string, givenNames: string,
                       tail: string)
    requires |line1| >= 5 && line1[5..] == surname + "<<" + givenNames + "<<" + tail
    requires IsNameField(surname) && IsNameField(givenNames)
    requires |line2| >= 27 && Filler !in line2[..9]
    requires IsPlausibleMrzDate(line2[13..19]) && IsPlausibleMrzDate(line2[21..27])
    ensures FieldsOf(line1, line2) == MRZData(
      documentType := line1[..1],
      countryCode := line1[2..5],
      surname := NormalizeName(surname),
      givenNames := NormalizeName(givenNames),
      documentNumber := line2[..9],
      nationality := line2[10..13],
      dateOfBirth := [line2[17], line2[18], '/', line2[15], line2[16], '/', '2', '0',
                      line2[13], line2[14]],
      sex := line2[20..21],
      dateOfExpiry := [line2[25], line2[26], '/', line2[23], line2[24], '/', '2', '0',
                       line2[21], line2[22]])
  {
    FieldsOfSlices(line1, line2);
    FieldsOfNames(line1, line2);
    NamePiecesOfLayout(surname, givenNames, tail);
    assert Includes(line1[5..], "<<");
    RemoveCharAbsent(line2[..9], Filler);
    ConvertMRZDateLayout(line2[13..19]);
    ConvertMRZDateLayout(line2[21..27]);
  }
}
