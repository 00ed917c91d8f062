/**
 * Concrete inputs: two passports of Utopia that share the data line
 * `L898902C3 UTO 740812 ... 120415` -- one for "ANNA MARIA ERIKSSON"
 * (female, two given names joined by a filler, the TD3 specimen of ICAO
 * Doc 9303 Part 4) and one for "JOHN RESIDENT" (male, one given name) --,
 * the first followed by a stray OCR line, and a calendar-impossible date
 * that the converter still accepts.
 */
module MrzExamples {
  import opened JsString
  import opened MrzParser
  import opened MrzProperties

  /** The record both sample passports encode, up to the names and the sex. */
  function SampleRecord(surname: string, givenNames: string, sex: string): MRZData
  {
    MRZData(
      documentType := "P",
      countryCode := "UTO",
      surname := surname,
      givenNames := givenNames,
      documentNumber := "L898902C3",
      nationality := "UTO",
      dateOfBirth := "12/08/2074",
      sex := sex,
      dateOfExpiry := "15/04/2012")
  }

  /** The data line of the sample passports, field by field: document
      number, its check digit, nationality, date of birth, its check digit,
      sex, date of expiry and the rest of the line. */
  function DataLine(sex: string): string {
    "L898902C3" + "6" + "UTO" + "740812" + "2" + sex + "120415" + "9ZE184226B<<<<<10"
  }

  // "ANNA MARIA ERIKSSON": two given names joined by a filler.

  const Fill: string := "<<<<<<<<<<<<<<<<<"
  const Surname: string := "ERIKSSON"
  const GivenNames: string := "ANNA<MARIA"
  const NamePart: string := Surname + "<<" + GivenNames + "<<" + Fill
  const Line1: string := "P<UTO" + NamePart
  const Line2: string := DataLine("F")
  const Expected: MRZData := SampleRecord("ERIKSSON", "ANNA MARIA", "F")

  // "JOHN RESIDENT": one given name.

  const ResidentFill: string := "<<<<<<<<<<<<<<<<<<<<<"
  const ResidentNamePart: string := "RESIDENT" + "<<" + "JOHN" + "<<" + ResidentFill
  const ResidentLine1: string := "P<UTO" + ResidentNamePart
  const ResidentLine2: string := DataLine("M")
  const ResidentExpected: MRZData := SampleRecord("RESIDENT", "JOHN", "M")

  // ---------------------------------------------------------------------------
  // Steps shared by both samples

  /** Two non-empty trimmed lines joined by a line feed are scanned as
      those two lines. */
  lemma {:induction false} ScanTwoLines(l1: string, l2: string)
    requires '\n' !in l1 && l1 != [] && IsTrimmed(l1)
    requires '\n' !in l2 && l2 != [] && IsTrimmed(l2)
    ensures ScanLines(l1 + "\n" + l2) == [l1, l2]
  {
    TrimTrimmed(l1);
    TrimTrimmed(l2);
    ScanSingleLine(l1);
    ScanSingleLine(l2);
    ScanLinesConcat(l1, l2);
  }

  /** A first line with a "<<" after the surname is the MRZ line. */
  lemma {:induction false} FirstLineIsMrz(surname: string, rest: string, l2: string)
    ensures FindMrzIndex(["P<UTO" + surname + "<<" + rest, l2]) == 0
  {
    var l1 := "P<UTO" + surname + "<<" + rest;
    var k := 5 + |surname|;
    assert l1[k..k + 2] == "<<";
    assert OccursAt(l1, "<<", k);
    IsMrzLineIff(l1);
  }

  /** The first three fields of a document line `P<UTO...`. */
  lemma {:induction false} DocumentLineSlices(namePart: string)
    ensures var l := "P<UTO" + namePart;
      l[..1] == "P" && l[2..5] == "UTO" && l[5..] == namePart
  {
    var l := "P<UTO" + namePart;
    assert l[..1] == [l[0]];
    assert l[2..5] == [l[2], l[3], l[4]];
  }

  /** The offsets of the data-line fields within a line assembled from
      pieces of the standard widths. */
  lemma {:induction false} DataLineSlices(number: string, c1: string, nationality: string, birth: string,
                       c2: string, sex: string, expiry: string, rest: string)
    requires |number| == 9 && |c1| == 1 && |nationality| == 3 && |birth| == 6
    requires |c2| == 1 && |sex| == 1 && |expiry| == 6
    ensures var l := number + c1 + nationality + birth + c2 + sex + expiry + rest;
      && l[..9] == number && l[10..13] == nationality && l[13..19] == birth
      && l[20..21] == sex && l[21..27] == expiry
  {
    var l := number + c1 + nationality + birth + c2 + sex + expiry + rest;
    assert l[..9] == number;
    assert l[10..13] == nationality;
    assert l[13..19] == birth;
    assert l[20..21] == sex;
    assert l[21..27] == expiry;
  }

  lemma {:induction false} SampleDates()
    ensures IsPlausibleMrzDate("740812") && IsPlausibleMrzDate("120415")
  {
  }

  /** Any pair of lines with the sample slices and a name part laid out as
      `surname<<givenNames<<fill` gives the sample record with the
      normalised names. */
  lemma {:induction false} FieldsOfSample(l1: string, l2: string, surname: string, givenNames: string,
                       fill: string, sex: string)
    requires |l1| >= 5 && l1[..1] == "P" && l1[2..5] == "UTO"
    requires l1[5..] == surname + "<<" + givenNames + "<<" + fill
    requires IsNameField(surname) && IsNameField(givenNames)
    requires |l2| >= 27 && l2[..9] == "L898902C3" && l2[10..13] == "UTO"
    requires l2[13..19] == "740812" && l2[20..21] == sex && l2[21..27] == "120415"
    ensures FieldsOf(l1, l2) == SampleRecord(NormalizeName(surname), NormalizeName(givenNames), sex)
  {
    SampleDates();
    assert Filler !in "L898902C3";
    FieldsOfLayout(l1, l2, surname, givenNames, fill);
    SampleRecordOfSlices(l1, l2, NormalizeName(surname), NormalizeName(givenNames), sex);
  }

  /** The record `FieldsOfLayout` describes, for the sample slices. */
  lemma {:induction false} SampleRecordOfSlices(l1: string, l2: string, surname: string, givenNames: string,
                       sex: string)
    requires |l1| >= 5 && l1[..1] == "P" && l1[2..5] == "UTO"
    requires |l2| >= 27 && l2[..9] == "L898902C3" && l2[10..13] == "UTO"
    requires l2[13..19] == "740812" && l2[20..21] == sex && l2[21..27] == "120415"
    ensures MRZData(l1[..1], l1[2..5], surname, givenNames, l2[..9], l2[10..13],
                    [l2[17], l2[18], '/', l2[15], l2[16], '/', '2', '0', l2[13], l2[14]],
                    l2[20..21],
                    [l2[25], l2[26], '/', l2[23], l2[24], '/', '2', '0', l2[21], l2[22]])
         == SampleRecord(surname, givenNames, sex)
  {
    assert [l2[17], l2[18], '/', l2[15], l2[16], '/', '2', '0', l2[13], l2[14]] == "12/08/2074" by {
      assert l2[13..19][0] == '7' && l2[13..19][1] == '4' && l2[13..19][2] == '0';
      assert l2[13..19][3] == '8' && l2[13..19][4] == '1' && l2[13..19][5] == '2';
    }
    assert [l2[25], l2[26], '/', l2[23], l2[24], '/', '2', '0', l2[21], l2[22]] == "15/04/2012" by {
      assert l2[21..27][0] == '1' && l2[21..27][1] == '2' && l2[21..27][2] == '0';
      assert l2[21..27][3] == '4' && l2[21..27][4] == '1' && l2[21..27][5] == '5';
    }
  }

  /** The data line's fields, for either sex. */
  lemma {:induction false} DataLineFields(sex: string)
    requires |sex| == 1
    ensures var l := DataLine(sex);
      && |l| >= 27 && l[..9] == "L898902C3" && l[10..13] == "UTO"
      && l[13..19] == "740812" && l[20..21] == sex && l[21..27] == "120415"
  {
    DataLineSlices("L898902C3", "6", "UTO", "740812", "2", sex, "120415", "9ZE184226B<<<<<10");
  }

  // ---------------------------------------------------------------------------
  // "ANNA MARIA ERIKSSON"

  /** The given names, joined by a filler, are read as two words joined by
      a space. */
  lemma {:induction false} SpecimenNames()
    ensures NormalizeName(Surname) == "ERIKSSON"
    ensures NormalizeName(GivenNames) == "ANNA MARIA"
  {
    assert IsTrimmed(Surname) && Filler !in Surname;
    NormalizeNameOfClean(Surname);
    NormalizeNameOfWords(GivenNames);
    assert ReplaceChar(GivenNames, Filler, ' ') == "ANNA MARIA";
  }

  lemma {:induction false} ExampleFields()
    ensures FieldsOf(Line1, Line2) == Expected
  {
    DocumentLineSlices(NamePart);
    DataLineFields("F");
    assert IsNameField(Surname) && IsNameField(GivenNames);
    FieldsOfSample(Line1, Line2, Surname, GivenNames, Fill, "F");
    SpecimenNames();
  }

  /** The two lines parse to the record they encode; the birth year 74 is
      read as 2074 because the century is always 2000. */
  lemma {:induction false} WorkedExample()
    ensures ParseMRZ(Line1 + "\n" + Line2) == Success(Expected)
  {
    ExampleLines();
    ExampleMrzIndex();
    ExampleFields();
  }

  lemma {:induction false} ExampleLines()
    ensures ScanLines(Line1 + "\n" + Line2) == [Line1, Line2]
  {
    assert '\n' !in Line1 && IsTrimmed(Line1);
    assert '\n' !in Line2 && IsTrimmed(Line2);
    ScanTwoLines(Line1, Line2);
  }

  lemma {:induction false} ExampleMrzIndex()
    ensures FindMrzIndex([Line1, Line2]) == 0
  {
    FirstLineIsMrz(Surname, GivenNames + "<<" + Fill, Line2);
    assert Line1 == "P<UTO" + Surname + "<<" + (GivenNames + "<<" + Fill);
  }

  // ---------------------------------------------------------------------------
  // "JOHN RESIDENT"

  /** Names without fillers are kept as they are. */
  lemma {:induction false} ResidentNames()
    ensures NormalizeName("RESIDENT") == "RESIDENT"
    ensures NormalizeName("JOHN") == "JOHN"
  {
    assert IsTrimmed("RESIDENT") && Filler !in "RESIDENT";
    assert IsTrimmed("JOHN") && Filler !in "JOHN";
    NormalizeNameOfClean("RESIDENT");
    NormalizeNameOfClean("JOHN");
  }

  lemma {:induction false} ResidentFields()
    ensures FieldsOf(ResidentLine1, ResidentLine2) == ResidentExpected
  {
    DocumentLineSlices(ResidentNamePart);
    DataLineFields("M");
    assert IsNameField("RESIDENT") && IsNameField("JOHN");
    FieldsOfSample(ResidentLine1, ResidentLine2, "RESIDENT", "JOHN", ResidentFill, "M");
    ResidentNames();
  }

  /** `P<UTORESIDENT<<JOHN<<...` and `L898902C36UTO7408122M1204159ZE...`
      give P, UTO, RESIDENT, JOHN, L898902C3, UTO, 12/08/2074, M and
      15/04/2012. */
  lemma {:induction false} ResidentWorkedExample()
    ensures ParseMRZ(ResidentLine1 + "\n" + ResidentLine2)
         == Success(MRZData("P", "UTO", "RESIDENT", "JOHN", "L898902C3", "UTO",
                            "12/08/2074", "M", "15/04/2012"))
  {
    ResidentLines();
    ResidentMrzIndex();
    ResidentFields();
  }

  lemma {:induction false} ResidentLines()
    ensures ScanLines(ResidentLine1 + "\n" + ResidentLine2) == [ResidentLine1, ResidentLine2]
  {
    assert '\n' !in ResidentLine1 && IsTrimmed(ResidentLine1);
    assert '\n' !in ResidentLine2 && IsTrimmed(ResidentLine2);
    ScanTwoLines(ResidentLine1, ResidentLine2);
  }

  lemma {:induction false} ResidentMrzIndex()
    ensures FindMrzIndex([ResidentLine1, ResidentLine2]) == 0
  {
    FirstLineIsMrz("RESIDENT", "JOHN" + "<<" + ResidentFill, ResidentLine2);
    assert ResidentLine1 == "P<UTO" + "RESIDENT" + "<<" + ("JOHN" + "<<" + ResidentFill);
  }

  // ---------------------------------------------------------------------------
  // Edge cases

  /** A stray line after the MRZ is ignored, although the "last two lines"
      of this text are the data line and the stray one. */
  lemma {:induction false} WorkedExampleWithTrailingLine()
    ensures ParseMRZ(Line1 + "\n" + Line2 + "\n" + "SCANNED <<OK>>") == Success(Expected)
  {
    WorkedExample();
    ParseMRZIgnoresTrailingLines(Line1 + "\n" + Line2, "SCANNED <<OK>>");
  }

  /** The day is checked against 1..31 only: 31 February is accepted. */
  lemma {:induction false} ThirtyFirstOfFebruary()
    ensures ConvertMRZDate("740231") == "31/02/2074"
  {
    assert IsPlausibleMrzDate("740231");
    ConvertMRZDateLayout("740231");
  }

  /** Month 13 and day 00 are rejected as empty dates, not as a failure. */
  lemma {:induction false} OutOfRangeDates()
    ensures ConvertMRZDate("741301") == ""
    ensures ConvertMRZDate("740100") == ""
    ensures ConvertMRZDate("74010") == ""
  {
    ConvertMRZDateEmptyIff("741301");
    ConvertMRZDateEmptyIff("740100");
    ConvertMRZDateEmptyIff("74010");
  }

  /** A single line of text fails with the first error. */
  lemma {:induction false} SingleLineFails()
    ensures ParseMRZ(Line1) == Failure(TooFewLines)
  {
    NoNewlineTooFewLines(Line1);
  }
}
