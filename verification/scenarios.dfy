/** A small wide table taken through `clean_data` end to end: two regions, two
    year columns (one heading padded with a space), an annotated value and
    the missing-data marker `:`. */
module Scenarios {
  import opened Results
  import opened Text
  import opened Decimals
  import opened Cleaning

  const Sample: WideTable := WideTable(
    ["2018", "2019 "],
    [ WideRow("YR,F,Y65,PT", [Some("80.1 b"), Some(":")]),
      WideRow("YR,F,Y65,FR", [Some("81.0"), Some("82.3")]) ])

  /** A sequence of length four is the display of its four elements. */
  lemma FourElements<T>(s: seq<T>, a: T, b: T, c: T, d: T)
    requires |s| == 4 && s[0] == a && s[1] == b && s[2] == c && s[3] == d
    ensures s == [a, b, c, d]
  {
  }

  /** Both sample keys split into their four fields. */
  lemma SampleKeys()
    ensures KeyFields("YR,F,Y65,PT") == ["YR", "F", "Y65", "PT"]
    ensures KeyFields("YR,F,Y65,FR") == ["YR", "F", "Y65", "FR"]
  {
    KeyOfFields("YR", "F", "Y65", "PT");
    assert "YR" + "," + "F" + "," + "Y65" + "," + "PT" == "YR,F,Y65,PT";
    KeyOfFields("YR", "F", "Y65", "FR");
    assert "YR" + "," + "F" + "," + "Y65" + "," + "FR" == "YR,F,Y65,FR";
  }

  /** Two rows of two cells under two year headings. */
  lemma SampleRectangular()
    ensures Rectangular(Sample)
  {
    assert |Sample.rows| == 2 && |Sample.years| == 2;
    assert |Sample.rows[0].cells| == 2 && |Sample.rows[1].cells| == 2;
  }

  /** Both sample keys have four fields. */
  lemma SampleWellFormed()
    ensures KeysWellFormed(Sample)
  {
    var rows := Sample.rows;
    assert |rows| == 2;
    assert rows[0].key == "YR,F,Y65,PT" && rows[1].key == "YR,F,Y65,FR";
    SampleKeys();
  }

  /** The decimal spellings of the two years. */
  lemma FormatYears()
    ensures FormatNat(2018) == "2018" && FormatNat(2019) == "2019"
  {
    assert FormatNat(2) == "2" && FormatNat(20) == "20" && FormatNat(201) == "201";
  }

  /** The first year heading parses as itself. */
  lemma Year2018()
    ensures ParseYear("2018") == Some(2018)
  {
    FormatYears();
    ParseYearPadded("", 2018, "");
    assert "" + "2018" + "" == "2018";
  }

  /** The second year heading parses once its trailing space is stripped. */
  lemma Year2019()
    ensures ParseYear("2019 ") == Some(2019)
  {
    FormatYears();
    ParseYearPadded("", 2019, " ");
    assert "" + "2019" + " " == "2019 ";
  }

  /** Every year heading of the sample parses. */
  lemma SampleYearsParse()
    ensures YearsParse(Sample)
  {
    Year2018();
    Year2019();
    var years := Sample.years;
    assert |years| == 2 && years[0] == "2018" && years[1] == "2019 ";
  }

  /** The annotated value keeps its number and loses its flag. */
  lemma AnnotatedValue()
    ensures ExtractDecimalValue(Some("80.1 b")) == Some(80.1)
  {
    assert DigitRun("80.1 b", 0) == 2 && DigitRun("80.1 b", 3) == 1;
    assert MatchEnd("80.1 b") == 4;
    assert "80.1 b"[0..2] == "80" && "80.1 b"[3..4] == "1";
    assert ExtractMatch("80.1 b") == Some(Decimal("80", "1"));
    assert DigitsValue("80") == 80;
  }

  /** The French values both hold a number. */
  lemma FrenchValues()
    ensures ExtractDecimalValue(Some("81.0")).Some?
    ensures ExtractDecimalValue(Some("82.3")).Some?
  {
    assert FirstDigit("81.0", 0) == 0 && FirstDigit("82.3", 0) == 0;
  }

  /** The long table of the sample, in `melt` order: the 2018 column, then the
      2019 column. */
  lemma SampleMelt()
    ensures Rectangular(Sample) && KeysWellFormed(Sample)
    ensures Melt(Sample) == [
      LongRow("YR", "F", "Y65", "PT", "2018", Some("80.1 b")),
      LongRow("YR", "F", "Y65", "FR", "2018", Some("81.0")),
      LongRow("YR", "F", "Y65", "PT", "2019 ", Some(":")),
      LongRow("YR", "F", "Y65", "FR", "2019 ", Some("82.3"))]
  {
    SampleKeys();
    SampleRectangular();
    SampleWellFormed();
    var long := Melt(Sample);
    MeltLength(Sample);
    assert |long| == 4;
    MeltIndex(Sample, 0, 0);
    assert long[0] == LongRow("YR", "F", "Y65", "PT", "2018", Some("80.1 b"));
    MeltIndex(Sample, 1, 0);
    assert long[1] == LongRow("YR", "F", "Y65", "FR", "2018", Some("81.0"));
    assert Seqs.BlockStart(2, 1) == 2;
    MeltIndex(Sample, 0, 1);
    assert long[2] == LongRow("YR", "F", "Y65", "PT", "2019 ", Some(":"));
    MeltIndex(Sample, 1, 1);
    assert long[3] == LongRow("YR", "F", "Y65", "FR", "2019 ", Some("82.3"));
    FourElements(long, long[0], long[1], long[2], long[3]);
  }

  /** `clean_year` accepts the melted sample. */
  lemma SampleCleanYearOk()
    ensures Rectangular(Sample) && KeysWellFormed(Sample)
    ensures CleanYear(Melt(Sample)).Ok?
  {
    SampleRectangular();
    SampleWellFormed();
    SampleYearsParse();
    CleanYearOfMeltOk(Sample);
  }

  /** The sample after `clean_year`: each melted row with its heading parsed
      and its value extracted. */
  lemma SampleCleaned()
    ensures Rectangular(Sample) && KeysWellFormed(Sample)
    ensures CleanYear(Melt(Sample)) == Ok([
      Record("YR", "F", "Y65", "PT", 2018, ExtractDecimalValue(Some("80.1 b"))),
      Record("YR", "F", "Y65", "FR", 2018, ExtractDecimalValue(Some("81.0"))),
      Record("YR", "F", "Y65", "PT", 2019, ExtractDecimalValue(Some(":"))),
      Record("YR", "F", "Y65", "FR", 2019, ExtractDecimalValue(Some("82.3")))])
  {
    SampleMelt();
    SampleCleanYearOk();
    Year2018();
    Year2019();
    var long := Melt(Sample);
    var out := CleanYear(long).value;
    CleanedRow(long, 0, 2018);
    CleanedRow(long, 1, 2018);
    CleanedRow(long, 2, 2019);
    CleanedRow(long, 3, 2019);
    FourElements(out, out[0], out[1], out[2], out[3]);
  }

  /** The `k`-th record `clean_year` returns, given the year its row's heading parses to. */
  lemma CleanedRow(rows: seq<LongRow>, k: nat, year: int)
    requires CleanYear(rows).Ok? && k < |rows| && ParseYear(rows[k].year) == Some(year)
    ensures CleanYear(rows).value[k] == CleanRow(rows[k], year)
  {
    CleanYearRow(rows, k);
  }

  /** What the drop and the filter look at in the cleaned sample: which
      records are null, and which are Portuguese. */
  lemma SampleCleanedShape()
    ensures Rectangular(Sample) && KeysWellFormed(Sample) && CleanYear(Melt(Sample)).Ok?
    ensures var v := CleanYear(Melt(Sample)).value;
            && |v| == 4
            && v[0] == Record("YR", "F", "Y65", "PT", 2018, Some(80.1))
            && IsNull(v[2], "value") && !IsNull(v[1], "value") && !IsNull(v[3], "value")
            && v[2].region == "PT" && v[1].region == "FR" && v[3].region == "FR"
  {
    SampleCleaned();
    AnnotatedValue();
    ExtractMissing();
    FrenchValues();
  }

  /** Dropping the null cells of the cleaned sample and keeping Portugal
      leaves the annotated 2018 observation alone. */
  lemma SampleDropAndFilter()
    ensures Rectangular(Sample) && KeysWellFormed(Sample) && CleanYear(Melt(Sample)).Ok?
    ensures DropNullValues(CleanYear(Melt(Sample)).value, "value").Ok?
    ensures FilterRegion(DropNullValues(CleanYear(Melt(Sample)).value, "value").value, "PT")
            == [Record("YR", "F", "Y65", "PT", 2018, Some(80.1))]
  {
    SampleCleanedShape();
    KeepFirstOfFour(CleanYear(Melt(Sample)).value, "value", "PT");
  }

  /** Only the Portuguese 2018 observation survives: the other Portuguese
      cell holds no number and is dropped, the French rows are filtered out. */
  lemma SamplePortugal()
    ensures CleanData(Sample, DefaultDropnaColumn, DefaultRegion)
            == Ok([Record("YR", "F", "Y65", "PT", 2018, Some(80.1))])
  {
    SampleDropAndFilter();
    CleanYearOfMelt(Sample);
  }

  /** Of four records, only the first survives when the third is null, the
      others are not, and only the first two carry the region. */
  lemma KeepFirstOfFour(s: seq<Record>, column: string, region: string)
    requires column in Columns && |s| == 4
    requires IsNull(s[2], column) && !IsNull(s[0], column) && !IsNull(s[1], column) && !IsNull(s[3], column)
    requires s[0].region == region && s[1].region != region && s[3].region != region
    ensures DropNullValues(s, column).Ok?
    ensures FilterRegion(DropNullValues(s, column).value, region) == [s[0]]
  {
    var r0, r1, r2, r3 := s[0], s[1], s[2], s[3];
    FourElements(s, r0, r1, r2, r3);
    assert s == [r0] + ([r1] + ([r2] + [r3]));
    DropNullValuesRowwise([r2], [r3], column);
    DropNullValuesRowwise([r1], [r2] + [r3], column);
    DropNullValuesRowwise([r0], [r1] + ([r2] + [r3]), column);
    var kept := DropNullValues(s, column).value;
    assert kept == [r0] + ([r1] + [r3]);
    FilterRegionRowwise([r1], [r3], region);
    FilterRegionRowwise([r0], [r1] + [r3], region);
  }
}
