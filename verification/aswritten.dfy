/** `unpivot_table` exactly as `life_expectancy/cleaning.py` writes it, where it
    differs from `Cleaning.Unpivot`. `str.split(",", expand=True)` makes as
    many columns as the longest split has pieces and pads shorter splits with
    null; assigning the four names `unit, sex, age, region` then succeeds
    exactly when that count is four. So a key with fewer than four fields is
    not rejected, and a table that melts to no rows at all (no rows, or no
    year columns) is rejected because its split has no columns. */
module AsWritten {
  import opened Results
  import opened Text
  import Seqs
  import opened Cleaning

  /** A long row as the as-written reshaping builds it: each key field is null
      when the key has fewer fields than the widest key. */
  datatype PaddedRow = PaddedRow(
    unit: Option<string>, sex: Option<string>, age: Option<string>, region: Option<string>,
    year: string, value: Option<string>)

  /** The largest number of fields among the rows' keys, `0` for no rows. */
  function MaxFieldCount(rows: seq<WideRow>): (w: nat)
    ensures forall i :: 0 <= i < |rows| ==> |KeyFields(rows[i].key)| <= w
    ensures rows != [] ==> exists i :: 0 <= i < |rows| && |KeyFields(rows[i].key)| == w
    ensures rows == [] ==> w == 0
  {
    if rows == [] then 0
    else
      var rest := MaxFieldCount(rows[1..]);
      var here := |KeyFields(rows[0].key)|;
      assert forall i :: 1 <= i < |rows| ==> rows[i] == rows[1..][i - 1];
      if here >= rest then here else rest
  }

  /** The number of columns `str.split(",", expand=True)` produces on the
      melted key column: the widest split among the melted rows, which are
      the wide rows repeated once per year column; none when nothing melts. */
  function SplitColumns(t: WideTable): nat {
    if |t.years| == 0 then 0 else MaxFieldCount(t.rows)
  }

  /** Field `k` of a split, or null past its end. */
  function PadField(fields: seq<string>, k: nat): Option<string> {
    if k < |fields| then Some(fields[k]) else None
  }

  /** The padded long row for the cell in row `i`, year column `j`. */
  function PaddedCell(t: WideTable, i: nat, j: nat): PaddedRow
    requires Rectangular(t) && i < |t.rows| && j < |t.years|
  {
    var f := KeyFields(t.rows[i].key);
    PaddedRow(PadField(f, 0), PadField(f, 1), PadField(f, 2), PadField(f, 3), t.years[j], t.rows[i].cells[j])
  }

  /** The padded rows of every year column, left to right. */
  function PaddedBlocks(t: WideTable): seq<seq<PaddedRow>>
    requires Rectangular(t)
  {
    seq(|t.years|, j requires 0 <= j < |t.years| =>
      seq(|t.rows|, i requires 0 <= i < |t.rows| => PaddedCell(t, i, j)))
  }

  /** `unpivot_table` as written: the column names fit only a four-column split. */
  function UnpivotAsWritten(t: WideTable): (r: Result<seq<PaddedRow>, Error>)
    requires Rectangular(t)
    ensures r.Ok? <==> SplitColumns(t) == 4
    ensures r.Err? ==> r.error == SplitWidth(SplitColumns(t))
  {
    var w := SplitColumns(t);
    if w != 4 then Err(SplitWidth(w)) else Ok(Seqs.Flatten(PaddedBlocks(t)))
  }

  /** A long row of the corrected reshaping, with every key field present. */
  function Lift(x: LongRow): PaddedRow {
    PaddedRow(Some(x.unit), Some(x.sex), Some(x.age), Some(x.region), x.year, x.value)
  }

  /** When every key has four fields, the split has four columns as soon as
      anything melts. */
  lemma WellFormedSplitColumns(t: WideTable)
    requires KeysWellFormed(t) && |t.rows| > 0 && |t.years| > 0
    ensures SplitColumns(t) == 4
  {
    var w := MaxFieldCount(t.rows);
    assert HasFourFields(t.rows[0].key);
    var i :| 0 <= i < |t.rows| && |KeyFields(t.rows[i].key)| == w;
    assert HasFourFields(t.rows[i].key);
  }

  /** On a table with well-formed keys that melts to at least one row, the
      as-written reshaping and the corrected one give the same rows. */
  lemma AsWrittenAgreesWithUnpivot(t: WideTable)
    requires Rectangular(t) && KeysWellFormed(t) && |t.rows| > 0 && |t.years| > 0
    ensures Unpivot(t).Ok? && UnpivotAsWritten(t).Ok?
    ensures UnpivotAsWritten(t).value == Seqs.Map(Unpivot(t).value, Lift)
  {
    WellFormedSplitColumns(t);
    var blocks := ColumnBlocks(t);
    var padded := PaddedBlocks(t);
    forall j | 0 <= j < |blocks|
      ensures padded[j] == Seqs.Map(blocks[j], Lift)
    {
      forall i | 0 <= i < |t.rows|
        ensures padded[j][i] == Lift(blocks[j][i])
      {
        assert HasFourFields(t.rows[i].key);
      }
    }
    Seqs.FlattenMap(blocks, padded, Lift);
  }

  /** A table that melts to no rows fails as written, although the corrected
      reshaping returns the empty long table when its keys are well formed. */
  lemma EmptyMeltFailsAsWritten(t: WideTable)
    requires Rectangular(t) && (|t.rows| == 0 || |t.years| == 0)
    ensures UnpivotAsWritten(t) == Err(SplitWidth(0))
    ensures KeysWellFormed(t) ==> Unpivot(t) == Ok([])
  {
  }

  /** A four-field key splits into its four fields. */
  lemma FourFieldKey()
    ensures KeyFields("YR,F,Y65,PT") == ["YR", "F", "Y65", "PT"]
  {
    KeyOfFields("YR", "F", "Y65", "PT");
    assert "YR" + "," + "F" + "," + "Y65" + "," + "PT" == "YR,F,Y65,PT";
  }

  /** A key missing its `age` field splits into three. */
  lemma ThreeFieldKey()
    ensures KeyFields("YR,F,PT") == ["YR", "F", "PT"]
  {
    assert Join(["YR", "F", "PT"], ',') == "YR,F,PT";
    SplitJoin(["YR", "F", "PT"], ',');
  }

  /** A one-year table whose second key lacks its `age` field. */
  const ShortKeyTable: WideTable :=
    WideTable(["2019"], [WideRow("YR,F,Y65,PT", [Some("80.1")]), WideRow("YR,F,PT", [Some("79.0")])])

  /** The widest split of the short-key table has four columns. */
  lemma ShortKeySplitColumns()
    ensures Rectangular(ShortKeyTable) && SplitColumns(ShortKeyTable) == 4
  {
    var rows := ShortKeyTable.rows;
    FourFieldKey();
    ThreeFieldKey();
    assert rows[1..] == [WideRow("YR,F,PT", [Some("79.0")])];
    assert MaxFieldCount(rows[1..]) == 3;
  }

  /** The corrected reshaping rejects the short key, the second row. */
  lemma ShortKeyRejected()
    ensures Rectangular(ShortKeyTable)
    ensures Unpivot(ShortKeyTable) == Err(KeyFieldCount("YR,F,PT", 3))
  {
    FourFieldKey();
    ThreeFieldKey();
    assert FirstBadKey(ShortKeyTable.rows, 0) == 1;
  }

  /** A key with three fields next to one with four passes as written, its
      region becoming null and its region code landing in the `age` column,
      while the corrected reshaping rejects it. */
  lemma ShortKeyPassesAsWritten()
    ensures Rectangular(ShortKeyTable)
    ensures UnpivotAsWritten(ShortKeyTable).Ok?
    ensures UnpivotAsWritten(ShortKeyTable).value[1]
            == PaddedRow(Some("YR"), Some("F"), Some("PT"), None, "2019", Some("79.0"))
    ensures Unpivot(ShortKeyTable) == Err(KeyFieldCount("YR,F,PT", 3))
  {
    ShortKeySplitColumns();
    ShortKeyRejected();
    ThreeFieldKey();
    var padded := PaddedBlocks(ShortKeyTable);
    assert padded[0][1] == PaddedRow(Some("YR"), Some("F"), Some("PT"), None, "2019", Some("79.0"));
    assert Seqs.Flatten(padded) == padded[0];
  }
}
