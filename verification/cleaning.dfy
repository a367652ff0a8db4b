/** The data transformations of `life_expectancy/cleaning.py`: reshaping the
    wide table into a long one, cleaning the year and value columns, dropping
    null values, keeping one region, and `clean_data`, which runs these in
    that order. Loading and saving files are not modelled. */
module Cleaning {
  import opened Results
  import opened Text
  import opened Decimals
  import Seqs

  /** One row of the wide table: the composite key `unit,sex,age,geo\time` and
      one cell per year column (`None` for an empty cell). */
  datatype WideRow = WideRow(key: string, cells: seq<Option<string>>)

  /** The wide table as loaded: the year-column headings from left to right,
      and the rows. */
  datatype WideTable = WideTable(years: seq<string>, rows: seq<WideRow>)

  /** Every row has one cell per year column, as in any data frame. */
  predicate Rectangular(t: WideTable) {
    forall i :: 0 <= i < |t.rows| ==> |t.rows[i].cells| == |t.years|
  }

  /** A row of the long table that `unpivot_table` returns: the four key
      fields, the year heading and the raw cell. */
  datatype LongRow = LongRow(unit: string, sex: string, age: string, region: string, year: string, value: Option<string>)

  /** A row of the cleaned table, columns `unit,sex,age,region,year,value`. */
  datatype Record = Record(unit: string, sex: string, age: string, region: string, year: int, value: Option<real>)

  datatype Error =
    | KeyFieldCount(key: string, fields: nat)  // a composite key that does not have four fields
    | SplitWidth(width: nat)                   // pandas' column-count mismatch after the split
    | BadYear(heading: string)                 // `int()` rejected a year heading
    | UnknownColumn(column: string)            // a column name the cleaned table does not have

  /** The columns of the cleaned table, in order. */
  const Columns: seq<string> := ["unit", "sex", "age", "region", "year", "value"]

  /** The defaults of `clean_data`'s keyword arguments. */
  const DefaultDropnaColumn: string := "value"
  const DefaultRegion: string := "PT"

  // ---------------------------------------------------------------------------
  // unpivot_table

  /** The comma-separated fields of a composite key. */
  function KeyFields(key: string): seq<string> {
    Split(key, ',')
  }

  predicate HasFourFields(key: string) {
    |KeyFields(key)| == 4
  }

  /** A key written from four comma-free fields splits back into them. */
  lemma KeyOfFields(unit: string, sex: string, age: string, region: string)
    requires ',' !in unit && ',' !in sex && ',' !in age && ',' !in region
    ensures KeyFields(unit + "," + sex + "," + age + "," + region) == [unit, sex, age, region]
  {
    var fields := [unit, sex, age, region];
    assert Join(fields[3..], ',') == region;
    assert Join(fields[2..], ',') == age + [','] + region;
    assert Join(fields[1..], ',') == sex + [','] + (age + [','] + region);
    assert Join(fields, ',') == unit + "," + sex + "," + age + "," + region;
    SplitJoin(fields, ',');
  }

  predicate KeysWellFormed(t: WideTable) {
    forall i :: 0 <= i < |t.rows| ==> HasFourFields(t.rows[i].key)
  }

  /** The long row for the cell in row `i` and year column `j`: the key fields
      in the fixed order unit, sex, age, region, then the year heading and the cell. */
  function MeltCell(t: WideTable, i: nat, j: nat): LongRow
    requires Rectangular(t) && i < |t.rows| && j < |t.years| && HasFourFields(t.rows[i].key)
  {
    var f := KeyFields(t.rows[i].key);
    LongRow(f[0], f[1], f[2], f[3], t.years[j], t.rows[i].cells[j])
  }

  /** The long rows of year column `j`, one per wide row, top to bottom. */
  function ColumnBlock(t: WideTable, j: nat): seq<LongRow>
    requires Rectangular(t) && KeysWellFormed(t) && j < |t.years|
  {
    seq(|t.rows|, i requires 0 <= i < |t.rows| => MeltCell(t, i, j))
  }

  /** All year columns' blocks, left to right. */
  function ColumnBlocks(t: WideTable): seq<seq<LongRow>>
    requires Rectangular(t) && KeysWellFormed(t)
  {
    seq(|t.years|, j requires 0 <= j < |t.years| => ColumnBlock(t, j))
  }

  /** The position of the first row at or after `from` whose key does not have
      four fields, or `|rows|` when there is none. */
  function FirstBadKey(rows: seq<WideRow>, from: nat): (i: nat)
    requires from <= |rows|
    ensures from <= i <= |rows|
    ensures i < |rows| ==> !HasFourFields(rows[i].key)
    ensures forall k :: from <= k < i ==> HasFourFields(rows[k].key)
    decreases |rows| - from
  {
    if from == |rows| || !HasFourFields(rows[from].key) then from else FirstBadKey(rows, from + 1)
  }

  /** The melted table: the year columns' blocks one after another. */
  function Melt(t: WideTable): seq<LongRow>
    requires Rectangular(t) && KeysWellFormed(t)
  {
    Seqs.Flatten(ColumnBlocks(t))
  }

  lemma MeltUniform(t: WideTable)
    requires Rectangular(t) && KeysWellFormed(t)
    ensures Seqs.Uniform(ColumnBlocks(t), |t.rows|)
  {
  }

  lemma MeltLength(t: WideTable)
    requires Rectangular(t) && KeysWellFormed(t)
    ensures |Melt(t)| == |t.rows| * |t.years|
  {
    MeltUniform(t);
    Seqs.FlattenLength(ColumnBlocks(t), |t.rows|);
  }

  /** The long row of the cell in row `i`, year column `j` is at position
      `BlockStart(|t.rows|, j) + i` of `long`, that is `j * |t.rows| + i`
      (`Seqs.BlockStartIsProduct`; `MeltPosition` states it in that form). */
  ghost predicate CellAt(t: WideTable, long: seq<LongRow>, i: nat, j: nat)
    requires Rectangular(t) && KeysWellFormed(t) && i < |t.rows| && j < |t.years|
  {
    var k := Seqs.BlockStart(|t.rows|, j) + i;
    k < |long| && long[k] == MeltCell(t, i, j)
  }

  lemma MeltIndex(t: WideTable, i: nat, j: nat)
    requires Rectangular(t) && KeysWellFormed(t) && i < |t.rows| && j < |t.years|
    ensures CellAt(t, Melt(t), i, j)
  {
    MeltUniform(t);
    Seqs.FlattenIndex(ColumnBlocks(t), |t.rows|, j, i);
  }

  /** The cell in row `i`, year column `j` is the long row at position
      `j * |t.rows| + i` of the melted table. */
  lemma MeltPosition(t: WideTable, i: nat, j: nat)
    requires Rectangular(t) && KeysWellFormed(t) && i < |t.rows| && j < |t.years|
    ensures j * |t.rows| + i < |Melt(t)|
    ensures Melt(t)[j * |t.rows| + i] == MeltCell(t, i, j)
  {
    MeltIndex(t, i, j);
    Seqs.BlockStartIsProduct(|t.rows|, j);
  }

  /** `x` is the long row of some cell of `t`. */
  ghost predicate IsMeltedCell(t: WideTable, x: LongRow)
    requires Rectangular(t) && KeysWellFormed(t)
  {
    exists i: nat, j: nat :: i < |t.rows| && j < |t.years| && x == MeltCell(t, i, j)
  }

  lemma MeltCover(t: WideTable, k: nat)
    requires Rectangular(t) && KeysWellFormed(t) && k < |Melt(t)|
    ensures IsMeltedCell(t, Melt(t)[k])
  {
    var blocks := ColumnBlocks(t);
    MeltUniform(t);
    Seqs.FlattenCover(blocks, |t.rows|, k);
    var j, i :| 0 <= j < |blocks| && 0 <= i < |t.rows| && k == Seqs.BlockStart(|t.rows|, j) + i && Melt(t)[k] == blocks[j][i];
    assert blocks[j][i] == MeltCell(t, i, j);
  }

  /** The melted table lists year column after year column (pandas' `melt`
      order): the cell in row `i`, column `j` is at position `j * |rows| + i`,
      and every position holds some cell. */
  lemma MeltLayout(t: WideTable)
    requires Rectangular(t) && KeysWellFormed(t)
    ensures |Melt(t)| == |t.rows| * |t.years|
    ensures forall i: nat, j: nat :: i < |t.rows| && j < |t.years| ==> CellAt(t, Melt(t), i, j)
    ensures forall k :: 0 <= k < |Melt(t)| ==> IsMeltedCell(t, Melt(t)[k])
  {
    MeltLength(t);
    forall i: nat, j: nat | i < |t.rows| && j < |t.years| {
      MeltIndex(t, i, j);
    }
    forall k | 0 <= k < |Melt(t)| {
      MeltCover(t, k);
    }
  }

  /** `unpivot_table`: one long row per (row, year column) pair, with the key
      split into its four fields. A key without exactly four fields is an error,
      reported for the first such row. */
  function Unpivot(t: WideTable): (r: Result<seq<LongRow>, Error>)
    requires Rectangular(t)
    ensures r.Ok? <==> KeysWellFormed(t)
    ensures r.Err? ==>
              exists i :: && 0 <= i < |t.rows|
                          && !HasFourFields(t.rows[i].key)
                          && (forall k :: 0 <= k < i ==> HasFourFields(t.rows[k].key))
                          && r.error == KeyFieldCount(t.rows[i].key, |KeyFields(t.rows[i].key)|)
    ensures r.Ok? ==> |r.value| == |t.rows| * |t.years|
    ensures r.Ok? ==>
              forall i: nat, j: nat :: i < |t.rows| && j < |t.years| ==> CellAt(t, r.value, i, j)
    ensures r.Ok? ==> forall k :: 0 <= k < |r.value| ==> IsMeltedCell(t, r.value[k])
  {
    var bad := FirstBadKey(t.rows, 0);
    if bad < |t.rows| then
      Err(KeyFieldCount(t.rows[bad].key, |KeyFields(t.rows[bad].key)|))
    else
      MeltLayout(t);
      Ok(Melt(t))
  }

  // ---------------------------------------------------------------------------
  // clean_year

  /** The cleaned form of a long row, given its parsed year. */
  function CleanRow(row: LongRow, year: int): Record {
    Record(row.unit, row.sex, row.age, row.region, year, ExtractDecimalValue(row.value))
  }

  /** `x` is `row` cleaned: the key fields copied, the year heading parsed
      by `int()`, the value replaced by the number its first numeral spells. */
  ghost predicate CleansTo(row: LongRow, x: Record) {
    && x.unit == row.unit && x.sex == row.sex && x.age == row.age && x.region == row.region
    && ParseYear(row.year) == Some(x.year)
    && x.value == ExtractDecimalValue(row.value)
  }

  /** `rows[k]` is the first row whose year heading `int()` rejects. */
  ghost predicate FirstBadYear(rows: seq<LongRow>, k: nat) {
    && k < |rows|
    && ParseYear(rows[k].year).None?
    && forall m :: 0 <= m < k ==> ParseYear(rows[m].year).Some?
  }

  /** One row of `clean_year`: its year heading parsed, its value extracted. A
      heading `int()` rejects is the error. */
  function CleanRecord(row: LongRow): (r: Result<Record, Error>)
    ensures r.Ok? <==> ParseYear(row.year).Some?
    ensures r.Ok? ==> CleansTo(row, r.value)
    ensures r.Err? ==> r.error == BadYear(row.year)
  {
    match ParseYear(row.year)
    case None => Err(BadYear(row.year))
    case Some(y) => Ok(CleanRow(row, y))
  }

  /** `clean_year`: every year heading becomes the integer it spells once
      stripped and rid of spaces, and every value becomes the number its first
      numeral spells, or null. The first heading `int()` rejects is an error.
      What the result holds is stated by the lemmas that follow. */
  function CleanYear(rows: seq<LongRow>): (r: Result<seq<Record>, Error>)
    ensures r.Ok? ==> |r.value| == |rows|
  {
    TryMap(rows, CleanRecord)
  }

  /** `clean_year` succeeds exactly when every year heading parses. */
  lemma CleanYearOk(rows: seq<LongRow>)
    ensures CleanYear(rows).Ok? <==> forall k :: 0 <= k < |rows| ==> ParseYear(rows[k].year).Some?
  {
    TryMapOk(rows, CleanRecord);
  }

  /** When `clean_year` fails, it names the first year heading that does not
      parse. */
  lemma CleanYearFirstError(rows: seq<LongRow>)
    requires CleanYear(rows).Err?
    ensures exists k: nat :: FirstBadYear(rows, k) && CleanYear(rows).error == BadYear(rows[k].year)
  {
    TryMapFirstError(rows, CleanRecord);
    var k: nat :| FirstFailure(rows, CleanRecord, k) && CleanRecord(rows[k]) == Err(CleanYear(rows).error);
    assert FirstBadYear(rows, k);
  }

  /** When `clean_year` succeeds, its `k`-th record is the `k`-th row cleaned. */
  lemma CleanYearRow(rows: seq<LongRow>, k: nat)
    requires CleanYear(rows).Ok? && k < |rows|
    ensures CleansTo(rows[k], CleanYear(rows).value[k])
  {
    TryMapAt(rows, CleanRecord, k);
  }

  /** Every value `clean_year` produces is null or a non-negative number. */
  lemma CleanYearValues(rows: seq<LongRow>)
    requires CleanYear(rows).Ok?
    ensures forall x :: x in CleanYear(rows).value ==> x.value.None? || x.value.value >= 0.0
  {
    var out := CleanYear(rows).value;
    forall k: nat | k < |out| {
      CleanYearRow(rows, k);
    }
  }

  // ---------------------------------------------------------------------------
  // drop_null_values and filter_region

  /** Whether `x` is null in `column`: only `value` can be. */
  predicate IsNull(x: Record, column: string) {
    column == "value" && x.value.None?
  }

  /** `drop_null_values`: the rows that are not null in `column`, in order. A
      column the table lacks is an error, as pandas' `KeyError`. */
  function DropNullValues(rows: seq<Record>, column: string): (r: Result<seq<Record>, Error>)
    ensures r.Ok? <==> column in Columns
    ensures r.Err? ==> r.error == UnknownColumn(column)
    ensures r.Ok? ==> forall x :: x in r.value <==> x in rows && !IsNull(x, column)
  {
    if column in Columns then Ok(Seqs.Filter(rows, x => !IsNull(x, column)))
    else Err(UnknownColumn(column))
  }

  /** `drop_null_values` keeps each row that is not null as often as it
      occurs, and in order. */
  lemma DropNullValuesCounts(rows: seq<Record>, column: string)
    requires column in Columns
    ensures forall x :: multiset(DropNullValues(rows, column).value)[x]
                        == if IsNull(x, column) then 0 else multiset(rows)[x]
    ensures Seqs.IsSubsequence(DropNullValues(rows, column).value, rows)
  {
    Seqs.FilterCounts(rows, x => !IsNull(x, column));
  }

  /** `filter_region`: the rows whose region is exactly `region`, in order. */
  function FilterRegion(rows: seq<Record>, region: string): (r: seq<Record>)
    ensures forall x :: x in r <==> x in rows && x.region == region
  {
    Seqs.Filter(rows, (x: Record) => x.region == region)
  }

  /** `filter_region` keeps each row of the region as often as it occurs, and
      in order. */
  lemma FilterRegionCounts(rows: seq<Record>, region: string)
    ensures forall x :: multiset(FilterRegion(rows, region))[x]
                        == if x.region == region then multiset(rows)[x] else 0
    ensures Seqs.IsSubsequence(FilterRegion(rows, region), rows)
  {
    Seqs.FilterCounts(rows, (x: Record) => x.region == region);
  }

  /** `drop_null_values` is a row mask: it treats the rows of a concatenation
      independently, keeping a single row exactly when it is not null. */
  lemma DropNullValuesRowwise(a: seq<Record>, b: seq<Record>, column: string)
    requires column in Columns
    ensures DropNullValues(a + b, column)
            == Ok(DropNullValues(a, column).value + DropNullValues(b, column).value)
    ensures forall x :: DropNullValues([x], column) == Ok(if IsNull(x, column) then [] else [x])
  {
    Seqs.FilterConcat(a, b, x => !IsNull(x, column));
    forall x {
      Seqs.FilterSingle(x, x => !IsNull(x, column));
    }
  }

  /** `filter_region` is a row mask: it treats the rows of a concatenation
      independently, keeping a single row exactly when its region matches. */
  lemma FilterRegionRowwise(a: seq<Record>, b: seq<Record>, region: string)
    ensures FilterRegion(a + b, region) == FilterRegion(a, region) + FilterRegion(b, region)
    ensures forall x :: FilterRegion([x], region) == if x.region == region then [x] else []
  {
    Seqs.FilterConcat(a, b, (x: Record) => x.region == region);
    forall x {
      Seqs.FilterSingle(x, (x: Record) => x.region == region);
    }
  }

  /** Filtering by region a second time changes nothing. */
  lemma {:induction false} FilterRegionIdempotent(rows: seq<Record>, region: string)
    ensures FilterRegion(FilterRegion(rows, region), region) == FilterRegion(rows, region)
  {
    Seqs.FilterIdempotent(rows, (x: Record) => x.region == region);
  }

  /** The regions left after filtering are exactly `{region}`, or none when no
      row has that region. */
  lemma FilterRegionRegions(rows: seq<Record>, region: string)
    ensures (set x | x in FilterRegion(rows, region) :: x.region)
            == if exists x :: x in rows && x.region == region then {region} else {}
  {
    var r := FilterRegion(rows, region);
    if exists x :: x in rows && x.region == region {
      var x :| x in rows && x.region == region;
      assert x in r;
    }
  }

  /** Dropping nulls and filtering by region may be done in either order. */
  lemma {:induction false} DropNullFilterRegionCommute(rows: seq<Record>, column: string, region: string)
    requires column in Columns
    ensures DropNullValues(FilterRegion(rows, region), column)
            == Ok(FilterRegion(DropNullValues(rows, column).value, region))
  {
    Seqs.FilterCommute(rows, (x: Record) => x.region == region, x => !IsNull(x, column));
  }

  // ---------------------------------------------------------------------------
  // clean_data

  /** Every year heading is an integer literal to `int()`. */
  predicate YearsParse(t: WideTable) {
    forall j :: 0 <= j < |t.years| ==> ParseYear(t.years[j]).Some?
  }

  /** Each melted row carries a year heading of `t`, so it parses when all do. */
  lemma MeltedYearParses(t: WideTable, k: nat)
    requires Rectangular(t) && KeysWellFormed(t) && YearsParse(t) && k < |Melt(t)|
    ensures ParseYear(Melt(t)[k].year).Some?
  {
    MeltCover(t, k);
    var i: nat, j: nat :| i < |t.rows| && j < |t.years| && Melt(t)[k] == MeltCell(t, i, j);
  }

  /** When every year heading parses, so does every melted row's year. */
  lemma CleanYearOfMeltOk(t: WideTable)
    requires Rectangular(t) && KeysWellFormed(t) && YearsParse(t)
    ensures CleanYear(Melt(t)).Ok?
  {
    forall k: nat | k < |Melt(t)| {
      MeltedYearParses(t, k);
    }
    CleanYearOk(Melt(t));
  }

  /** A year heading that does not parse makes `clean_year` fail once the table
      has a row, since the first row's cell under that heading carries it. */
  lemma CleanYearOfMeltFails(t: WideTable, j: nat)
    requires Rectangular(t) && KeysWellFormed(t) && |t.rows| > 0
    requires j < |t.years| && ParseYear(t.years[j]).None?
    ensures CleanYear(Melt(t)).Err?
  {
    MeltIndex(t, 0, j);
    var k := Seqs.BlockStart(|t.rows|, j) + 0;
    assert ParseYear(Melt(t)[k].year).None?;
    CleanYearOk(Melt(t));
  }

  /** `clean_year` succeeds on the melted table exactly when every year heading
      parses, or there are no rows (an empty table has no year cells to parse). */
  lemma CleanYearOfMelt(t: WideTable)
    requires Rectangular(t) && KeysWellFormed(t)
    ensures Unpivot(t) == Ok(Melt(t))
    ensures CleanYear(Melt(t)).Ok? <==> (|t.rows| > 0 ==> YearsParse(t))
  {
    if |t.rows| == 0 {
      MeltLength(t);
    } else if YearsParse(t) {
      CleanYearOfMeltOk(t);
    } else {
      var j :| 0 <= j < |t.years| && ParseYear(t.years[j]).None?;
      CleanYearOfMeltFails(t, j);
    }
  }

  /** `clean_data`: unpivot, clean year and value, drop rows null in
      `dropnaColumn`, keep the rows of `region`. The first stage that fails
      decides the error. */
  function CleanData(t: WideTable, dropnaColumn: string, region: string): (r: Result<seq<Record>, Error>)
    requires Rectangular(t)
    ensures r.Ok? <==> KeysWellFormed(t) && (|t.rows| > 0 ==> YearsParse(t)) && dropnaColumn in Columns
    ensures r.Ok? ==> forall x :: x in r.value ==> x.region == region
    ensures r.Ok? ==> forall x :: x in r.value ==> !IsNull(x, dropnaColumn)
    ensures r.Ok? && dropnaColumn == "value" ==>
              forall x :: x in r.value ==> x.value.Some? && x.value.value >= 0.0
  {
    var long :- Unpivot(t);
    CleanYearOfMelt(t);
    var cleaned :- CleanYear(long);
    CleanYearValues(long);
    var kept :- DropNullValues(cleaned, dropnaColumn);
    Ok(FilterRegion(kept, region))
  }

  /** The cleaned record of the cell in row `i`, year column `j`. */
  function Observation(t: WideTable, i: nat, j: nat): Record
    requires Rectangular(t) && i < |t.rows| && j < |t.years|
    requires HasFourFields(t.rows[i].key) && ParseYear(t.years[j]).Some?
  {
    CleanRow(MeltCell(t, i, j), ParseYear(t.years[j]).value)
  }

  /** `x` is the cleaned record of some cell of `t`. */
  ghost predicate IsObservation(t: WideTable, x: Record)
    requires Rectangular(t)
  {
    exists i: nat, j: nat :: && i < |t.rows| && j < |t.years|
                             && HasFourFields(t.rows[i].key) && ParseYear(t.years[j]).Some?
                             && x == Observation(t, i, j)
  }

  /** The `k`-th cleaned record of the melted table is the cleaned record of
      the cell the `k`-th melted row came from. */
  lemma CleanedRowIsObservation(t: WideTable, k: nat)
    requires Rectangular(t) && KeysWellFormed(t) && CleanYear(Melt(t)).Ok? && k < |Melt(t)|
    ensures IsObservation(t, CleanYear(Melt(t)).value[k])
  {
    var long := Melt(t);
    CleanYearRow(long, k);
    MeltCover(t, k);
    var i: nat, j: nat :| i < |t.rows| && j < |t.years| && long[k] == MeltCell(t, i, j);
    assert CleanYear(long).value[k] == Observation(t, i, j);
  }

  /** The cleaned record of the cell in row `i`, year column `j` is in the
      cleaned table, at the position the melt gives that cell. */
  lemma ObservationIsCleaned(t: WideTable, i: nat, j: nat)
    requires Rectangular(t) && KeysWellFormed(t) && CleanYear(Melt(t)).Ok?
    requires i < |t.rows| && j < |t.years|
    ensures ParseYear(t.years[j]).Some?
    ensures Observation(t, i, j) in CleanYear(Melt(t)).value
  {
    var long := Melt(t);
    MeltIndex(t, i, j);
    var k := Seqs.BlockStart(|t.rows|, j) + i;
    CleanYearRow(long, k);
    assert CleanYear(long).value[k] == Observation(t, i, j);
  }

  /** The cleaned, unfiltered table holds exactly the cleaned records of the
      cells of `t`. */
  lemma CleanedCells(t: WideTable)
    requires Rectangular(t) && KeysWellFormed(t) && CleanYear(Melt(t)).Ok?
    ensures forall x :: x in CleanYear(Melt(t)).value <==> IsObservation(t, x)
  {
    var cleaned := CleanYear(Melt(t)).value;
    forall k: nat | k < |cleaned| {
      CleanedRowIsObservation(t, k);
    }
    forall i: nat, j: nat | i < |t.rows| && j < |t.years| {
      ObservationIsCleaned(t, i, j);
    }
  }

  /** What `clean_data` returns, stated against the wide table: exactly the
      cleaned records of its cells that have the requested region and are not
      null in the requested column. */
  lemma CleanDataObservations(t: WideTable, dropnaColumn: string, region: string)
    requires Rectangular(t) && KeysWellFormed(t) && (|t.rows| > 0 ==> YearsParse(t)) && dropnaColumn in Columns
    ensures CleanData(t, dropnaColumn, region).Ok?
    ensures forall x :: x in CleanData(t, dropnaColumn, region).value <==>
              IsObservation(t, x) && x.region == region && !IsNull(x, dropnaColumn)
  {
    CleanYearOfMelt(t);
    CleanedCells(t);
  }
}
