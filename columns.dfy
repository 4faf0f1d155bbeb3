/** The column projection `selected_columns` and the table that
    `pd.DataFrame(results)[selected_columns]` makes of the records. */
module Columns {
  import opened Wrappers
  import opened Links
  import opened Verification
  import opened Toggles
  import opened Records

  /** `selected_columns`: the four fixed columns, then the enabled sites'
      URL columns, then their title columns, both in toggle order. */
  function SelectedColumns(t: Toggles): seq<Column> {
    ColumnsFor(Enabled(t))
  }

  /** The columns for a list of enabled sites. */
  function ColumnsFor(e: seq<Site>): seq<Column> {
    FixedColumns
      + seq(|e|, i requires 0 <= i < |e| => SiteUrl(e[i]))
      + seq(|e|, i requires 0 <= i < |e| => SiteTitle(e[i]))
  }

  /** The header texts of a column list. */
  function ColumnNames(cols: seq<Column>): (r: seq<string>)
    ensures |r| == |cols| && forall i :: 0 <= i < |cols| ==> r[i] == cols[i].Name()
  {
    seq(|cols|, i requires 0 <= i < |cols| => cols[i].Name())
  }

  /** `names` is laid out as `Movie Name`, `Release Year`, `IMDb`, `IMDb ID`,
      then the names of the sites `e`, then the same names followed by
      ` Title`: 4 + 2n names in all. */
  ghost predicate HeaderLayout(names: seq<string>, e: seq<Site>) {
    && |names| == 4 + 2 * |e|
    && names[..4] == ["Movie Name", "Release Year", "IMDb", "IMDb ID"]
    && forall i :: 0 <= i < |e| ==> names[4 + i] == e[i].Name() && names[4 + |e| + i] == e[i].Name() + " Title"
  }

  /** As header texts, the selection is `Movie Name`, `Release Year`, `IMDb`,
      `IMDb ID`, then the n enabled site names in toggle order, then the same
      names followed by ` Title`. */
  lemma SelectedColumnNames(t: Toggles)
    ensures HeaderLayout(ColumnNames(SelectedColumns(t)), Enabled(t))
  {
    ColumnsForNames(Enabled(t));
  }

  /** The header layout of the columns for any list of sites. */
  lemma ColumnsForNames(e: seq<Site>)
    ensures HeaderLayout(ColumnNames(ColumnsFor(e)), e)
  {
    var cols := ColumnsFor(e);
    var names := ColumnNames(cols);
    FixedColumnNames();
    assert cols[..4] == FixedColumns;
    assert names[..4] == ColumnNames(FixedColumns);
    forall i | 0 <= i < |e|
      ensures names[4 + i] == e[i].Name() && names[4 + |e| + i] == e[i].Name() + " Title"
    {
      assert cols[4 + i] == SiteUrl(e[i]);
      assert cols[4 + |e| + i] == SiteTitle(e[i]);
    }
  }

  lemma FixedColumnNames()
    ensures ColumnNames(FixedColumns) == ["Movie Name", "Release Year", "IMDb", "IMDb ID"]
  {
  }

  /** No column is selected twice, not even under the same header text. */
  lemma SelectedColumnsDistinct(t: Toggles)
    requires ValidToggles(t)
    ensures Distinct(ColumnNames(SelectedColumns(t)))
  {
    var e := Enabled(t);
    var cols := SelectedColumns(t);
    var names := ColumnNames(cols);
    EnabledDistinct(t);
    forall i, j | 0 <= i < j < |names| ensures names[i] != names[j] {
      if 4 <= i < 4 + |e| && j < 4 + |e| {
        assert e[i - 4] != e[j - 4];
      } else if 4 + |e| <= i {
        assert e[i - 4 - |e|] != e[j - 4 - |e|];
      }
      assert cols[i] != cols[j];
      if names[i] == names[j] {
        ColumnNameInjective(cols[i], cols[j]);
      }
    }
  }

  /** The selection lists the fixed columns and, for each enabled site,
      its URL column and its title column, and nothing else. */
  lemma SelectedColumnsSet(e: seq<Site>)
    ensures (set c | c in ColumnsFor(e)) ==
      (set c | c in FixedColumns) + (set s | s in e :: SiteUrl(s)) + (set s | s in e :: SiteTitle(s))
  {
    var cols := ColumnsFor(e);
    var urls := set s | s in e :: SiteUrl(s);
    var titles := set s | s in e :: SiteTitle(s);
    forall c | c in urls + titles ensures c in cols {
      var s :| s in e && (c == SiteUrl(s) || c == SiteTitle(s));
      var k :| 0 <= k < |e| && e[k] == s;
      assert cols[4 + k] == SiteUrl(s);
      assert cols[4 + |e| + k] == SiteTitle(s);
    }
    forall c | c in cols ensures c in FixedColumns || c in urls || c in titles {
      var i :| 0 <= i < |cols| && cols[i] == c;
      if 4 <= i < 4 + |e| {
        assert c == SiteUrl(e[i - 4]);
      } else if 4 + |e| <= i {
        assert c == SiteTitle(e[i - 4 - |e|]);
      }
    }
  }

  /** Every record has exactly the selected columns as its keys, so the
      projection neither drops nor invents a column. */
  lemma SelectedColumnsAreRecordKeys(row: Row, t: Toggles, search: Search, web: Web)
    ensures (set c | c in SelectedColumns(t)) == RowRecord(row, t, search, web).Keys
  {
    RowRecordKeys(row, t, search, web);
    SelectedColumnsSet(Enabled(t));
  }

  /** The columns of `pd.DataFrame(records)`: every key of every record. */
  function FrameColumns(records: seq<Record>): set<Column> {
    set i, k | 0 <= i < |records| && k in records[i] :: k
  }

  /** The requested columns the frame lacks, in request order. */
  function MissingColumns(columns: seq<Column>, frame: set<Column>): (r: seq<Column>)
    ensures r == [] <==> forall c :: c in columns ==> c in frame
  {
    if columns == [] then []
    else (if columns[0] in frame then [] else [columns[0]]) + MissingColumns(columns[1..], frame)
  }

  /** `frame[columns]`: a `KeyError` naming the missing columns, or one row
      per record with the record's value under each column (`NaN` where the
      record lacks it). */
  function Project(records: seq<Record>, columns: seq<Column>): (r: Result<seq<seq<Cell>>, seq<Column>>)
    ensures r.Ok? <==> forall c :: c in columns ==> c in FrameColumns(records)
    ensures r.Ok? ==> (|r.value| == |records| &&
                       forall i :: 0 <= i < |records| ==> |r.value[i]| == |columns|)
  {
    var missing := MissingColumns(columns, FrameColumns(records));
    if missing != [] then Err(missing)
    else Ok(ProjectedRows(records, columns))
  }

  /** One row per record, one cell per column, `NaN` where the record lacks
      the column. */
  function ProjectedRows(records: seq<Record>, columns: seq<Column>): (r: seq<seq<Cell>>)
    ensures |r| == |records|
    ensures forall i :: 0 <= i < |records| ==> |r[i]| == |columns|
  {
    seq(|records|, i requires 0 <= i < |records| =>
      seq(|columns|, j requires 0 <= j < |columns| =>
        if columns[j] in records[i] then records[i][columns[j]] else Missing))
  }

  /** Projecting records that all hold every requested column (and at least
      one column is requested) succeeds exactly when there is at least one
      record, and then each cell is the record's own value. */
  lemma ProjectCompleteRecords(records: seq<Record>, cols: seq<Column>)
    requires |cols| > 0
    requires forall i, c :: 0 <= i < |records| && c in cols ==> c in records[i]
    ensures Project(records, cols).Ok? <==> |records| > 0
    ensures Project(records, cols).Ok? ==>
      forall i, j :: 0 <= i < |records| && 0 <= j < |cols| ==>
        cols[j] in records[i] && Project(records, cols).value[i][j] == records[i][cols[j]]
  {
    if |records| > 0 {
      forall c | c in cols ensures c in FrameColumns(records) {
        assert c in records[0];
      }
      var table := ProjectedRows(records, cols);
      assert Project(records, cols) == Ok(table);
      forall i, j | 0 <= i < |records| && 0 <= j < |cols|
        ensures cols[j] in records[i] && table[i][j] == records[i][cols[j]]
      {
        assert cols[j] in cols;
      }
    } else {
      assert FrameColumns(records) == {};
      assert cols[0] in cols;
    }
  }

  /** Every record the loop builds holds every selected column, so the
      table never needs a `NaN` fill. */
  lemma RecordsHoldSelectedColumns(records: seq<Record>, rows: seq<Row>, t: Toggles, search: Search, web: Web)
    requires |records| == |rows|
    requires forall i :: 0 <= i < |rows| ==> records[i] == RowRecord(rows[i], t, search, web)
    ensures forall i, c :: 0 <= i < |records| && c in SelectedColumns(t) ==> c in records[i]
  {
    var cols := SelectedColumns(t);
    forall i, col | 0 <= i < |records| && col in cols ensures col in records[i] {
      SelectedColumnsAreRecordKeys(rows[i], t, search, web);
      assert col in (set c | c in cols);
    }
  }
}
