/**
 * etl_category.py: Categories (NORTHWND) to Dim_Category (reporting).
 * The transform renames two columns and projects to the dimension's three
 * insertable columns; the load truncates and reloads Dim_Category.
 */
module EtlCategory {
  import opened Values
  import opened Frames
  import opened Warehouse

  /** `SELECT CategoryID, CategoryName, Description FROM Categories`. */
  const SourceColumns := ["CategoryID", "CategoryName", "Description"]

  const Renames := map["CategoryID" := "Source_CategoryID", "Description" := "CategoryDescription"]

  /** Dim_Category's insertable columns, the projection and the INSERT list alike. */
  const DimColumns := ["Source_CategoryID", "CategoryName", "CategoryDescription"]

  /** The extracted category rows, or an empty frame when extraction failed. */
  function ExtractCategories(fetched: Option<seq<Row>>): (f: Frame)
    requires fetched.Some? ==> forall i :: 0 <= i < |fetched.value| ==> |fetched.value[i]| == |SourceColumns|
    ensures Rectangular(f)
    ensures fetched.None? ==> f == Empty
    ensures fetched.Some? ==> f.columns == SourceColumns && f.rows == fetched.value
  {
    Extract(SourceColumns, fetched)
  }

  /** `transform_data`: rename, then `df[['Source_CategoryID', 'CategoryName', 'CategoryDescription']]`. */
  function TransformData(f: Frame): Result<Frame>
    requires Rectangular(f)
  {
    Select(Rename(f, Renames), DimColumns)
  }

  /** The columns the transform reads are present and none of its new labels is already taken. */
  predicate Transformable(f: Frame) {
    && "CategoryID" in f.columns && "CategoryName" in f.columns && "Description" in f.columns
    && "Source_CategoryID" !in f.columns && "CategoryDescription" !in f.columns
  }

  /** The dimension row a source row becomes. */
  function DimRow(f: Frame, i: nat): Row
    requires Rectangular(f) && i < |f.rows| && Transformable(f)
  {
    [Cell(f, i, "CategoryID"), Cell(f, i, "CategoryName"), Cell(f, i, "Description")]
  }

  /**
   * The transform keeps every row, in order, with its values, under exactly
   * the dimension's three columns.
   */
  lemma TransformDataSpec(f: Frame)
    requires Rectangular(f) && Transformable(f)
    ensures TransformData(f).Ok?
    ensures TransformData(f).value.columns == DimColumns
    ensures |TransformData(f).value.rows| == |f.rows|
    ensures forall i :: 0 <= i < |f.rows| ==> TransformData(f).value.rows[i] == DimRow(f, i)
  {
    var g := Rename(f, Renames);
    RenameCell(f, Renames, "CategoryID", "Source_CategoryID");
    RenameCell(f, Renames, "CategoryName", "CategoryName");
    RenameCell(f, Renames, "Description", "CategoryDescription");
    var h := Select(g, DimColumns).value;
    forall i | 0 <= i < |f.rows| ensures h.rows[i] == DimRow(f, i) {
      assert h.rows[i][0] == Cell(g, i, DimColumns[0]);
      assert h.rows[i][1] == Cell(g, i, DimColumns[1]);
      assert h.rows[i][2] == Cell(g, i, DimColumns[2]);
    }
  }

  /** A frame holding the extract's columns is transformed row for row into itself. */
  lemma TransformExtracted(rows: seq<Row>)
    requires forall i :: 0 <= i < |rows| ==> |rows[i]| == |SourceColumns|
    ensures TransformData(ExtractCategories(Some(rows))) == Ok(Frame(DimColumns, rows))
  {
    var f := ExtractCategories(Some(rows));
    assert Transformable(f);
    TransformDataSpec(f);
    var g := TransformData(f).value;
    IndexOfUnique(f.columns, "CategoryID", 0);
    IndexOfUnique(f.columns, "CategoryName", 1);
    IndexOfUnique(f.columns, "Description", 2);
    forall i | 0 <= i < |rows| ensures g.rows[i] == rows[i] {
      assert rows[i] == [rows[i][0], rows[i][1], rows[i][2]];
    }
    assert g.rows == rows;
  }

  /** A failed extraction makes the transform raise KeyError, so the run never reaches the load. */
  lemma TransformFailedExtract()
    ensures TransformData(ExtractCategories(None)) == Err(MissingColumn("Source_CategoryID"))
  {
    assert Rename(Empty, Renames).columns == [];
    assert DimColumns[0] in DimColumns;
  }

  /** `load_dimension_table`: skip an empty frame, else TRUNCATE, insert, commit; roll back on a database error. */
  method LoadDimensionTable(t: Table, f: Frame, faults: Faults) returns (outcome: LoadOutcome)
    requires t.Idle()
    modifies t
    ensures t.Idle()
    ensures IsEmpty(f) ==> outcome == Skipped && t.committed == old(t.committed)
    ensures outcome.Loaded? <==> Succeeds(f, DimColumns, None, faults)
    ensures outcome.Loaded? ==> t.committed == f.rows && outcome.count == |f.rows|
    ensures !outcome.Loaded? ==> t.committed == old(t.committed)
    ensures !outcome.ArityMismatch?
  {
    outcome := t.Replace(f, DimColumns, None, faults);
  }

  /** The script's `__main__`: extract, transform, load. */
  method Run(t: Table, fetched: Option<seq<Row>>, faults: Faults) returns (r: RunOutcome)
    requires fetched.Some? ==> forall i :: 0 <= i < |fetched.value| ==> |fetched.value[i]| == |SourceColumns|
    requires t.Idle()
    modifies t
    ensures t.Idle()
    ensures fetched.None? ==> r == TransformFailed(MissingColumn("Source_CategoryID")) && t.committed == old(t.committed)
    ensures r.Finished? && r.load.Loaded? ==> t.committed == fetched.value
    ensures fetched.Some? && fetched.value != [] && faults == Faults(false, false, false) ==>
              r == Finished(Loaded(|fetched.value|)) && t.committed == fetched.value
    ensures !(r.Finished? && r.load.Loaded?) ==> t.committed == old(t.committed)
  {
    var f := ExtractCategories(fetched);
    if fetched.Some? {
      TransformExtracted(fetched.value);
    } else {
      TransformFailedExtract();
    }
    var transformed := TransformData(f);
    match transformed {
      case Err(e) =>
        r := TransformFailed(e);
      case Ok(g) =>
        var outcome := LoadDimensionTable(t, g, faults);
        r := Finished(outcome);
    }
  }
}
