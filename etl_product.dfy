/**
 * etl_product.py: Products (NORTHWND) to Dim_Product (reporting).
 * The transform renames the three source ids, coerces the product id and the
 * unit price to numbers, and projects to the dimension's eight insertable
 * columns; the load deletes and reloads Dim_Product.
 */
module EtlProduct {
  import opened Values
  import opened Frames
  import opened Warehouse

  /** The select list of the extract query on Products. */
  const SourceColumns := ["ProductID", "ProductName", "SupplierID", "CategoryID",
                          "QuantityPerUnit", "UnitPrice", "UnitsInStock", "Discontinued"]

  const Renames := map["ProductID" := "Source_ProductID",
                       "SupplierID" := "Source_SupplierID",
                       "CategoryID" := "Source_CategoryID"]

  /** Dim_Product's insertable columns, the projection and the INSERT list alike. */
  const DimColumns := ["Source_ProductID", "ProductName", "Source_SupplierID", "Source_CategoryID",
                       "QuantityPerUnit", "UnitPrice", "UnitsInStock", "Discontinued"]

  /** The extracted product rows, or an empty frame when extraction failed. */
  function ExtractProducts(fetched: Option<seq<Row>>): (f: Frame)
    requires fetched.Some? ==> forall i :: 0 <= i < |fetched.value| ==> |fetched.value[i]| == |SourceColumns|
    ensures Rectangular(f)
    ensures fetched.None? ==> f == Empty
    ensures fetched.Some? ==> f.columns == SourceColumns && f.rows == fetched.value
  {
    Extract(SourceColumns, fetched)
  }

  /** `pd.to_numeric(column, errors='coerce')`: never fails, numbers unchanged, the rest coerced. */
  function CoerceColumn(vs: seq<Value>): (r: seq<Value>)
    ensures |r| == |vs|
    ensures forall i :: 0 <= i < |vs| ==> r[i] == ToNumeric(vs[i])
  {
    seq(|vs|, i requires 0 <= i < |vs| => ToNumeric(vs[i]))
  }

  /** `.astype('Int64')` on a column: every cell cast, or the first cell that cannot be raises. */
  function CastColumn(vs: seq<Value>): (r: Result<seq<Value>>)
    ensures r.Ok? <==> forall i :: 0 <= i < |vs| ==> CastInt64(vs[i]).Ok?
    ensures r.Ok? ==> |r.value| == |vs| && forall i :: 0 <= i < |vs| ==> r.value[i] == CastInt64(vs[i]).value
    ensures r.Err? ==> exists i :: 0 <= i < |vs| && CastInt64(vs[i]) == Err(r.error)
  {
    if vs == [] then Ok([])
    else
      var head :- CastInt64(vs[0]);
      var tail :- CastColumn(vs[1..]);
      assert forall i :: 1 <= i < |vs| ==> vs[i] == vs[1..][i - 1];
      Ok([head] + tail)
  }

  /**
   * `df['Source_ProductID'] = pd.to_numeric(..., errors='coerce').astype('Int64')`:
   * the id column becomes nullable integers; every other cell is untouched.
   */
  function CoerceIds(g: Frame): (r: Result<Frame>)
    requires Rectangular(g)
    ensures "Source_ProductID" !in g.columns ==> r == Err(MissingColumn("Source_ProductID"))
    ensures r.Ok? ==> Rectangular(r.value) && r.value.columns == g.columns && |r.value.rows| == |g.rows|
    ensures r.Ok? ==> forall i :: 0 <= i < |g.rows| ==>
              CastInt64(ToNumeric(Cell(g, i, "Source_ProductID"))) == Ok(Cell(r.value, i, "Source_ProductID"))
    ensures r.Ok? ==> forall i, m :: 0 <= i < |g.rows| && m in g.columns && m != "Source_ProductID" ==>
              Cell(r.value, i, m) == Cell(g, i, m)
    ensures "Source_ProductID" in g.columns ==>
              (r.Ok? <==> forall i :: 0 <= i < |g.rows| ==> CastInt64(ToNumeric(Cell(g, i, "Source_ProductID"))).Ok?)
    ensures r.Err? && "Source_ProductID" in g.columns ==> r.error == LossyCast
  {
    var ids :- Column(g, "Source_ProductID");
    var castIds :- CastColumn(CoerceColumn(ids));
    Ok(Assign(g, "Source_ProductID", castIds))
  }

  /**
   * `df['UnitPrice'] = pd.to_numeric(df['UnitPrice'], errors='coerce')`:
   * never fails on a frame that has the column; every other cell is untouched.
   */
  function CoercePrices(g: Frame): (r: Result<Frame>)
    requires Rectangular(g)
    ensures r.Ok? <==> "UnitPrice" in g.columns
    ensures r.Err? ==> r.error == MissingColumn("UnitPrice")
    ensures r.Ok? ==> Rectangular(r.value) && r.value.columns == g.columns && |r.value.rows| == |g.rows|
    ensures r.Ok? ==> forall i :: 0 <= i < |g.rows| ==> Cell(r.value, i, "UnitPrice") == ToNumeric(Cell(g, i, "UnitPrice"))
    ensures r.Ok? ==> forall i, m :: 0 <= i < |g.rows| && m in g.columns && m != "UnitPrice" ==>
              Cell(r.value, i, m) == Cell(g, i, m)
  {
    var prices :- Column(g, "UnitPrice");
    Ok(Assign(g, "UnitPrice", CoerceColumn(prices)))
  }

  /** The renamed frame with its id and price columns coerced. */
  function Coerced(f: Frame): Result<Frame>
    requires Rectangular(f)
  {
    var withIds :- CoerceIds(Rename(f, Renames));
    CoercePrices(withIds)
  }

  /** `transform_data`: rename the ids, coerce the id and the price, project to Dim_Product's columns. */
  function TransformData(f: Frame): Result<Frame>
    requires Rectangular(f)
  {
    var coerced :- Coerced(f);
    Select(coerced, DimColumns)
  }

  /** The columns the transform reads are present and none of its new labels is already taken. */
  predicate Transformable(f: Frame) {
    && "ProductID" in f.columns && "ProductName" in f.columns && "SupplierID" in f.columns
    && "CategoryID" in f.columns && "QuantityPerUnit" in f.columns && "UnitPrice" in f.columns
    && "UnitsInStock" in f.columns && "Discontinued" in f.columns
    && "Source_ProductID" !in f.columns && "Source_SupplierID" !in f.columns && "Source_CategoryID" !in f.columns
  }

  /** Where the rename sends each label. */
  lemma RenameTargets(c: string)
    ensures NewName(Renames, c) ==
      if c == "ProductID" then "Source_ProductID"
      else if c == "SupplierID" then "Source_SupplierID"
      else if c == "CategoryID" then "Source_CategoryID"
      else c
  {
  }

  /** A label the rename does not produce from another label keeps its cells. */
  lemma KeepsCell(f: Frame, a: string)
    requires Rectangular(f) && Transformable(f) && a in f.columns
    requires a != "ProductID" && a != "SupplierID" && a != "CategoryID"
    requires a != "Source_ProductID" && a != "Source_SupplierID" && a != "Source_CategoryID"
    ensures a in Rename(f, Renames).columns
    ensures forall i :: 0 <= i < |f.rows| ==> Cell(Rename(f, Renames), i, a) == Cell(f, i, a)
  {
    forall c | c in f.columns && NewName(Renames, c) == a ensures c == a {
      RenameTargets(c);
    }
    RenameCell(f, Renames, a, a);
  }

  /** A renamed id carries its old cells under its new label. */
  lemma MovesCell(f: Frame, a: string, b: string)
    requires Rectangular(f) && Transformable(f) && a in f.columns
    requires a in Renames && Renames[a] == b
    ensures b in Rename(f, Renames).columns
    ensures forall i :: 0 <= i < |f.rows| ==> Cell(Rename(f, Renames), i, b) == Cell(f, i, a)
  {
    forall c | c in f.columns && NewName(Renames, c) == b ensures c == a {
      RenameTargets(c);
    }
    RenameCell(f, Renames, a, b);
  }

  /** The nullable integer a product id cell becomes, when it can become one. */
  function ProductKeyOf(v: Value): Result<Value> {
    CastInt64(ToNumeric(v))
  }

  predicate IdsCastable(f: Frame)
    requires Rectangular(f) && Transformable(f)
  {
    forall i :: 0 <= i < |f.rows| ==> ProductKeyOf(Cell(f, i, "ProductID")).Ok?
  }

  /** The dimension row a source row becomes. */
  function DimRow(f: Frame, i: nat): Row
    requires Rectangular(f) && i < |f.rows| && Transformable(f) && IdsCastable(f)
  {
    [ ProductKeyOf(Cell(f, i, "ProductID")).value,
      Cell(f, i, "ProductName"),
      Cell(f, i, "SupplierID"),
      Cell(f, i, "CategoryID"),
      Cell(f, i, "QuantityPerUnit"),
      ToNumeric(Cell(f, i, "UnitPrice")),
      Cell(f, i, "UnitsInStock"),
      Cell(f, i, "Discontinued") ]
  }

  /** Every source label except the product id, the price and the renamed ids keeps its cells through the rename. */
  lemma RenamedCells(f: Frame)
    requires Rectangular(f) && Transformable(f)
    ensures var g := Rename(f, Renames);
      && Rectangular(g)
      && (forall c :: c in DimColumns ==> c in g.columns)
      && (forall i :: 0 <= i < |f.rows| ==>
            && Cell(g, i, "Source_ProductID") == Cell(f, i, "ProductID")
            && Cell(g, i, "ProductName") == Cell(f, i, "ProductName")
            && Cell(g, i, "Source_SupplierID") == Cell(f, i, "SupplierID")
            && Cell(g, i, "Source_CategoryID") == Cell(f, i, "CategoryID")
            && Cell(g, i, "QuantityPerUnit") == Cell(f, i, "QuantityPerUnit")
            && Cell(g, i, "UnitPrice") == Cell(f, i, "UnitPrice")
            && Cell(g, i, "UnitsInStock") == Cell(f, i, "UnitsInStock")
            && Cell(g, i, "Discontinued") == Cell(f, i, "Discontinued"))
  {
    MovesCell(f, "ProductID", "Source_ProductID");
    KeepsCell(f, "ProductName");
    MovesCell(f, "SupplierID", "Source_SupplierID");
    MovesCell(f, "CategoryID", "Source_CategoryID");
    KeepsCell(f, "QuantityPerUnit");
    KeepsCell(f, "UnitPrice");
    KeepsCell(f, "UnitsInStock");
    KeepsCell(f, "Discontinued");
  }

  /** The coercions keep the renamed frame's shape, and so every one of Dim_Product's labels. */
  lemma CoercedSpec(f: Frame)
    requires Rectangular(f) && Transformable(f) && IdsCastable(f)
    ensures Coerced(f).Ok? && Rectangular(Coerced(f).value) && |Coerced(f).value.rows| == |f.rows|
    ensures forall c :: c in DimColumns ==> c in Coerced(f).value.columns
  {
    var renamed := Rename(f, Renames);
    RenamedCells(f);
    RenamedLabels(renamed);
    assert forall i :: 0 <= i < |renamed.rows| ==> ProductKeyOf(Cell(renamed, i, "Source_ProductID")).Ok?;
    var withIds := CoerceIds(renamed).value;
    assert withIds.columns == renamed.columns;
    assert Coerced(f) == CoercePrices(withIds);
  }

  /** Row `i` of the coerced frame, label by label. */
  lemma CoercedRow(f: Frame, i: nat)
    requires Rectangular(f) && Transformable(f) && IdsCastable(f) && i < |f.rows|
    ensures Coerced(f).Ok?
    ensures var w := Coerced(f).value;
      && Cell(w, i, "Source_ProductID") == ProductKeyOf(Cell(f, i, "ProductID")).value
      && Cell(w, i, "ProductName") == Cell(f, i, "ProductName")
      && Cell(w, i, "Source_SupplierID") == Cell(f, i, "SupplierID")
      && Cell(w, i, "Source_CategoryID") == Cell(f, i, "CategoryID")
      && Cell(w, i, "QuantityPerUnit") == Cell(f, i, "QuantityPerUnit")
      && Cell(w, i, "UnitPrice") == ToNumeric(Cell(f, i, "UnitPrice"))
      && Cell(w, i, "UnitsInStock") == Cell(f, i, "UnitsInStock")
      && Cell(w, i, "Discontinued") == Cell(f, i, "Discontinued")
  {
    var renamed := Rename(f, Renames);
    RenamedCells(f);
    var withIds := CoerceIds(renamed).value;
    var w := CoercePrices(withIds).value;
    RenamedLabels(renamed);
    assert Cell(w, i, "ProductName") == Cell(withIds, i, "ProductName") == Cell(renamed, i, "ProductName");
    assert Cell(w, i, "Source_SupplierID") == Cell(withIds, i, "Source_SupplierID");
    assert Cell(withIds, i, "Source_SupplierID") == Cell(renamed, i, "Source_SupplierID");
    assert Cell(w, i, "Source_CategoryID") == Cell(withIds, i, "Source_CategoryID");
    assert Cell(withIds, i, "Source_CategoryID") == Cell(renamed, i, "Source_CategoryID");
    assert Cell(w, i, "QuantityPerUnit") == Cell(withIds, i, "QuantityPerUnit");
    assert Cell(withIds, i, "QuantityPerUnit") == Cell(renamed, i, "QuantityPerUnit");
    assert Cell(withIds, i, "UnitPrice") == Cell(renamed, i, "UnitPrice");
    assert Cell(w, i, "UnitsInStock") == Cell(withIds, i, "UnitsInStock") == Cell(renamed, i, "UnitsInStock");
    assert Cell(w, i, "Discontinued") == Cell(withIds, i, "Discontinued") == Cell(renamed, i, "Discontinued");
    assert Cell(w, i, "Source_ProductID") == Cell(withIds, i, "Source_ProductID");
  }

  /** Each of Dim_Product's labels is a column of a frame that has them all. */
  lemma RenamedLabels(g: Frame)
    requires forall c :: c in DimColumns ==> c in g.columns
    ensures "Source_ProductID" in g.columns && "ProductName" in g.columns
    ensures "Source_SupplierID" in g.columns && "Source_CategoryID" in g.columns
    ensures "QuantityPerUnit" in g.columns && "UnitPrice" in g.columns
    ensures "UnitsInStock" in g.columns && "Discontinued" in g.columns
  {
    DimColumnsAt();
    assert DimColumns[0] in DimColumns && DimColumns[1] in DimColumns;
    assert DimColumns[2] in DimColumns && DimColumns[3] in DimColumns;
    assert DimColumns[4] in DimColumns && DimColumns[5] in DimColumns;
    assert DimColumns[6] in DimColumns && DimColumns[7] in DimColumns;
  }

  lemma DimColumnsAt()
    ensures |DimColumns| == 8
    ensures DimColumns[0] == "Source_ProductID" && DimColumns[1] == "ProductName"
    ensures DimColumns[2] == "Source_SupplierID" && DimColumns[3] == "Source_CategoryID"
    ensures DimColumns[4] == "QuantityPerUnit" && DimColumns[5] == "UnitPrice"
    ensures DimColumns[6] == "UnitsInStock" && DimColumns[7] == "Discontinued"
  {
  }

  /**
   * The transform keeps every row, in order, under exactly Dim_Product's eight
   * columns: the ids are renamed with their values, the product id and the
   * price are coerced, every other value is unchanged.
   */
  lemma TransformDataSpec(f: Frame)
    requires Rectangular(f) && Transformable(f) && IdsCastable(f)
    ensures TransformData(f).Ok?
    ensures TransformData(f).value.columns == DimColumns
    ensures |TransformData(f).value.rows| == |f.rows|
    ensures forall i :: 0 <= i < |f.rows| ==> TransformData(f).value.rows[i] == DimRow(f, i)
  {
    CoercedSpec(f);
    forall i | 0 <= i < |f.rows| ensures TransformData(f).value.rows[i] == DimRow(f, i) {
      TransformDataRow(f, i);
    }
  }

  lemma TransformDataRow(f: Frame, i: nat)
    requires Rectangular(f) && Transformable(f) && IdsCastable(f) && i < |f.rows|
    ensures TransformData(f).Ok? && TransformData(f).value.rows[i] == DimRow(f, i)
  {
    CoercedSpec(f);
    CoercedRow(f, i);
    DimColumnsAt();
    var w := Coerced(f).value;
    assert TransformData(f) == Select(w, DimColumns);
    var row := Select(w, DimColumns).value.rows[i];
    assert row[0] == Cell(w, i, "Source_ProductID");
    assert row[1] == Cell(w, i, "ProductName");
    assert row[2] == Cell(w, i, "Source_SupplierID");
    assert row[3] == Cell(w, i, "Source_CategoryID");
    assert row[4] == Cell(w, i, "QuantityPerUnit");
    assert row[5] == Cell(w, i, "UnitPrice");
    assert row[6] == Cell(w, i, "UnitsInStock");
    assert row[7] == Cell(w, i, "Discontinued");
    EightCells(row);
  }

  /** An eight-cell row is the list of its cells. */
  lemma EightCells(row: Row)
    requires |row| == 8
    ensures row == [row[0], row[1], row[2], row[3], row[4], row[5], row[6], row[7]]
  {
  }

  /** Only a product id that coerces to a number with a fractional part fails the Int64 cast. */
  lemma ProductKeyFailsOnFraction(v: Value)
    ensures ProductKeyOf(v).Err? <==> IsNumeric(ToNumeric(v)) && AsReal(ToNumeric(v)) != AsReal(ToNumeric(v)).Floor as real
  {
  }

  /** A product id the Int64 cast cannot take makes the whole transform raise. */
  lemma TransformRejectsUncastableId(f: Frame, i: nat)
    requires Rectangular(f) && Transformable(f) && i < |f.rows|
    requires ProductKeyOf(Cell(f, i, "ProductID")).Err?
    ensures TransformData(f) == Err(LossyCast)
  {
    var renamed := Rename(f, Renames);
    RenamedCells(f);
    assert CoerceIds(renamed) == Err(LossyCast);
    assert Coerced(f) == Err(LossyCast);
  }

  /** An extracted batch with an id that does not cast makes the transform raise. */
  lemma TransformRejectsUncastableRows(rows: seq<Row>)
    requires forall i :: 0 <= i < |rows| ==> |rows[i]| == |SourceColumns|
    requires !RowsCastable(rows)
    ensures TransformData(ExtractProducts(Some(rows))) == Err(LossyCast)
  {
    var f := ExtractProducts(Some(rows));
    var i :| 0 <= i < |rows| && ProductKeyOf(rows[i][0]).Err?;
    ExtractedTransformable(rows);
    assert Cell(f, i, "ProductID") == rows[i][0];
    TransformRejectsUncastableId(f, i);
  }

  predicate RowsCastable(rows: seq<Row>)
    requires forall i :: 0 <= i < |rows| ==> |rows[i]| == |SourceColumns|
  {
    forall i :: 0 <= i < |rows| ==> ProductKeyOf(rows[i][0]).Ok?
  }

  /** The dimension row an extracted product row becomes. */
  function DimRowOf(row: Row): Row
    requires |row| == |SourceColumns| && ProductKeyOf(row[0]).Ok?
  {
    [ProductKeyOf(row[0]).value, row[1], row[2], row[3], row[4], ToNumeric(row[5]), row[6], row[7]]
  }

  /** The extract's columns are what the transform reads, each at its own position. */
  lemma ExtractedTransformable(rows: seq<Row>)
    requires forall i :: 0 <= i < |rows| ==> |rows[i]| == |SourceColumns|
    ensures Transformable(ExtractProducts(Some(rows)))
    ensures IndexOf(SourceColumns, "ProductID") == 0 && IndexOf(SourceColumns, "ProductName") == 1
    ensures IndexOf(SourceColumns, "SupplierID") == 2 && IndexOf(SourceColumns, "CategoryID") == 3
    ensures IndexOf(SourceColumns, "QuantityPerUnit") == 4 && IndexOf(SourceColumns, "UnitPrice") == 5
    ensures IndexOf(SourceColumns, "UnitsInStock") == 6 && IndexOf(SourceColumns, "Discontinued") == 7
  {
    SourcePositions();
    SourceLabels();
  }

  lemma SourcePositions()
    ensures IndexOf(SourceColumns, "ProductID") == 0 && IndexOf(SourceColumns, "ProductName") == 1
    ensures IndexOf(SourceColumns, "SupplierID") == 2 && IndexOf(SourceColumns, "CategoryID") == 3
    ensures IndexOf(SourceColumns, "QuantityPerUnit") == 4 && IndexOf(SourceColumns, "UnitPrice") == 5
    ensures IndexOf(SourceColumns, "UnitsInStock") == 6 && IndexOf(SourceColumns, "Discontinued") == 7
  {
  }

  lemma SourceLabels()
    ensures Transformable(Frame(SourceColumns, []))
  {
  }

  /** Each source label of an extracted frame reads its own position of the fetched row. */
  lemma ExtractedCells(rows: seq<Row>, i: nat)
    requires forall i :: 0 <= i < |rows| ==> |rows[i]| == |SourceColumns|
    requires i < |rows|
    ensures Transformable(ExtractProducts(Some(rows)))
    ensures var f := ExtractProducts(Some(rows));
      && Cell(f, i, "ProductID") == rows[i][0] && Cell(f, i, "ProductName") == rows[i][1]
      && Cell(f, i, "SupplierID") == rows[i][2] && Cell(f, i, "CategoryID") == rows[i][3]
      && Cell(f, i, "QuantityPerUnit") == rows[i][4] && Cell(f, i, "UnitPrice") == rows[i][5]
      && Cell(f, i, "UnitsInStock") == rows[i][6] && Cell(f, i, "Discontinued") == rows[i][7]
  {
    ExtractedTransformable(rows);
  }

  lemma ExtractedIdsCastable(rows: seq<Row>)
    requires forall i :: 0 <= i < |rows| ==> |rows[i]| == |SourceColumns|
    requires RowsCastable(rows)
    ensures Transformable(ExtractProducts(Some(rows))) && IdsCastable(ExtractProducts(Some(rows)))
  {
    ExtractedTransformable(rows);
    var f := ExtractProducts(Some(rows));
    forall k | 0 <= k < |f.rows| ensures ProductKeyOf(Cell(f, k, "ProductID")).Ok? {
      ExtractedCells(rows, k);
    }
  }

  /** On an extracted frame, the dimension row of row `i` is that row with its id and price rewritten. */
  lemma DimRowExtracted(rows: seq<Row>, i: nat)
    requires forall i :: 0 <= i < |rows| ==> |rows[i]| == |SourceColumns|
    requires RowsCastable(rows) && i < |rows|
    ensures Transformable(ExtractProducts(Some(rows))) && IdsCastable(ExtractProducts(Some(rows)))
    ensures DimRow(ExtractProducts(Some(rows)), i) == DimRowOf(rows[i])
  {
    ExtractedIdsCastable(rows);
    ExtractedCells(rows, i);
  }

  /** On the extract's columns the transform rewrites the id and price positions of each row and nothing else. */
  lemma TransformExtracted(rows: seq<Row>)
    requires forall i :: 0 <= i < |rows| ==> |rows[i]| == |SourceColumns|
    requires RowsCastable(rows)
    ensures var r := TransformData(ExtractProducts(Some(rows)));
      && r.Ok? && r.value.columns == DimColumns && |r.value.rows| == |rows|
      && forall i :: 0 <= i < |rows| ==> r.value.rows[i] == DimRowOf(rows[i])
  {
    var f := ExtractProducts(Some(rows));
    ExtractedIdsCastable(rows);
    TransformDataSpec(f);
    forall i | 0 <= i < |rows| ensures TransformData(f).value.rows[i] == DimRowOf(rows[i]) {
      DimRowExtracted(rows, i);
    }
  }

  /** A failed extraction makes the transform raise KeyError, so the run never reaches the load. */
  lemma TransformFailedExtract()
    ensures TransformData(ExtractProducts(None)) == Err(MissingColumn("Source_ProductID"))
  {
    assert Rename(Empty, Renames).columns == [];
  }

  /** `load_dimension_table`: skip an empty frame, else DELETE, insert, commit; roll back on a database error. */
  method LoadDimensionTable(t: Table, f: Frame, faults: Faults) returns (outcome: LoadOutcome)
    requires t.Idle()
    modifies t
    ensures t.Idle()
    ensures IsEmpty(f) ==> outcome == Skipped && t.committed == old(t.committed)
    ensures outcome.Loaded? <==> Succeeds(f, DimColumns, None, faults)
    ensures outcome.Loaded? ==> t.committed == f.rows && outcome.count == |f.rows|
    ensures !outcome.Loaded? ==> t.committed == old(t.committed)
    ensures !outcome.ArityMismatch?
  {
    outcome := t.Replace(f, DimColumns, None, faults);
  }

  /** The script's `__main__`: extract, transform, load. */
  method Run(t: Table, fetched: Option<seq<Row>>, faults: Faults) returns (r: RunOutcome)
    requires fetched.Some? ==> forall i :: 0 <= i < |fetched.value| ==> |fetched.value[i]| == |SourceColumns|
    requires t.Idle()
    modifies t
    ensures t.Idle()
    ensures fetched.None? ==> r == TransformFailed(MissingColumn("Source_ProductID")) && t.committed == old(t.committed)
    ensures fetched.Some? && !RowsCastable(fetched.value) ==>
              r == TransformFailed(LossyCast) && t.committed == old(t.committed)
    ensures r.Finished? && r.load.Loaded? ==>
              && fetched.Some? && RowsCastable(fetched.value)
              && |t.committed| == |fetched.value|
              && forall i :: 0 <= i < |fetched.value| ==> t.committed[i] == DimRowOf(fetched.value[i])
    ensures fetched.Some? && RowsCastable(fetched.value) && fetched.value != [] && faults == Faults(false, false, false) ==>
              r == Finished(Loaded(|fetched.value|))
    ensures !(r.Finished? && r.load.Loaded?) ==> t.committed == old(t.committed)
  {
    var f := ExtractProducts(fetched);
    if fetched.Some? && RowsCastable(fetched.value) {
      TransformExtracted(fetched.value);
    } else if fetched.Some? {
      TransformRejectsUncastableRows(fetched.value);
    } else {
      TransformFailedExtract();
    }
    var transformed := TransformData(f);
    match transformed {
      case Err(e) =>
        r := TransformFailed(e);
      case Ok(g) =>
        var outcome := LoadDimensionTable(t, g, faults);
        r := Finished(outcome);
    }
  }
}
