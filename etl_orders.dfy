/**
 * etl_orders.py: order details (NORTHWND) to Fact_OrderMetrics (reporting).
 * The transform derives ExtendedPrice, drops UnitPrice, resolves each row's
 * ProductKey through the key map read back from Dim_Product, renames the
 * source ids and projects to the fact table's nine columns; the load deletes
 * and reloads Fact_OrderMetrics after checking the first tuple's width.
 */
module EtlOrders {
  import opened Values
  import opened Frames
  import opened KeyResolver
  import opened Warehouse

  /** The select list of the extract query joining [Order Details] with Orders. */
  const ExtractColumns := ["OrderID", "ProductID", "OrderDate", "RequiredDate", "ShippedDate",
                           "Quantity", "Discount", "UnitPrice"]

  const FactRenames := map["ProductID" := "Source_ProductID", "OrderID" := "Source_OrderID"]

  /** Fact_OrderMetrics' insertable columns, the projection and the INSERT list alike. */
  const FactColumns := ["Source_OrderID", "Source_ProductID", "ProductKey",
                        "OrderDate", "RequiredDate", "ShippedDate",
                        "Quantity", "Discount", "ExtendedPrice"]

  /** The width the loader demands of the first tuple before `executemany`. */
  const FactArity := 9

  /** The extracted order detail rows, or an empty frame when extraction failed. */
  function ExtractOrders(fetched: Option<seq<Row>>): (f: Frame)
    requires fetched.Some? ==> forall i :: 0 <= i < |fetched.value| ==> |fetched.value[i]| == |ExtractColumns|
    ensures Rectangular(f)
    ensures fetched.None? ==> f == Empty
    ensures fetched.Some? ==> f.columns == ExtractColumns && f.rows == fetched.value
  {
    Extract(ExtractColumns, fetched)
  }

  // ---------------------------------------------------------------------------
  // ExtendedPrice

  /** A cell the column arithmetic accepts: a number, or missing. */
  predicate Arithmetic(v: Value) {
    v.Null? || IsNumeric(v)
  }

  /**
   * One cell of `a * b` on two columns: a missing operand gives missing, two
   * numbers give their product, and a non-numeric operand raises.
   */
  function Times(a: Value, b: Value): (r: Result<Value>)
    ensures r.Ok? <==> Arithmetic(a) && Arithmetic(b)
    ensures r.Err? ==> r.error == NotNumeric
    ensures r.Ok? ==> Arithmetic(r.value)
    ensures r.Ok? ==> (r.value.Null? <==> a.Null? || b.Null?)
    ensures IsNumeric(a) && IsNumeric(b) ==> r == Ok(Num(Product(AsReal(a), AsReal(b))))
  {
    if !Arithmetic(a) || !Arithmetic(b) then Err(NotNumeric)
    else if a.Null? || b.Null? then Ok(Null)
    else Ok(Num(Product(AsReal(a), AsReal(b))))
  }

  /** Real multiplication, named so that a product is one term to the verifier. */
  function Product(x: real, y: real): real {
    x * y
  }

  /** One cell of `a - b` on two columns, with the same treatment of missing and non-numeric operands. */
  function Minus(a: Value, b: Value): (r: Result<Value>)
    ensures r.Ok? <==> Arithmetic(a) && Arithmetic(b)
    ensures r.Err? ==> r.error == NotNumeric
    ensures r.Ok? ==> Arithmetic(r.value)
    ensures r.Ok? ==> (r.value.Null? <==> a.Null? || b.Null?)
    ensures IsNumeric(a) && IsNumeric(b) ==> r == Ok(Num(AsReal(a) - AsReal(b)))
  {
    if !Arithmetic(a) || !Arithmetic(b) then Err(NotNumeric)
    else if a.Null? || b.Null? then Ok(Null)
    else Ok(Num(AsReal(a) - AsReal(b)))
  }

  /** `extended` is the gross amount `quantity * unitPrice` less the fraction `discount` of it. */
  predicate PriceEquation(quantity: Value, unitPrice: Value, discount: Value, extended: Value) {
    && IsNumeric(quantity) && IsNumeric(unitPrice) && IsNumeric(discount) && IsNumeric(extended)
    && AsReal(extended) == AsReal(quantity) * AsReal(unitPrice) * (1.0 - AsReal(discount))
  }

  /** `Quantity * UnitPrice * (1 - Discount)` for one row, evaluated left to right. */
  function ExtendedPrice(quantity: Value, unitPrice: Value, discount: Value): Result<Value> {
    var gross :- Times(quantity, unitPrice);
    var kept :- Minus(Int(1), discount);
    Times(gross, kept)
  }

  /**
   * The derived metric: defined exactly when every operand is a number or
   * missing; missing when any operand is; otherwise the gross amount less
   * the discount.
   */
  lemma ExtendedPriceEquation(quantity: Value, unitPrice: Value, discount: Value)
    ensures ExtendedPrice(quantity, unitPrice, discount).Ok? <==>
              Arithmetic(quantity) && Arithmetic(unitPrice) && Arithmetic(discount)
    ensures ExtendedPrice(quantity, unitPrice, discount).Err? ==>
              ExtendedPrice(quantity, unitPrice, discount).error == NotNumeric
    ensures ExtendedPrice(quantity, unitPrice, discount).Ok? ==>
              (ExtendedPrice(quantity, unitPrice, discount).value.Null? <==>
                 quantity.Null? || unitPrice.Null? || discount.Null?)
    ensures IsNumeric(quantity) && IsNumeric(unitPrice) && IsNumeric(discount) ==>
              PriceEquation(quantity, unitPrice, discount, ExtendedPrice(quantity, unitPrice, discount).value)
  {
    if IsNumeric(quantity) && IsNumeric(unitPrice) && IsNumeric(discount) {
      ExtendedPriceOfNumbers(quantity, unitPrice, discount);
    }
  }

  lemma ExtendedPriceOfNumbers(quantity: Value, unitPrice: Value, discount: Value)
    requires IsNumeric(quantity) && IsNumeric(unitPrice) && IsNumeric(discount)
    ensures ExtendedPrice(quantity, unitPrice, discount).Ok?
    ensures PriceEquation(quantity, unitPrice, discount, ExtendedPrice(quantity, unitPrice, discount).value)
  {
    ExtendedPriceSteps(quantity, unitPrice, discount);
    Regroup(AsReal(quantity), AsReal(unitPrice), AsReal(discount));
  }

  /** Numbers go through both multiplications and the subtraction. */
  lemma ExtendedPriceSteps(quantity: Value, unitPrice: Value, discount: Value)
    requires IsNumeric(quantity) && IsNumeric(unitPrice) && IsNumeric(discount)
    ensures ExtendedPrice(quantity, unitPrice, discount) ==
              Ok(Num(Product(Product(AsReal(quantity), AsReal(unitPrice)), 1.0 - AsReal(discount))))
  {
    var gross, kept := Num(Product(AsReal(quantity), AsReal(unitPrice))), Num(1.0 - AsReal(discount));
    assert Times(quantity, unitPrice) == Ok(gross);
    assert Minus(Int(1), discount) == Ok(kept);
  }

  /** `(x * y) * (1 - z)`, computed in two steps, is the usual product. */
  lemma Regroup(x: real, y: real, z: real)
    ensures Product(Product(x, y), 1.0 - z) == x * y * (1.0 - z)
  {
  }

  /** Ten units at 20.00 with a ten percent discount come to 180.00. */
  lemma ExtendedPriceExample()
    ensures ExtendedPrice(Int(10), Num(20.0), Num(0.1)) == Ok(Num(180.0))
  {
  }

  /** `df['Quantity'] * df['UnitPrice'] * (1 - df['Discount'])`, row by row. */
  function ExtendedPriceColumn(qs: seq<Value>, ps: seq<Value>, ds: seq<Value>): (r: Result<seq<Value>>)
    requires |qs| == |ps| == |ds|
    ensures r.Ok? <==> forall i :: 0 <= i < |qs| ==> ExtendedPrice(qs[i], ps[i], ds[i]).Ok?
    ensures r.Err? ==> r.error == NotNumeric
    ensures r.Ok? ==> |r.value| == |qs| && forall i :: 0 <= i < |qs| ==> r.value[i] == ExtendedPrice(qs[i], ps[i], ds[i]).value
  {
    if qs == [] then Ok([])
    else
      var head :- ExtendedPrice(qs[0], ps[0], ds[0]);
      var tail :- ExtendedPriceColumn(qs[1..], ps[1..], ds[1..]);
      assert forall i :: 1 <= i < |qs| ==> qs[i] == qs[1..][i - 1] && ps[i] == ps[1..][i - 1] && ds[i] == ds[1..][i - 1];
      Ok([head] + tail)
  }

  // ---------------------------------------------------------------------------
  // The three stages of transform_fact_data

  /** Section A: `df['ExtendedPrice'] = ...`, then `df.drop('UnitPrice', axis=1)`. */
  function Priced(f: Frame): Result<Frame>
    requires Rectangular(f)
  {
    var qs :- Column(f, "Quantity");
    var ps :- Column(f, "UnitPrice");
    var ds :- Column(f, "Discount");
    var prices :- ExtendedPriceColumn(qs, ps, ds);
    Drop(Assign(f, "ExtendedPrice", prices), "UnitPrice")
  }

  /** Section C and the first clean-up: left merge on ProductID, then drop the map's copy of the natural key. */
  function Resolved(g: Frame, pairs: seq<KeyPair>): Result<Frame>
    requires Rectangular(g)
  {
    var merged :- MergeLeft(g, "ProductID", pairs);
    Drop(merged, NaturalColumn)
  }

  /** The remaining clean-up: rename the source ids, then project to the fact table's columns. */
  function Finalized(h: Frame): Result<Frame>
    requires Rectangular(h)
  {
    Select(Rename(h, FactRenames), FactColumns)
  }

  /**
   * `transform_fact_data`. `keyMap` is the result of reading Dim_Product's
   * key map: `None` when that read raised, in which case the function returns
   * an empty frame after the price has been derived.
   */
  function TransformFactData(f: Frame, keyMap: Option<seq<KeyPair>>): Result<Frame>
    requires Rectangular(f)
  {
    var priced :- Priced(f);
    match keyMap
    case None => Ok(Empty)
    case Some(pairs) =>
      var resolved :- Resolved(priced, pairs);
      Finalized(resolved)
  }

  // ---------------------------------------------------------------------------
  // What the transform promises

  /** The columns the transform reads are present and none of the labels it introduces is already taken. */
  predicate FactTransformable(f: Frame) {
    && "OrderID" in f.columns && "ProductID" in f.columns
    && "OrderDate" in f.columns && "RequiredDate" in f.columns && "ShippedDate" in f.columns
    && "Quantity" in f.columns && "Discount" in f.columns && "UnitPrice" in f.columns
    && "ProductKey" !in f.columns && "Source_ProductID" !in f.columns && "Source_OrderID" !in f.columns
  }

  /** Every row's price operands are numbers or missing. */
  predicate PricesComputable(f: Frame)
    requires Rectangular(f) && FactTransformable(f)
  {
    forall i :: 0 <= i < |f.rows| ==>
      ExtendedPrice(Cell(f, i, "Quantity"), Cell(f, i, "UnitPrice"), Cell(f, i, "Discount")).Ok?
  }

  /** The price stage adds ExtendedPrice, removes UnitPrice's cells from view and keeps every other cell. */
  lemma PricedSpec(f: Frame)
    requires Rectangular(f) && FactTransformable(f) && PricesComputable(f)
    ensures Priced(f).Ok? && Rectangular(Priced(f).value) && |Priced(f).value.rows| == |f.rows|
    ensures "ExtendedPrice" in Priced(f).value.columns
    ensures forall i :: 0 <= i < |f.rows| ==>
              Cell(Priced(f).value, i, "ExtendedPrice") ==
              ExtendedPrice(Cell(f, i, "Quantity"), Cell(f, i, "UnitPrice"), Cell(f, i, "Discount")).value
    ensures forall m :: m in f.columns && m != "UnitPrice" && m != "ExtendedPrice" ==> m in Priced(f).value.columns
    ensures forall i, m :: 0 <= i < |f.rows| && m in f.columns && m != "UnitPrice" && m != "ExtendedPrice" ==>
              Cell(Priced(f).value, i, m) == Cell(f, i, m)
    ensures forall m :: m in Priced(f).value.columns ==> m in f.columns || m == "ExtendedPrice"
  {
    var priced := PricedAssigned(f);
    var g := Drop(priced, "UnitPrice").value;
    DropCell(priced, "UnitPrice", "ExtendedPrice");
    forall m | m in f.columns && m != "UnitPrice" && m != "ExtendedPrice"
      ensures m in g.columns && forall i :: 0 <= i < |f.rows| ==> Cell(g, i, m) == Cell(f, i, m)
    {
      DropCell(priced, "UnitPrice", m);
    }
    forall m | m in g.columns ensures m in f.columns || m == "ExtendedPrice" {
      assert multiset(g.columns)[m] > 0;
      assert m in priced.columns;
    }
  }

  /** The frame with ExtendedPrice assigned, before UnitPrice is dropped. */
  lemma PricedAssigned(f: Frame) returns (priced: Frame)
    requires Rectangular(f) && FactTransformable(f) && PricesComputable(f)
    ensures Rectangular(priced) && |priced.rows| == |f.rows| && "UnitPrice" in priced.columns
    ensures Priced(f) == Drop(priced, "UnitPrice")
    ensures forall m :: m in priced.columns <==> m in f.columns || m == "ExtendedPrice"
    ensures forall i :: 0 <= i < |f.rows| ==>
              Cell(priced, i, "ExtendedPrice") ==
              ExtendedPrice(Cell(f, i, "Quantity"), Cell(f, i, "UnitPrice"), Cell(f, i, "Discount")).value
    ensures forall i, m :: 0 <= i < |f.rows| && m in f.columns && m != "ExtendedPrice" ==>
              Cell(priced, i, m) == Cell(f, i, m)
  {
    var qs := Column(f, "Quantity").value;
    var ps := Column(f, "UnitPrice").value;
    var ds := Column(f, "Discount").value;
    var prices := ExtendedPriceColumn(qs, ps, ds).value;
    priced := Assign(f, "ExtendedPrice", prices);
  }

  /** The lookup stage keeps every row and every cell, adds ProductKey as the resolved surrogate and leaves no copy of the map's natural key. */
  lemma ResolvedSpec(g: Frame, pairs: seq<KeyPair>)
    requires Rectangular(g) && "ProductID" in g.columns && UniqueNaturals(pairs)
    requires SurrogateColumn !in g.columns && NaturalColumn !in g.columns
    ensures Resolved(g, pairs).Ok? && Rectangular(Resolved(g, pairs).value)
    ensures |Resolved(g, pairs).value.rows| == |g.rows|
    ensures SurrogateColumn in Resolved(g, pairs).value.columns
    ensures NaturalColumn !in Resolved(g, pairs).value.columns
    ensures forall m :: m in Resolved(g, pairs).value.columns ==> m in g.columns || m == SurrogateColumn
    ensures forall m :: m in g.columns ==> m in Resolved(g, pairs).value.columns
    ensures forall i, m :: 0 <= i < |g.rows| && m in g.columns ==> Cell(Resolved(g, pairs).value, i, m) == Cell(g, i, m)
    ensures forall i :: 0 <= i < |g.rows| ==>
              Cell(Resolved(g, pairs).value, i, SurrogateColumn) == Lookup(pairs, Cell(g, i, "ProductID"))
  {
    MergeLeftCells(g, "ProductID", pairs);
    var merged := MergeLeft(g, "ProductID", pairs).value;
    var h := Drop(merged, NaturalColumn).value;
    assert Resolved(g, pairs) == Ok(h);
    assert merged.columns == g.columns + [SurrogateColumn, NaturalColumn];
    assert multiset(merged.columns)[NaturalColumn] == 1 by {
      assert multiset(merged.columns) == multiset(g.columns) + multiset{SurrogateColumn, NaturalColumn};
    }
    DropRemoves(merged, NaturalColumn);
    forall m | m in merged.columns && m != NaturalColumn
      ensures m in h.columns && forall i :: 0 <= i < |g.rows| ==> Cell(h, i, m) == Cell(merged, i, m)
    {
      DropCell(merged, NaturalColumn, m);
    }
    forall m | m in h.columns ensures m in g.columns || m == SurrogateColumn {
      assert multiset(h.columns)[m] > 0;
      assert m in merged.columns;
    }
  }

  /** Where the fact rename sends each label. */
  lemma FactRenameTargets(c: string)
    ensures NewName(FactRenames, c) ==
      if c == "ProductID" then "Source_ProductID" else if c == "OrderID" then "Source_OrderID" else c
  {
  }

  /** The columns the final clean-up reads, with the rename's targets still free. */
  predicate Finalizable(h: Frame) {
    && "OrderID" in h.columns && "ProductID" in h.columns && "ProductKey" in h.columns
    && "OrderDate" in h.columns && "RequiredDate" in h.columns && "ShippedDate" in h.columns
    && "Quantity" in h.columns && "Discount" in h.columns && "ExtendedPrice" in h.columns
    && "Source_ProductID" !in h.columns && "Source_OrderID" !in h.columns
  }

  /** The fact row the final clean-up builds from row `i`. */
  function FinalRow(h: Frame, i: nat): Row
    requires Rectangular(h) && i < |h.rows| && Finalizable(h)
  {
    [ Cell(h, i, "OrderID"), Cell(h, i, "ProductID"), Cell(h, i, "ProductKey"),
      Cell(h, i, "OrderDate"), Cell(h, i, "RequiredDate"), Cell(h, i, "ShippedDate"),
      Cell(h, i, "Quantity"), Cell(h, i, "Discount"), Cell(h, i, "ExtendedPrice") ]
  }

  /** A label the fact rename neither changes nor produces keeps its cells. */
  lemma FactKeepsCell(h: Frame, a: string)
    requires Rectangular(h) && Finalizable(h) && a in h.columns
    requires a != "ProductID" && a != "OrderID" && a != "Source_ProductID" && a != "Source_OrderID"
    ensures a in Rename(h, FactRenames).columns
    ensures forall i :: 0 <= i < |h.rows| ==> Cell(Rename(h, FactRenames), i, a) == Cell(h, i, a)
  {
    forall c | c in h.columns && NewName(FactRenames, c) == a ensures c == a {
      FactRenameTargets(c);
    }
    RenameCell(h, FactRenames, a, a);
  }

  /** A renamed source id carries its cells under its new label. */
  lemma FactMovesCell(h: Frame, a: string, b: string)
    requires Rectangular(h) && Finalizable(h) && a in h.columns
    requires a in FactRenames && FactRenames[a] == b
    ensures b in Rename(h, FactRenames).columns
    ensures forall i :: 0 <= i < |h.rows| ==> Cell(Rename(h, FactRenames), i, b) == Cell(h, i, a)
  {
    forall c | c in h.columns && NewName(FactRenames, c) == b ensures c == a {
      FactRenameTargets(c);
    }
    RenameCell(h, FactRenames, a, b);
  }

  /** After the rename, each of the fact table's labels holds the value it is built from. */
  lemma RenamedFactCells(h: Frame)
    requires Rectangular(h) && Finalizable(h)
    ensures var g := Rename(h, FactRenames);
      && Rectangular(g)
      && (forall c :: c in FactColumns ==> c in g.columns)
      && (forall i :: 0 <= i < |h.rows| ==>
            && Cell(g, i, "Source_OrderID") == Cell(h, i, "OrderID")
            && Cell(g, i, "Source_ProductID") == Cell(h, i, "ProductID")
            && Cell(g, i, "ProductKey") == Cell(h, i, "ProductKey")
            && Cell(g, i, "OrderDate") == Cell(h, i, "OrderDate")
            && Cell(g, i, "RequiredDate") == Cell(h, i, "RequiredDate")
            && Cell(g, i, "ShippedDate") == Cell(h, i, "ShippedDate")
            && Cell(g, i, "Quantity") == Cell(h, i, "Quantity")
            && Cell(g, i, "Discount") == Cell(h, i, "Discount")
            && Cell(g, i, "ExtendedPrice") == Cell(h, i, "ExtendedPrice"))
  {
    FactMovesCell(h, "OrderID", "Source_OrderID");
    FactMovesCell(h, "ProductID", "Source_ProductID");
    FactKeepsCell(h, "ProductKey");
    FactKeepsCell(h, "OrderDate");
    FactKeepsCell(h, "RequiredDate");
    FactKeepsCell(h, "ShippedDate");
    FactKeepsCell(h, "Quantity");
    FactKeepsCell(h, "Discount");
    FactKeepsCell(h, "ExtendedPrice");
  }

  /** The clean-up keeps every row, in order, under exactly the fact table's nine columns. */
  lemma FinalizedSpec(h: Frame)
    requires Rectangular(h) && Finalizable(h)
    ensures Finalized(h).Ok? && Finalized(h).value.columns == FactColumns
    ensures |Finalized(h).value.rows| == |h.rows|
    ensures forall i :: 0 <= i < |h.rows| ==> Finalized(h).value.rows[i] == FinalRow(h, i)
  {
    RenamedFactCells(h);
    forall i | 0 <= i < |h.rows| ensures Finalized(h).value.rows[i] == FinalRow(h, i) {
      FinalizedRow(h, i);
    }
  }

  lemma FactColumnsAt()
    ensures FactColumns[0] == "Source_OrderID" && FactColumns[1] == "Source_ProductID"
    ensures FactColumns[2] == "ProductKey" && FactColumns[3] == "OrderDate"
    ensures FactColumns[4] == "RequiredDate" && FactColumns[5] == "ShippedDate"
    ensures FactColumns[6] == "Quantity" && FactColumns[7] == "Discount"
    ensures FactColumns[8] == "ExtendedPrice"
  {
  }

  /** Row `i` of the renamed frame, label by label. */
  lemma RenamedFactRow(h: Frame, i: nat)
    requires Rectangular(h) && Finalizable(h) && i < |h.rows|
    ensures var g := Rename(h, FactRenames);
      && Rectangular(g) && (forall c :: c in FactColumns ==> c in g.columns)
      && [ Cell(g, i, "Source_OrderID"), Cell(g, i, "Source_ProductID"), Cell(g, i, "ProductKey"),
           Cell(g, i, "OrderDate"), Cell(g, i, "RequiredDate"), Cell(g, i, "ShippedDate"),
           Cell(g, i, "Quantity"), Cell(g, i, "Discount"), Cell(g, i, "ExtendedPrice") ] == FinalRow(h, i)
  {
    RenamedFactCells(h);
  }

  /** A nine-cell row is the list of its cells. */
  lemma NineCells(row: Row)
    requires |row| == 9
    ensures row == [row[0], row[1], row[2], row[3], row[4], row[5], row[6], row[7], row[8]]
  {
  }

  lemma FinalizedRow(h: Frame, i: nat)
    requires Rectangular(h) && Finalizable(h) && i < |h.rows|
    ensures Finalized(h).Ok? && Finalized(h).value.rows[i] == FinalRow(h, i)
  {
    FactColumnsAt();
    RenamedFactRow(h, i);
    var g := Rename(h, FactRenames);
    var row := Select(g, FactColumns).value.rows[i];
    assert row[0] == Cell(g, i, "Source_OrderID");
    assert row[1] == Cell(g, i, "Source_ProductID");
    assert row[2] == Cell(g, i, "ProductKey");
    assert row[3] == Cell(g, i, "OrderDate");
    assert row[4] == Cell(g, i, "RequiredDate");
    assert row[5] == Cell(g, i, "ShippedDate");
    assert row[6] == Cell(g, i, "Quantity");
    assert row[7] == Cell(g, i, "Discount");
    assert row[8] == Cell(g, i, "ExtendedPrice");
    NineCells(row);
  }

  /** The fact row a source order detail row becomes, given the key map. */
  function FactRow(f: Frame, pairs: seq<KeyPair>, i: nat): Row
    requires Rectangular(f) && i < |f.rows| && FactTransformable(f) && PricesComputable(f)
  {
    [ Cell(f, i, "OrderID"), Cell(f, i, "ProductID"), Lookup(pairs, Cell(f, i, "ProductID")),
      Cell(f, i, "OrderDate"), Cell(f, i, "RequiredDate"), Cell(f, i, "ShippedDate"),
      Cell(f, i, "Quantity"), Cell(f, i, "Discount"),
      ExtendedPrice(Cell(f, i, "Quantity"), Cell(f, i, "UnitPrice"), Cell(f, i, "Discount")).value ]
  }

  /** The frame after pricing and lookup carries what the clean-up needs. */
  lemma StagesCompose(f: Frame, pairs: seq<KeyPair>)
    requires Rectangular(f) && FactTransformable(f) && PricesComputable(f) && UniqueNaturals(pairs)
    ensures Priced(f).Ok? && Resolved(Priced(f).value, pairs).Ok?
    ensures var h := Resolved(Priced(f).value, pairs).value;
      && Rectangular(h) && Finalizable(h) && |h.rows| == |f.rows|
      && forall i :: 0 <= i < |f.rows| ==> FinalRow(h, i) == FactRow(f, pairs, i)
  {
    PricedSpec(f);
    var g := Priced(f).value;
    ResolvedSpec(g, pairs);
    var h := Resolved(g, pairs).value;
    assert "Source_OrderID" !in h.columns;
    forall i | 0 <= i < |f.rows| ensures FinalRow(h, i) == FactRow(f, pairs, i) {
      assert Cell(h, i, "ProductKey") == Lookup(pairs, Cell(g, i, "ProductID"));
      assert Cell(h, i, "ExtendedPrice") == Cell(g, i, "ExtendedPrice");
    }
  }

  /**
   * With a readable key map whose natural keys are unique, the transform keeps
   * every row in order under exactly the nine fact columns: the source ids
   * carry the original OrderID and ProductID, ProductKey is the id's resolved
   * surrogate, ExtendedPrice is derived from the dropped UnitPrice.
   */
  lemma TransformFactSpec(f: Frame, pairs: seq<KeyPair>)
    requires Rectangular(f) && FactTransformable(f) && PricesComputable(f) && UniqueNaturals(pairs)
    ensures TransformFactData(f, Some(pairs)).Ok?
    ensures TransformFactData(f, Some(pairs)).value.columns == FactColumns
    ensures "UnitPrice" !in TransformFactData(f, Some(pairs)).value.columns
    ensures |TransformFactData(f, Some(pairs)).value.rows| == |f.rows|
    ensures forall i :: 0 <= i < |f.rows| ==> TransformFactData(f, Some(pairs)).value.rows[i] == FactRow(f, pairs, i)
  {
    StagesCompose(f, pairs);
    var h := Resolved(Priced(f).value, pairs).value;
    FinalizedSpec(h);
    assert TransformFactData(f, Some(pairs)) == Finalized(h);
    UnitPriceNotLoaded();
  }

  /** The fact table has no UnitPrice column. */
  lemma UnitPriceNotLoaded()
    ensures "UnitPrice" !in FactColumns
  {
    FactColumnsAt();
    assert |FactColumns| == 9;
  }

  /** Each output row's ExtendedPrice is its Quantity times the dropped UnitPrice times one less its Discount. */
  lemma ExtendedPriceHolds(f: Frame, pairs: seq<KeyPair>, i: nat)
    requires Rectangular(f) && FactTransformable(f) && PricesComputable(f) && UniqueNaturals(pairs)
    requires i < |f.rows|
    requires IsNumeric(Cell(f, i, "Quantity")) && IsNumeric(Cell(f, i, "UnitPrice")) && IsNumeric(Cell(f, i, "Discount"))
    ensures TransformFactData(f, Some(pairs)).Ok? && |TransformFactData(f, Some(pairs)).value.rows| == |f.rows|
    ensures var row := TransformFactData(f, Some(pairs)).value.rows[i];
      && |row| == 9 && row[6] == Cell(f, i, "Quantity") && row[7] == Cell(f, i, "Discount")
      && PriceEquation(Cell(f, i, "Quantity"), Cell(f, i, "UnitPrice"), Cell(f, i, "Discount"), row[8])
  {
    TransformFactRow(f, pairs, i);
    FactRowPrice(f, pairs, i);
  }

  lemma TransformFactRow(f: Frame, pairs: seq<KeyPair>, i: nat)
    requires Rectangular(f) && FactTransformable(f) && PricesComputable(f) && UniqueNaturals(pairs)
    requires i < |f.rows|
    ensures TransformFactData(f, Some(pairs)).Ok? && |TransformFactData(f, Some(pairs)).value.rows| == |f.rows|
    ensures TransformFactData(f, Some(pairs)).value.rows[i] == FactRow(f, pairs, i)
  {
    TransformFactSpec(f, pairs);
  }

  lemma FactRowPrice(f: Frame, pairs: seq<KeyPair>, i: nat)
    requires Rectangular(f) && FactTransformable(f) && PricesComputable(f)
    requires i < |f.rows|
    requires IsNumeric(Cell(f, i, "Quantity")) && IsNumeric(Cell(f, i, "UnitPrice")) && IsNumeric(Cell(f, i, "Discount"))
    ensures var row := FactRow(f, pairs, i);
      && |row| == 9 && row[6] == Cell(f, i, "Quantity") && row[7] == Cell(f, i, "Discount")
      && PriceEquation(Cell(f, i, "Quantity"), Cell(f, i, "UnitPrice"), Cell(f, i, "Discount"), row[8])
  {
    ExtendedPriceOfNumbers(Cell(f, i, "Quantity"), Cell(f, i, "UnitPrice"), Cell(f, i, "Discount"));
  }

  /**
   * When the key map cannot be read the transform yields an empty frame,
   * having derived the price first (so a frame it cannot price still raises).
   */
  lemma TransformWithoutMap(f: Frame)
    requires Rectangular(f)
    ensures Priced(f).Ok? ==> TransformFactData(f, None) == Ok(Empty)
    ensures Priced(f).Err? ==> TransformFactData(f, None) == Err(Priced(f).error)
    ensures TransformFactData(f, None).Ok? ==> IsEmpty(TransformFactData(f, None).value)
  {
  }

  // ---------------------------------------------------------------------------
  // The transform on extracted frames

  /** Each source label of an extracted frame reads its own position of the fetched row. */
  lemma ExtractedCells(rows: seq<Row>, i: nat)
    requires forall i :: 0 <= i < |rows| ==> |rows[i]| == |ExtractColumns|
    requires i < |rows|
    ensures FactTransformable(ExtractOrders(Some(rows)))
    ensures var f := ExtractOrders(Some(rows));
      && Cell(f, i, "OrderID") == rows[i][0] && Cell(f, i, "ProductID") == rows[i][1]
      && Cell(f, i, "OrderDate") == rows[i][2] && Cell(f, i, "RequiredDate") == rows[i][3]
      && Cell(f, i, "ShippedDate") == rows[i][4] && Cell(f, i, "Quantity") == rows[i][5]
      && Cell(f, i, "Discount") == rows[i][6] && Cell(f, i, "UnitPrice") == rows[i][7]
  {
    ExtractPositions();
  }

  lemma ExtractPositions()
    ensures IndexOf(ExtractColumns, "OrderID") == 0 && IndexOf(ExtractColumns, "ProductID") == 1
    ensures IndexOf(ExtractColumns, "OrderDate") == 2 && IndexOf(ExtractColumns, "RequiredDate") == 3
    ensures IndexOf(ExtractColumns, "ShippedDate") == 4 && IndexOf(ExtractColumns, "Quantity") == 5
    ensures IndexOf(ExtractColumns, "Discount") == 6 && IndexOf(ExtractColumns, "UnitPrice") == 7
    ensures FactTransformable(Frame(ExtractColumns, []))
  {
    ExtractIndices();
    ExtractLabels();
  }

  lemma ExtractIndices()
    ensures IndexOf(ExtractColumns, "OrderID") == 0 && IndexOf(ExtractColumns, "ProductID") == 1
    ensures IndexOf(ExtractColumns, "OrderDate") == 2 && IndexOf(ExtractColumns, "RequiredDate") == 3
    ensures IndexOf(ExtractColumns, "ShippedDate") == 4 && IndexOf(ExtractColumns, "Quantity") == 5
    ensures IndexOf(ExtractColumns, "Discount") == 6 && IndexOf(ExtractColumns, "UnitPrice") == 7
  {
  }

  /**
   * The select list holds the eight labels the transform reads and none of
   * the three it introduces. The last assertion rules the introduced labels
   * out by length: "ProductKey", "Source_OrderID" and "Source_ProductID" have
   * 10, 14 and 16 characters, and every selected label has fewer than 13 and
   * not 10, so no label-by-label string comparison is needed.
   */
  lemma ExtractLabels()
    ensures FactTransformable(Frame(ExtractColumns, []))
  {
    assert ExtractColumns[0] == "OrderID" && ExtractColumns[1] == "ProductID";
    assert ExtractColumns[2] == "OrderDate" && ExtractColumns[3] == "RequiredDate";
    assert ExtractColumns[4] == "ShippedDate" && ExtractColumns[5] == "Quantity";
    assert ExtractColumns[6] == "Discount" && ExtractColumns[7] == "UnitPrice";
    assert |ExtractColumns| == 8;
    assert forall k :: 0 <= k < 8 ==> |ExtractColumns[k]| != 10 && |ExtractColumns[k]| < 13;
  }

  /** Every fetched row's price operands are numbers or missing. */
  predicate RowsPriceable(rows: seq<Row>)
    requires forall i :: 0 <= i < |rows| ==> |rows[i]| == |ExtractColumns|
  {
    forall i :: 0 <= i < |rows| ==> ExtendedPrice(rows[i][5], rows[i][7], rows[i][6]).Ok?
  }

  /** The fact row a fetched order detail row becomes. */
  function FactRowOf(row: Row, pairs: seq<KeyPair>): Row
    requires |row| == |ExtractColumns| && ExtendedPrice(row[5], row[7], row[6]).Ok?
  {
    [row[0], row[1], Lookup(pairs, row[1]), row[2], row[3], row[4], row[5], row[6],
     ExtendedPrice(row[5], row[7], row[6]).value]
  }

  lemma ExtractedPriceable(rows: seq<Row>)
    requires forall i :: 0 <= i < |rows| ==> |rows[i]| == |ExtractColumns|
    ensures FactTransformable(ExtractOrders(Some(rows)))
    ensures PricesComputable(ExtractOrders(Some(rows))) <==> RowsPriceable(rows)
  {
    ExtractPositions();
    var f := ExtractOrders(Some(rows));
    forall k | 0 <= k < |rows|
      ensures ExtendedPrice(Cell(f, k, "Quantity"), Cell(f, k, "UnitPrice"), Cell(f, k, "Discount")) ==
              ExtendedPrice(rows[k][5], rows[k][7], rows[k][6])
    {
      ExtractedCells(rows, k);
    }
  }

  /** On extracted rows and a map with unique natural keys, each fetched row becomes exactly one fact row. */
  lemma TransformExtracted(rows: seq<Row>, pairs: seq<KeyPair>)
    requires forall i :: 0 <= i < |rows| ==> |rows[i]| == |ExtractColumns|
    requires RowsPriceable(rows) && UniqueNaturals(pairs)
    ensures var r := TransformFactData(ExtractOrders(Some(rows)), Some(pairs));
      && r.Ok? && r.value.columns == FactColumns && |r.value.rows| == |rows|
      && forall i :: 0 <= i < |rows| ==> r.value.rows[i] == FactRowOf(rows[i], pairs)
  {
    var f := ExtractOrders(Some(rows));
    ExtractedPriceable(rows);
    TransformFactSpec(f, pairs);
    forall i | 0 <= i < |rows| ensures FactRow(f, pairs, i) == FactRowOf(rows[i], pairs) {
      ExtractedCells(rows, i);
    }
  }

  /** A row whose price operands include a non-number makes the price derivation raise. */
  lemma PricedRejects(f: Frame)
    requires Rectangular(f) && FactTransformable(f) && !PricesComputable(f)
    ensures Priced(f) == Err(NotNumeric)
  {
    var i :| 0 <= i < |f.rows| &&
      ExtendedPrice(Cell(f, i, "Quantity"), Cell(f, i, "UnitPrice"), Cell(f, i, "Discount")).Err?;
    var qs := Column(f, "Quantity").value;
    var ps := Column(f, "UnitPrice").value;
    var ds := Column(f, "Discount").value;
    assert ExtendedPrice(qs[i], ps[i], ds[i]).Err?;
  }

  /** On extracted rows, a row whose price operands include a non-number makes the transform raise before any lookup. */
  lemma TransformRejectsUnpriceable(rows: seq<Row>, keyMap: Option<seq<KeyPair>>)
    requires forall i :: 0 <= i < |rows| ==> |rows[i]| == |ExtractColumns|
    requires !RowsPriceable(rows)
    ensures TransformFactData(ExtractOrders(Some(rows)), keyMap) == Err(NotNumeric)
  {
    ExtractedPriceable(rows);
    PricedRejects(ExtractOrders(Some(rows)));
  }

  /** A priceable extract with no readable key map is transformed to an empty frame. */
  lemma TransformExtractedWithoutMap(rows: seq<Row>)
    requires forall i :: 0 <= i < |rows| ==> |rows[i]| == |ExtractColumns|
    requires RowsPriceable(rows)
    ensures TransformFactData(ExtractOrders(Some(rows)), None) == Ok(Empty)
  {
    var f := ExtractOrders(Some(rows));
    ExtractedPriceable(rows);
    PricedSpec(f);
    TransformWithoutMap(f);
  }

  /** A failed extraction makes the price derivation raise KeyError, so the run never reaches the load. */
  lemma TransformFailedExtract(keyMap: Option<seq<KeyPair>>)
    ensures TransformFactData(ExtractOrders(None), keyMap) == Err(MissingColumn("Quantity"))
  {
  }

  // ---------------------------------------------------------------------------
  // Load

  /**
   * `load_fact_table`: skip an empty frame, else DELETE, check the first
   * tuple's width, insert, commit; roll back on a database error. A first
   * tuple of the wrong width raises ValueError, which is not caught: nothing
   * is committed, and the server discards the open transaction.
   */
  method LoadFactTable(t: Table, f: Frame, faults: Faults) returns (outcome: LoadOutcome)
    requires t.Idle()
    modifies t
    ensures t.Idle()
    ensures IsEmpty(f) ==> outcome == Skipped && t.committed == old(t.committed)
    ensures outcome.Loaded? <==> Succeeds(f, FactColumns, Some(FactArity), faults)
    ensures outcome.Loaded? ==> t.committed == f.rows && outcome.count == |f.rows|
    ensures !outcome.Loaded? ==> t.committed == old(t.committed)
    ensures outcome.ArityMismatch? <==> !IsEmpty(f) && !faults.clear && |f.rows[0]| != FactArity
  {
    outcome := t.Replace(f, FactColumns, Some(FactArity), faults);
  }

  /** The script's `__main__`: extract, transform (with the key map as read), load. */
  method Run(t: Table, fetched: Option<seq<Row>>, keyMap: Option<seq<KeyPair>>, faults: Faults)
    returns (r: RunOutcome)
    requires fetched.Some? ==> forall i :: 0 <= i < |fetched.value| ==> |fetched.value[i]| == |ExtractColumns|
    requires t.Idle()
    modifies t
    ensures t.Idle()
    ensures fetched.None? ==> r == TransformFailed(MissingColumn("Quantity")) && t.committed == old(t.committed)
    ensures fetched.Some? && !RowsPriceable(fetched.value) ==>
              r == TransformFailed(NotNumeric) && t.committed == old(t.committed)
    ensures fetched.Some? && RowsPriceable(fetched.value) && keyMap.None? ==>
              r == Finished(Skipped) && t.committed == old(t.committed)
    ensures r.Finished? ==> !r.load.ArityMismatch?
    ensures r.Finished? && r.load.Loaded? && UniqueNaturals(keyMap.value) ==>
              && fetched.Some? && keyMap.Some?
              && |t.committed| == |fetched.value|
              && forall i :: 0 <= i < |fetched.value| ==> t.committed[i] == FactRowOf(fetched.value[i], keyMap.value)
    ensures fetched.Some? && RowsPriceable(fetched.value) && fetched.value != [] &&
            keyMap.Some? && UniqueNaturals(keyMap.value) && faults == Faults(false, false, false) ==>
              r == Finished(Loaded(|fetched.value|))
    ensures !(r.Finished? && r.load.Loaded?) ==> t.committed == old(t.committed)
  {
    var f := ExtractOrders(fetched);
    if fetched.None? {
      TransformFailedExtract(keyMap);
    } else if !RowsPriceable(fetched.value) {
      TransformRejectsUnpriceable(fetched.value, keyMap);
    } else if keyMap.None? {
      TransformExtractedWithoutMap(fetched.value);
    } else if UniqueNaturals(keyMap.value) {
      TransformExtracted(fetched.value, keyMap.value);
    }
    var transformed := TransformFactData(f, keyMap);
    match transformed {
      case Err(e) =>
        r := TransformFailed(e);
      case Ok(g) =>
        FactOutputWidth(f, keyMap);
        var outcome := LoadFactTable(t, g, faults);
        r := Finished(outcome);
    }
  }

  /** Whatever the transform returns has the loader's width in every row, so the width check never fires. */
  lemma FactOutputWidth(f: Frame, keyMap: Option<seq<KeyPair>>)
    requires Rectangular(f) && TransformFactData(f, keyMap).Ok?
    ensures var g := TransformFactData(f, keyMap).value;
      Rectangular(g) && (IsEmpty(g) || |g.columns| == FactArity)
  {
  }
}
