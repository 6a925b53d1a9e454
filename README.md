# Northwind ETL: a verified model of the transforms and loads

Three small extract → transform → load scripts copy the Northwind sample
database into a reporting database:

- `etl_category.py`: Categories to `Dim_Category`.
- `etl_product.py`: Products to `Dim_Product`.
- `etl_orders.py`: Orders joined with Order Details to `Fact_OrderMetrics`. Each fact row gets a
  derived `ExtendedPrice` and a `ProductKey` resolved through Dim_Product's key map.

This project models each script's transform and load, and the composition its `__main__` block runs.

Modules:

- `Values` (`values.dfy`):
  - cell values: missing, boolean, integer, exact real, text, date;
  - the errors a transform raises;
  - the cell conversions `pd.to_numeric(errors='coerce')` and `.astype('Int64')`.
- `Frames` (`frames.dfy`): a DataFrame as an ordered header and positional rows. It provides:
  - `df['c']`;
  - `df['c'] = values`;
  - `rename(columns=...)`;
  - `drop('c', axis=1)`;
  - `df[[...]]`.

  Every operation is specified cell by cell.
- `KeyResolver` (`key_resolver.dfy`): the left merge of the fact frame with the key map. Its row semantics
  are modelled:
  - a fact row matching no entry gets missing map cells;
  - a fact row matching k entries is repeated k times, once per entry in map order;
  - the blocks of output rows follow the fact rows' order.

  Under the dimension's uniqueness invariant the merge keeps row count and order, and each row's
  `ProductKey` is the looked-up surrogate.
- `Warehouse` (`warehouse.dfy`): a target table as a class.
  - It holds the committed contents and the contents seen inside the connection's open transaction.
  - It provides the four database steps the loaders use: clear, `executemany`, commit, rollback.
  - `Replace` is the load protocol the three loaders share.
  - Which statements the database rejects is a parameter (`Faults`).
- `EtlCategory`, `EtlProduct`, `EtlOrders`: each script's constants, its transform as pure functions over
  frames, its loader as a method on a `Table`, and `Run`, the script's extract → transform → load sequence.
  - The extract is a parameter: `Some(rows)` for the fetched rows, `None` when the query raised.
  - The fact transform's key map is a parameter too: `None` when reading it raised.

Two behaviours of the code are worth stating. The model follows the code in both:

- The fact transform's "Must have exactly 9 columns" check (`etl_orders.py:84-85`) only prints the count.
  The loader's check (`etl_orders.py:122-124`) compares only the first tuple's width against 9, not every
  row's. A wrong-width later row is rejected by `executemany` itself, which rolls back.
- When an extract fails it returns an empty DataFrame with no columns. The following transform then raises
  a KeyError, so the run stops before the load.
  - `TransformFailedExtract` in each script module states which label is reported.
  - For the fact script that is `Quantity`, the first column the price derivation reads.

## Model

| member | source | states |
|---|---|---|
| Values.ToNumeric | etl_product.py:46 | numbers pass through unchanged; integer text becomes that integer; any other cell becomes missing instead of raising |
| Values.ParseIntText | etl_product.py:45-46 | every integer written in decimal is parsed back as itself |
| Values.ToNumericParsesIntegers | etl_product.py:45-46 | an id stored as decimal text is coerced and cast to exactly that integer |
| Values.CastInt64 | etl_product.py:45 | missing stays missing; a whole number becomes an integer of equal value; a number with a fraction raises |
| Frames.Extract | etl_category.py:7-20 | an extract yields the query's columns and the fetched rows, or an empty frame when the query raised |
| Frames.Column | etl_orders.py:39 | reading a column yields each row's cell under that label, or a KeyError when the label is absent |
| Frames.Assign | etl_orders.py:39 | an assigned column holds the given values; a new label is appended at the right; every other cell is kept |
| Frames.Rename | etl_category.py:26-28 | renaming keeps every row and changes only the header, label by label |
| Frames.RenameCell | etl_category.py:26-28 | after a rename, the new label reads exactly the cells the old label held |
| Frames.Drop | etl_orders.py:42 | dropping a present label removes one occurrence from the header and keeps every row; an absent label raises |
| Frames.DropCell | etl_orders.py:42 | every label other than the dropped one still reads the same cells |
| Frames.Select | etl_category.py:31 | the result has exactly the listed columns in the listed order and every row's matching cells, or a KeyError naming a missing label |
| KeyResolver.Matches | etl_orders.py:57-63 | the map entries whose natural key equals the row's key, and only those |
| KeyResolver.MatchIndices | etl_orders.py:57-63 | the increasing positions, from a start on, of exactly the map entries whose natural key equals the key |
| KeyResolver.MatchesInMapOrder | etl_orders.py:57-63 | a key's matches are the map entries at its match positions, one copy per matching entry, in map order |
| KeyResolver.MatchesFrom | etl_orders.py:57-63 | the matches in the map's suffix from a position on are the entries at the match positions from there |
| KeyResolver.Extend | etl_orders.py:57-63 | a fact row with no match becomes one row widened by two missing cells; one with matches becomes one row per match, in order, widened by that entry's ProductKey and Source_ProductID |
| KeyResolver.MergeLeft | etl_orders.py:57-63 | the merge raises a KeyError when the join column is missing; otherwise it appends ProductKey and Source_ProductID and returns at least as many rows as the fact frame |
| KeyResolver.JoinRowsShape | etl_orders.py:57-63 | every merged row is two cells wider than the fact rows |
| KeyResolver.JoinRowsOrigin | etl_orders.py:57-63 | every merged row is some fact row followed by the ProductKey and Source_ProductID of one of its matches, or by two missing cells when it has none |
| KeyResolver.JoinRowsBlocks | etl_orders.py:57-63 | no fact row is lost and the order is kept: fact row i's block starts after the blocks of the rows before it and holds that row widened by each of its matches in map order |
| KeyResolver.JoinRowsBlock | etl_orders.py:57-63 | one position of fact row i's block holds that row widened by the corresponding match |
| KeyResolver.MergeLeftRows | etl_orders.py:57-63 | for a frame with the join column, every output row comes from a fact row and one of its matches, and every fact row's block is in place, in left order |
| KeyResolver.JoinRowsSize | etl_orders.py:57-63 | the merge produces exactly the summed fanout of the fact rows |
| KeyResolver.DuplicateKeyDuplicatesRow | etl_orders.py:57-63 | a key that matches two map entries makes the merge return more rows than it was given |
| KeyResolver.UniqueMatch | etl_orders.py:57-63 | with unique natural keys in the map, a key has at most one entry |
| KeyResolver.LookupResolves | etl_orders.py:57-63 | a key with no entry resolves to missing; a key with a unique entry resolves to that entry's surrogate |
| KeyResolver.JoinRowsUnique | etl_orders.py:57-63 | with unique natural keys, the merge keeps row count and order and appends each row's own lookup |
| KeyResolver.MergeLeftCells | etl_orders.py:57-63 | with unique natural keys, one output row per fact row, every fact cell unchanged, and ProductKey the resolved surrogate of the row's ProductID |
| Warehouse.Table.Clear | etl_orders.py:105 | a clear empties the transaction's view of the table, or fails and changes nothing |
| Warehouse.Table.ExecuteMany | etl_orders.py:126 | the batch insert appends every tuple when all have one value per placeholder, otherwise it fails and changes nothing |
| Warehouse.Table.Commit | etl_orders.py:128 | a commit makes the transaction's view durable, or fails and keeps the old contents |
| Warehouse.Table.Rollback | etl_orders.py:137 | a rollback restores the committed contents |
| Warehouse.Table.Replace | etl_orders.py:92-137 | an empty frame is skipped; otherwise the table ends with exactly the frame's rows exactly when clear, width check, insert and commit all succeed, and otherwise keeps its prior contents |
| EtlCategory.ExtractCategories | etl_category.py:7-20 | the extracted frame has the query's three columns, or is empty when the query raised |
| EtlCategory.TransformDataSpec | etl_category.py:23-34 | the transform keeps every row in order and yields exactly Source_CategoryID, CategoryName, CategoryDescription, holding the old CategoryID, CategoryName and Description |
| EtlCategory.TransformExtracted | etl_category.py:23-34 | on an extracted frame the transform returns the fetched rows unchanged under the dimension's three columns |
| EtlCategory.TransformFailedExtract | etl_category.py:18-31 | after a failed extract the transform raises a KeyError, naming Source_CategoryID |
| EtlCategory.LoadDimensionTable | etl_category.py:37-71 | an empty frame leaves Dim_Category unchanged; a load commits exactly the frame's rows when every step succeeds; any database error leaves the prior contents |
| EtlCategory.Run | etl_category.py:74-77 | a run either commits exactly the fetched rows or leaves Dim_Category as it was; with no database error and a non-empty extract it commits them |
| EtlProduct.ExtractProducts | etl_product.py:7-31 | the extracted frame has the query's eight columns, or is empty when the query raised |
| EtlProduct.CoerceColumn | etl_product.py:46 | the coerced column has one cell per input cell, each the cell's numeric coercion |
| EtlProduct.CastColumn | etl_product.py:45 | the cast succeeds exactly when every cell casts, yielding each cell's cast; otherwise it reports a failing cell's error |
| EtlProduct.CoerceIds | etl_product.py:45 | Source_ProductID becomes the Int64 cast of its numeric coercion, every other cell is kept; it raises only on a missing column or a fractional id |
| EtlProduct.CoercePrices | etl_product.py:46 | UnitPrice becomes its numeric coercion, every other cell is kept; it never raises on a frame with the column |
| EtlProduct.ProductKeyFailsOnFraction | etl_product.py:45 | a product id fails the cast exactly when it coerces to a number with a fractional part |
| EtlProduct.CoercedSpec | etl_product.py:38-46 | after renaming and coercion every row is kept and every dimension label is present |
| EtlProduct.CoercedRow | etl_product.py:38-46 | after renaming and coercion each dimension label of a row holds the renamed id or value, the id and price coerced |
| EtlProduct.TransformDataRow | etl_product.py:34-61 | each output row is the source row's dimension row |
| EtlProduct.TransformDataSpec | etl_product.py:34-61 | the transform keeps every row in order under exactly Dim_Product's eight columns: ids renamed with their values, id and price coerced, everything else unchanged |
| EtlProduct.TransformExtracted | etl_product.py:34-61 | on extracted rows whose ids cast, each fetched row becomes one dimension row with only its id and price rewritten |
| EtlProduct.TransformRejectsUncastableId | etl_product.py:45 | one product id with a fractional part makes the whole transform raise |
| EtlProduct.TransformRejectsUncastableRows | etl_product.py:45 | an extract holding such an id makes the transform raise |
| EtlProduct.TransformFailedExtract | etl_product.py:29-45 | after a failed extract the transform raises a KeyError, naming Source_ProductID |
| EtlProduct.LoadDimensionTable | etl_product.py:64-105 | an empty frame leaves Dim_Product unchanged; a load commits exactly the frame's rows when every step succeeds; any database error leaves the prior contents |
| EtlProduct.Run | etl_product.py:108-111 | a run commits exactly the fetched rows' dimension rows or leaves Dim_Product as it was; a failed extract or an uncastable id loads nothing |
| EtlOrders.ExtractOrders | etl_orders.py:7-32 | the extracted frame has the query's eight columns, or is empty when the query raised |
| EtlOrders.Times | etl_orders.py:39 | a cell product is defined exactly on numbers and missing cells; it is missing exactly when an operand is, and otherwise the product of the operands |
| EtlOrders.Minus | etl_orders.py:39 | a cell difference is defined exactly on numbers and missing cells; it is missing exactly when an operand is, and otherwise the difference |
| EtlOrders.ExtendedPriceEquation | etl_orders.py:39 | the price is defined exactly when every operand is a number or missing; it is missing exactly when an operand is; for numbers it equals Quantity × UnitPrice × (1 − Discount) |
| EtlOrders.ExtendedPriceOfNumbers | etl_orders.py:39 | three numbers always have an extended price, and it satisfies the price equation |
| EtlOrders.ExtendedPriceSteps | etl_orders.py:39 | for numbers the price is the gross amount times one less the discount |
| EtlOrders.ExtendedPriceExample | etl_orders.py:39 | ten units at 20.00 with a ten percent discount come to 180.00 |
| EtlOrders.ExtendedPriceColumn | etl_orders.py:39 | the derived column succeeds exactly when every row's price does, holding each row's price; otherwise it raises TypeError |
| EtlOrders.PricedAssigned | etl_orders.py:39 | the assigned ExtendedPrice column holds each row's price next to the unchanged source cells |
| EtlOrders.PricedSpec | etl_orders.py:38-42 | the price stage keeps every row, adds ExtendedPrice with each row's price, keeps every other cell, and adds no other label |
| EtlOrders.PricedRejects | etl_orders.py:39 | a row with a non-numeric price operand makes the price stage raise TypeError |
| EtlOrders.ResolvedSpec | etl_orders.py:55-69 | with unique natural keys the lookup stage keeps every row and cell, adds ProductKey as the resolved surrogate, and leaves no copy of the map's natural key |
| EtlOrders.FactKeepsCell | etl_orders.py:72-75 | a label the rename leaves alone keeps its cells |
| EtlOrders.FactMovesCell | etl_orders.py:72-75 | a renamed id carries its cells under its new label |
| EtlOrders.RenamedFactCells | etl_orders.py:72-75 | after the rename, Source_OrderID and Source_ProductID hold the original OrderID and ProductID and the other fact labels keep their cells |
| EtlOrders.RenamedFactRow | etl_orders.py:72-83 | the renamed frame's fact labels of a row spell that row's final fact row |
| EtlOrders.FinalizedRow | etl_orders.py:71-83 | after renaming and projection a row is its final fact row |
| EtlOrders.FinalizedSpec | etl_orders.py:71-83 | the clean-up keeps every row in order under exactly the nine fact columns |
| EtlOrders.UnitPriceNotLoaded | etl_orders.py:78-82 | UnitPrice is not among the fact table's columns |
| EtlOrders.StagesCompose | etl_orders.py:38-69 | pricing then lookup keeps every row and gives each row the cells its fact row needs |
| EtlOrders.TransformFactSpec | etl_orders.py:35-89 | with a readable key map of unique natural keys, the transform keeps every row in order under exactly the nine fact columns, without UnitPrice, and each row carries the original ids, the resolved ProductKey, the dates, Quantity, Discount and the derived price |
| EtlOrders.TransformFactRow | etl_orders.py:35-89 | each output row is its source row's fact row |
| EtlOrders.FactRowPrice | etl_orders.py:39 | a fact row keeps Quantity and Discount, and its ExtendedPrice satisfies the price equation with the dropped UnitPrice |
| EtlOrders.ExtendedPriceHolds | etl_orders.py:39-83 | every transformed row with numeric operands satisfies ExtendedPrice = Quantity × UnitPrice × (1 − Discount) |
| EtlOrders.TransformWithoutMap | etl_orders.py:44-53 | when the key map cannot be read, the transform returns an empty frame after deriving the price, and so raises only what the price stage raises |
| EtlOrders.ExtractedCells | etl_orders.py:12-25 | each label of an extracted frame reads its own position of the fetched row |
| EtlOrders.ExtractPositions | etl_orders.py:12-25 | each select-list label sits at its own position, and the extract's header suits the transform |
| EtlOrders.ExtractedPriceable | etl_orders.py:12-39 | an extracted frame can be priced exactly when every fetched row's Quantity, UnitPrice and Discount are numbers or missing |
| EtlOrders.TransformExtracted | etl_orders.py:35-89 | on priceable extracted rows and a key map of unique natural keys, each fetched row becomes exactly one fact row, in order |
| EtlOrders.TransformRejectsUnpriceable | etl_orders.py:39 | a fetched row with a non-numeric price operand makes the transform raise before any lookup |
| EtlOrders.TransformExtractedWithoutMap | etl_orders.py:46-53 | a priceable extract with no readable key map becomes an empty frame |
| EtlOrders.TransformFailedExtract | etl_orders.py:30-39 | after a failed extract the transform raises a KeyError, naming Quantity |
| EtlOrders.FactOutputWidth | etl_orders.py:77-124 | whatever the transform returns is empty or nine columns wide, so the loader's width check never fires on it |
| EtlOrders.LoadFactTable | etl_orders.py:92-137 | an empty frame leaves Fact_OrderMetrics unchanged; a first tuple of the wrong width fails before the insert; a load commits exactly the frame's rows when every step succeeds; any failure leaves the prior contents |
| EtlOrders.Run | etl_orders.py:140-143 | a failed extract, an unpriceable row or an unreadable key map loads nothing; with unique natural keys a load commits exactly the fetched rows' fact rows; with no database error it does commit them |

## Left out

- Database I/O is not modelled: `pyodbc.connect`, cursors, `pd.read_sql` and connection closing. The
  outcome of each read is a parameter: the extract as `Option<seq<Row>>`, the key map as
  `Option<seq<KeyPair>>`. Which statements the database rejects is the `Faults` parameter.
- SQL text and engine semantics are not modelled, for example `TRUNCATE` versus `DELETE` under foreign keys.
  Clearing is one step that may fail.
- Logging is not modelled: the `print` calls, including the column-count message at `etl_orders.py:86`.
- `connection_test.py` and `config.py` are not part of this model. They hold a connectivity smoke test and
  connection strings.
- Floating point is not modelled: numbers are exact reals, and prices are not rounded.
- The column arithmetic does not track the numpy dtype.
  - Two numbers always give a real, and booleans count as 0 and 1.
  - Integer-only arithmetic would give an int64 in pandas.
- EtlOrders.Times: a text operand raises, as when its other operand is a float. pandas would repeat the
  string when a text column is multiplied by an integer column.
- Values.ToNumeric: only optional '-' followed by decimal digits is parsed as text. Decimal points,
  exponents, whitespace and the like become missing here, where pandas would parse them.
- Values.CastInt64: no 64-bit overflow; integers are unbounded.
- KeyResolver.MergeLeft: pandas' check that the two key columns have compatible dtypes is not modelled
  (a text key column merged with a numeric one raises ValueError there). The model compares keys by
  value, so a text key simply matches nothing.
- The merge's upcast is not modelled: pandas turns an integer `ProductKey` into a float when some row has
  no match. The model keeps the surrogate value as the map gives it.
- Repeated column labels are not modelled: a label is read at its first occurrence. The frames these
  scripts build never repeat a label.
- The merge's `_x`/`_y` suffixes are not modelled; they appear only when a label is on both sides.
  `FactTransformable` excludes that case for the fact frame.
- The transforms' in-place mutation of the caller's DataFrame is modelled as a new value: the model
  captures neither the aliasing nor the order of updates. No caller reads the frame again.
- The error paths' Python accidents are not modelled:
  - `cnxn` is unbound in the `except` blocks when `connect` itself raises;
  - the uncaught `ValueError` of the fact loader's width check.

  Either way the load ends without a commit, and the server discards the open transaction. The model
  rolls back and reports `ArityMismatch`.
- `executemany` is one atomic statement in the model. A failed batch leaves nothing inserted, and the
  loader rolls back in any case.
- Identity generation for the dimension's surrogate `ProductKey` is not modelled; the key map is an
  input.
- EtlOrders.Run: the committed rows are stated only for a key map with unique natural keys. With a
  repeated key the merge fans rows out, as `KeyResolver.DuplicateKeyDuplicatesRow` shows, and the run
  then states only that the table holds whatever the load committed.
- EtlOrders.ExtendedPriceHolds: the price equation is stated for numeric operands. For a missing operand,
  `ExtendedPriceEquation` states that the price is missing.
