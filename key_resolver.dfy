/**
 * The product-key lookup of the fact transform: a left merge of the fact
 * frame with the key map read back from Dim_Product
 * (`SELECT ProductKey, Source_ProductID FROM Dim_Product`), joining the
 * fact's `ProductID` against the map's `Source_ProductID`.
 *
 * The merge keeps every fact row. A row whose key matches no map entry
 * gets missing values in the two map columns. A row whose key matches k
 * entries is repeated k times, once per entry in map order, as pandas does.
 */
module KeyResolver {
  import opened Values
  import opened Frames

  /** The key map's columns, in the order the read-back query selects them. */
  const SurrogateColumn := "ProductKey"
  const NaturalColumn := "Source_ProductID"

  /** One row of the key map. */
  datatype KeyPair = KeyPair(surrogate: Value, natural: Value)

  /** The map entries whose natural key equals `key`, in map order. */
  function Matches(pairs: seq<KeyPair>, key: Value): (ms: seq<KeyPair>)
    ensures |ms| <= |pairs|
    ensures forall m :: m in ms ==> m in pairs && KeyEq(m.natural, key)
    ensures forall j :: 0 <= j < |pairs| && KeyEq(pairs[j].natural, key) ==> pairs[j] in ms
  {
    if pairs == [] then []
    else
      var rest := Matches(pairs[1..], key);
      assert forall j :: 1 <= j < |pairs| ==> pairs[j] == pairs[1..][j - 1];
      if KeyEq(pairs[0].natural, key) then [pairs[0]] + rest else rest
  }

  /**
   * The positions from `j` on of the map entries whose natural key equals
   * `key`: every matching position, no other, in increasing order.
   */
  function MatchIndices(pairs: seq<KeyPair>, key: Value, j: nat): (idx: seq<nat>)
    requires j <= |pairs|
    ensures forall t :: 0 <= t < |idx| ==> j <= idx[t] < |pairs| && KeyEq(pairs[idx[t]].natural, key)
    ensures forall m :: j <= m < |pairs| && KeyEq(pairs[m].natural, key) ==> m in idx
    ensures forall s, t :: 0 <= s < t < |idx| ==> idx[s] < idx[t]
    decreases |pairs| - j
  {
    if j == |pairs| then []
    else if KeyEq(pairs[j].natural, key) then [j] + MatchIndices(pairs, key, j + 1)
    else MatchIndices(pairs, key, j + 1)
  }

  /**
   * The matches are exactly the entries at the matching positions, in map
   * order: one copy per matching entry, none reordered, none merged.
   */
  lemma MatchesInMapOrder(pairs: seq<KeyPair>, key: Value)
    ensures |Matches(pairs, key)| == |MatchIndices(pairs, key, 0)|
    ensures forall t :: 0 <= t < |Matches(pairs, key)| ==> Matches(pairs, key)[t] == pairs[MatchIndices(pairs, key, 0)[t]]
  {
    MatchesFrom(pairs, key, 0);
    assert pairs[0..] == pairs;
  }

  lemma {:induction false} MatchesFrom(pairs: seq<KeyPair>, key: Value, j: nat)
    requires j <= |pairs|
    ensures |Matches(pairs[j..], key)| == |MatchIndices(pairs, key, j)|
    ensures forall t :: 0 <= t < |Matches(pairs[j..], key)| ==>
              Matches(pairs[j..], key)[t] == pairs[MatchIndices(pairs, key, j)[t]]
    decreases |pairs| - j
  {
    if j < |pairs| {
      MatchesFrom(pairs, key, j + 1);
      var here := pairs[j..];
      assert here[1..] == pairs[j + 1..];
      assert here[0] == pairs[j];
      var rest := Matches(pairs[j + 1..], key);
      var idx := MatchIndices(pairs, key, j + 1);
      if KeyEq(pairs[j].natural, key) {
        assert Matches(here, key) == [pairs[j]] + rest;
        assert MatchIndices(pairs, key, j) == [j] + idx;
        PickCons(pairs, j, idx, rest);
      } else {
        assert Matches(here, key) == rest;
        assert MatchIndices(pairs, key, j) == idx;
      }
    } else {
      assert pairs[j..] == [];
    }
  }

  /** Prepending entry `j` to a picked list prepends `j` to its positions. */
  lemma PickCons(pairs: seq<KeyPair>, j: nat, idx: seq<nat>, picked: seq<KeyPair>)
    requires j < |pairs| && |picked| == |idx|
    requires forall t :: 0 <= t < |idx| ==> idx[t] < |pairs| && picked[t] == pairs[idx[t]]
    ensures forall t :: 0 <= t < |idx| + 1 ==> ([pairs[j]] + picked)[t] == pairs[([j] + idx)[t]]
  {
    forall t | 1 <= t < |idx| + 1 ensures ([pairs[j]] + picked)[t] == pairs[([j] + idx)[t]] {
      assert ([pairs[j]] + picked)[t] == picked[t - 1];
      assert ([j] + idx)[t] == idx[t - 1];
    }
  }

  /** The dimension's uniqueness invariant: no natural key occurs twice in the map. */
  predicate UniqueNaturals(pairs: seq<KeyPair>) {
    forall a, b :: 0 <= a < b < |pairs| ==> !KeyEq(pairs[a].natural, pairs[b].natural)
  }

  /** The two map cells a left row is extended with when it has at most one match. */
  function Joined(pairs: seq<KeyPair>, key: Value): seq<Value> {
    var ms := Matches(pairs, key);
    if ms == [] then [Null, Null] else [ms[0].surrogate, ms[0].natural]
  }

  /** The surrogate key a natural key resolves to, or missing when it has no entry. */
  function Lookup(pairs: seq<KeyPair>, key: Value): Value {
    Joined(pairs, key)[0]
  }

  /**
   * Output row `o` is left row `row` widened by the map cells of one of its
   * matches, or by two missing cells when it has none.
   */
  ghost predicate FromRow(o: Row, row: Row, ms: seq<KeyPair>) {
    && |o| == |row| + 2 && o[..|row|] == row
    && (ms == [] ==> o[|row|..] == [Null, Null])
    && (ms != [] ==> exists p :: p in ms && o[|row|..] == [p.surrogate, p.natural])
  }

  /** The output rows one left row turns into. */
  function Extend(row: Row, ms: seq<KeyPair>): (out: seq<Row>)
    ensures |out| == if ms == [] then 1 else |ms|
    ensures forall j :: 0 <= j < |out| ==> |out[j]| == |row| + 2 && out[j][..|row|] == row
    ensures ms == [] ==> out[0][|row|..] == [Null, Null]
    ensures ms != [] ==> forall j :: 0 <= j < |ms| ==> out[j][|row|..] == [ms[j].surrogate, ms[j].natural]
  {
    if ms == [] then [row + [Null, Null]]
    else seq(|ms|, j requires 0 <= j < |ms| => row + [ms[j].surrogate, ms[j].natural])
  }

  /** How many output rows a left row turns into. */
  function Fanout(pairs: seq<KeyPair>, key: Value): nat {
    var n := |Matches(pairs, key)|;
    if n == 0 then 1 else n
  }

  /** The number of rows a left merge produces: each row's fanout, summed. */
  function MergedSize(rows: seq<Row>, k: nat, pairs: seq<KeyPair>): nat
    requires forall i :: 0 <= i < |rows| ==> k < |rows[i]|
  {
    if rows == [] then 0 else Fanout(pairs, rows[0][k]) + MergedSize(rows[1..], k, pairs)
  }

  function JoinRows(rows: seq<Row>, k: nat, pairs: seq<KeyPair>): (out: seq<Row>)
    requires forall i :: 0 <= i < |rows| ==> k < |rows[i]|
    ensures |out| >= |rows|
  {
    if rows == [] then []
    else Extend(rows[0], Matches(pairs, rows[0][k])) + JoinRows(rows[1..], k, pairs)
  }

  /**
   * `pd.merge(f, keymap, left_on=leftOn, right_on='Source_ProductID', how='left')`:
   * the left columns followed by the map's two columns.
   */
  function MergeLeft(f: Frame, leftOn: string, pairs: seq<KeyPair>): (r: Result<Frame>)
    requires Rectangular(f)
    ensures r.Ok? <==> leftOn in f.columns
    ensures r.Err? ==> r.error == MissingColumn(leftOn)
    ensures r.Ok? ==> r.value.columns == f.columns + [SurrogateColumn, NaturalColumn]
    ensures r.Ok? ==> |r.value.rows| >= |f.rows| && Rectangular(r.value)
  {
    if leftOn !in f.columns then Err(MissingColumn(leftOn))
    else
      var k := IndexOf(f.columns, leftOn);
      JoinRowsShape(f.rows, k, pairs, |f.columns|);
      Ok(Frame(f.columns + [SurrogateColumn, NaturalColumn], JoinRows(f.rows, k, pairs)))
  }

  // ---------------------------------------------------------------------------
  // Properties of the merge

  /** Every output row starts with a left row and carries two more cells. */
  lemma {:induction false} JoinRowsShape(rows: seq<Row>, k: nat, pairs: seq<KeyPair>, w: nat)
    requires k < w && forall i :: 0 <= i < |rows| ==> |rows[i]| == w
    ensures forall j :: 0 <= j < |JoinRows(rows, k, pairs)| ==> |JoinRows(rows, k, pairs)[j]| == w + 2
  {
    if rows != [] {
      JoinRowsShape(rows[1..], k, pairs, w);
    }
  }

  /**
   * Every merged row comes from a fact row: that row widened by the map cells
   * of one of its matches, or by two missing cells when it has none.
   */
  lemma {:induction false} JoinRowsOrigin(rows: seq<Row>, k: nat, pairs: seq<KeyPair>)
    requires forall i :: 0 <= i < |rows| ==> k < |rows[i]|
    ensures forall j :: 0 <= j < |JoinRows(rows, k, pairs)| ==>
              exists i :: 0 <= i < |rows| && FromRow(JoinRows(rows, k, pairs)[j], rows[i], Matches(pairs, rows[i][k]))
  {
    if rows != [] {
      JoinRowsOrigin(rows[1..], k, pairs);
      var ms := Matches(pairs, rows[0][k]);
      var head := Extend(rows[0], ms);
      var rest := JoinRows(rows[1..], k, pairs);
      var out := JoinRows(rows, k, pairs);
      assert out == head + rest;
      forall j | 0 <= j < |out|
        ensures exists i :: 0 <= i < |rows| && FromRow(out[j], rows[i], Matches(pairs, rows[i][k]))
      {
        if j < |head| {
          assert out[j] == head[j];
          if ms != [] {
            assert ms[j] in ms;
          }
          assert FromRow(out[j], rows[0], ms);
        } else {
          assert out[j] == rest[j - |head|];
          var i :| 0 <= i < |rows[1..]| && FromRow(rest[j - |head|], rows[1..][i], Matches(pairs, rows[1..][i][k]));
          assert rows[1..][i] == rows[i + 1];
          assert FromRow(out[j], rows[i + 1], Matches(pairs, rows[i + 1][k]));
        }
      }
    } else {
      assert JoinRows(rows, k, pairs) == [];
    }
  }

  /**
   * No fact row is lost and the order is kept: fact row `i`'s output rows
   * form one block, starting after the blocks of the rows before it, holding
   * the row widened by each of its matches in map order (or by missing cells).
   */
  lemma JoinRowsBlocks(rows: seq<Row>, k: nat, pairs: seq<KeyPair>)
    requires forall i :: 0 <= i < |rows| ==> k < |rows[i]|
    ensures forall i, t :: 0 <= i < |rows| && 0 <= t < Fanout(pairs, rows[i][k]) ==> InBlock(rows, k, pairs, i, t)
  {
    forall i, t | 0 <= i < |rows| && 0 <= t < Fanout(pairs, rows[i][k])
      ensures InBlock(rows, k, pairs, i, t)
    {
      JoinRowsBlock(rows, k, pairs, i, t);
    }
  }

  /** Output row `t` of fact row `i`'s block. */
  lemma {:induction false} JoinRowsBlock(rows: seq<Row>, k: nat, pairs: seq<KeyPair>, i: nat, t: nat)
    requires forall r :: 0 <= r < |rows| ==> k < |rows[r]|
    requires i < |rows| && t < Fanout(pairs, rows[i][k])
    ensures InBlock(rows, k, pairs, i, t)
  {
    if i == 0 {
      FirstBlock(rows, k, pairs, t);
    } else {
      JoinRowsBlock(rows[1..], k, pairs, i - 1, t);
      LaterBlock(rows, k, pairs, i, t);
    }
  }

  /**
   * Output row `MergedSize(rows[..i]) + t` of the merge is row `t` of fact
   * row `i`'s block.
   */
  ghost predicate InBlock(rows: seq<Row>, k: nat, pairs: seq<KeyPair>, i: nat, t: nat)
    requires forall r :: 0 <= r < |rows| ==> k < |rows[r]|
    requires i < |rows| && t < Fanout(pairs, rows[i][k])
  {
    && MergedSize(rows[..i], k, pairs) + t < |JoinRows(rows, k, pairs)|
    && JoinRows(rows, k, pairs)[MergedSize(rows[..i], k, pairs) + t] == Extend(rows[i], Matches(pairs, rows[i][k]))[t]
  }

  lemma FirstBlock(rows: seq<Row>, k: nat, pairs: seq<KeyPair>, t: nat)
    requires forall r :: 0 <= r < |rows| ==> k < |rows[r]|
    requires 0 < |rows| && t < Fanout(pairs, rows[0][k])
    ensures InBlock(rows, k, pairs, 0, t)
  {
    var head := Extend(rows[0], Matches(pairs, rows[0][k]));
    var rest := JoinRows(rows[1..], k, pairs);
    assert JoinRows(rows, k, pairs) == head + rest;
    FanoutIsBlockSize(rows[0], pairs, rows[0][k]);
    assert MergedSize(rows[..0], k, pairs) == 0 by { assert rows[..0] == []; }
    assert (head + rest)[t] == head[t];
  }

  lemma LaterBlock(rows: seq<Row>, k: nat, pairs: seq<KeyPair>, i: nat, t: nat)
    requires forall r :: 0 <= r < |rows| ==> k < |rows[r]|
    requires 0 < i < |rows| && t < Fanout(pairs, rows[i][k])
    requires rows[1..][i - 1] == rows[i] && InBlock(rows[1..], k, pairs, i - 1, t)
    ensures InBlock(rows, k, pairs, i, t)
  {
    var head := Extend(rows[0], Matches(pairs, rows[0][k]));
    var rest := JoinRows(rows[1..], k, pairs);
    var before := MergedSize(rows[1..][..i - 1], k, pairs);
    assert before + t < |rest| && rest[before + t] == Extend(rows[i], Matches(pairs, rows[i][k]))[t];
    assert MergedSize(rows[..i], k, pairs) == |head| + before by {
      FanoutIsBlockSize(rows[0], pairs, rows[0][k]);
      MergedPrefixCons(rows, k, pairs, i);
    }
    assert JoinRows(rows, k, pairs) == head + rest;
    ConcatRight(head, rest, before + t);
  }

  /** A row's fanout is the size of the block it turns into. */
  lemma FanoutIsBlockSize(row: Row, pairs: seq<KeyPair>, key: Value)
    ensures |Extend(row, Matches(pairs, key))| == Fanout(pairs, key)
  {
  }

  lemma ConcatRight<T>(xs: seq<T>, ys: seq<T>, n: nat)
    requires n < |ys|
    ensures (xs + ys)[|xs| + n] == ys[n]
  {
  }

  /** The fanout summed over a prefix, split after its first row. */
  lemma MergedPrefixCons(rows: seq<Row>, k: nat, pairs: seq<KeyPair>, i: nat)
    requires forall r :: 0 <= r < |rows| ==> k < |rows[r]|
    requires 0 < i <= |rows|
    ensures MergedSize(rows[..i], k, pairs) == Fanout(pairs, rows[0][k]) + MergedSize(rows[1..][..i - 1], k, pairs)
  {
    assert rows[..i][1..] == rows[1..][..i - 1];
    assert rows[..i][0] == rows[0];
  }

  /** The merge returns exactly the summed fanout of its left rows: no row is lost, none is invented. */
  lemma {:induction false} JoinRowsSize(rows: seq<Row>, k: nat, pairs: seq<KeyPair>)
    requires forall i :: 0 <= i < |rows| ==> k < |rows[i]|
    ensures |JoinRows(rows, k, pairs)| == MergedSize(rows, k, pairs)
  {
    if rows != [] {
      JoinRowsSize(rows[1..], k, pairs);
    }
  }

  /** A key that matches two map entries duplicates its fact row. */
  lemma {:induction false} DuplicateKeyDuplicatesRow(rows: seq<Row>, k: nat, pairs: seq<KeyPair>, i: nat, a: nat, b: nat)
    requires forall r :: 0 <= r < |rows| ==> k < |rows[r]|
    requires i < |rows| && a < b < |pairs|
    requires KeyEq(pairs[a].natural, rows[i][k]) && KeyEq(pairs[b].natural, rows[i][k])
    ensures |JoinRows(rows, k, pairs)| > |rows|
  {
    MergedSizeAtLeast(rows, k, pairs);
    MergedSizeAbove(rows, k, pairs, i, a, b);
    JoinRowsSize(rows, k, pairs);
  }

  lemma {:induction false} MergedSizeAtLeast(rows: seq<Row>, k: nat, pairs: seq<KeyPair>)
    requires forall r :: 0 <= r < |rows| ==> k < |rows[r]|
    ensures MergedSize(rows, k, pairs) >= |rows|
  {
    if rows != [] {
      MergedSizeAtLeast(rows[1..], k, pairs);
    }
  }

  lemma {:induction false} MergedSizeAbove(rows: seq<Row>, k: nat, pairs: seq<KeyPair>, i: nat, a: nat, b: nat)
    requires forall r :: 0 <= r < |rows| ==> k < |rows[r]|
    requires i < |rows| && a < b < |pairs|
    requires KeyEq(pairs[a].natural, rows[i][k]) && KeyEq(pairs[b].natural, rows[i][k])
    ensures MergedSize(rows, k, pairs) > |rows|
  {
    if i == 0 {
      TwoMatches(pairs, rows[0][k], a, b);
      MergedSizeAtLeast(rows[1..], k, pairs);
    } else {
      MergedSizeAbove(rows[1..], k, pairs, i - 1, a, b);
    }
  }

  lemma {:induction false} TwoMatches(pairs: seq<KeyPair>, key: Value, a: nat, b: nat)
    requires a < b < |pairs|
    requires KeyEq(pairs[a].natural, key) && KeyEq(pairs[b].natural, key)
    ensures |Matches(pairs, key)| >= 2
  {
    if a == 0 {
      assert pairs[b] == pairs[1..][b - 1];
      assert |Matches(pairs[1..], key)| >= 1;
    } else {
      assert pairs[a] == pairs[1..][a - 1] && pairs[b] == pairs[1..][b - 1];
      TwoMatches(pairs[1..], key, a - 1, b - 1);
    }
  }

  /** Under the uniqueness invariant a natural key has at most one entry. */
  lemma {:induction false} UniqueMatch(pairs: seq<KeyPair>, key: Value)
    requires UniqueNaturals(pairs)
    ensures |Matches(pairs, key)| <= 1
  {
    if pairs != [] {
      var rest := Matches(pairs[1..], key);
      assert UniqueNaturals(pairs[1..]) by {
        forall a, b | 0 <= a < b < |pairs[1..]|
          ensures !KeyEq(pairs[1..][a].natural, pairs[1..][b].natural)
        {
          assert pairs[1..][a] == pairs[a + 1] && pairs[1..][b] == pairs[b + 1];
        }
      }
      UniqueMatch(pairs[1..], key);
      if KeyEq(pairs[0].natural, key) {
        forall j | 0 <= j < |pairs[1..]| ensures !KeyEq(pairs[1..][j].natural, key) {
          assert pairs[1..][j] == pairs[j + 1];
        }
        NoMatches(pairs[1..], key);
      }
    }
  }

  lemma {:induction false} NoMatches(pairs: seq<KeyPair>, key: Value)
    requires forall j :: 0 <= j < |pairs| ==> !KeyEq(pairs[j].natural, key)
    ensures Matches(pairs, key) == []
  {
    if pairs != [] {
      NoMatches(pairs[1..], key);
    }
  }

  /**
   * Resolution semantics: a key with no entry resolves to missing; a key whose
   * entry is unique resolves to that entry's surrogate.
   */
  lemma LookupResolves(pairs: seq<KeyPair>, key: Value)
    requires UniqueNaturals(pairs)
    ensures (forall j :: 0 <= j < |pairs| ==> !KeyEq(pairs[j].natural, key)) ==> Lookup(pairs, key) == Null
    ensures forall j :: 0 <= j < |pairs| && KeyEq(pairs[j].natural, key) ==> Lookup(pairs, key) == pairs[j].surrogate
  {
    UniqueMatch(pairs, key);
    var ms := Matches(pairs, key);
    if ms != [] {
      assert ms[0] in ms;
    }
  }

  /** Under the uniqueness invariant the merge keeps row count and order, and extends each row by its lookup. */
  lemma {:induction false} JoinRowsUnique(rows: seq<Row>, k: nat, pairs: seq<KeyPair>)
    requires UniqueNaturals(pairs)
    requires forall i :: 0 <= i < |rows| ==> k < |rows[i]|
    ensures |JoinRows(rows, k, pairs)| == |rows|
    ensures forall i :: 0 <= i < |rows| ==> JoinRows(rows, k, pairs)[i] == rows[i] + Joined(pairs, rows[i][k])
  {
    if rows != [] {
      UniqueMatch(pairs, rows[0][k]);
      JoinRowsUnique(rows[1..], k, pairs);
      var out := JoinRows(rows, k, pairs);
      assert out[1..] == JoinRows(rows[1..], k, pairs);
      forall i | 0 <= i < |rows| ensures out[i] == rows[i] + Joined(pairs, rows[i][k]) {
        if i > 0 {
          assert out[i] == out[1..][i - 1];
          assert rows[i] == rows[1..][i - 1];
        }
      }
    }
  }

  /**
   * The merge in terms of cells, under the uniqueness invariant: one output
   * row per fact row, every fact column unchanged, and `ProductKey` the
   * resolved surrogate of the row's join key.
   */
  lemma MergeLeftCells(f: Frame, leftOn: string, pairs: seq<KeyPair>)
    requires Rectangular(f) && leftOn in f.columns && UniqueNaturals(pairs)
    requires SurrogateColumn !in f.columns
    ensures MergeLeft(f, leftOn, pairs).Ok?
    ensures Rectangular(MergeLeft(f, leftOn, pairs).value)
    ensures |MergeLeft(f, leftOn, pairs).value.rows| == |f.rows|
    ensures forall i, m :: 0 <= i < |f.rows| && m in f.columns ==>
              Cell(MergeLeft(f, leftOn, pairs).value, i, m) == Cell(f, i, m)
    ensures forall i :: 0 <= i < |f.rows| ==>
              Cell(MergeLeft(f, leftOn, pairs).value, i, SurrogateColumn) == Lookup(pairs, Cell(f, i, leftOn))
  {
    var g := MergeLeft(f, leftOn, pairs).value;
    var k := IndexOf(f.columns, leftOn);
    JoinRowsUnique(f.rows, k, pairs);
    assert Rectangular(g);
    forall m | m in f.columns ensures IndexOf(g.columns, m) == IndexOf(f.columns, m) {
      IndexOfPrefix(f.columns, [SurrogateColumn, NaturalColumn], m);
    }
    IndexOfSuffix(f.columns, [SurrogateColumn, NaturalColumn], SurrogateColumn);
  }

  /**
   * The merge at the level of frames: every output row is a fact row widened
   * by one of its matches (or by missing cells), and every fact row's block
   * sits, in left order, after the blocks of the rows before it.
   */
  lemma MergeLeftRows(f: Frame, leftOn: string, pairs: seq<KeyPair>)
    requires Rectangular(f) && leftOn in f.columns
    ensures MergeLeft(f, leftOn, pairs).Ok?
    ensures forall j :: 0 <= j < |MergeLeft(f, leftOn, pairs).value.rows| ==>
              exists i :: 0 <= i < |f.rows| &&
                FromRow(MergeLeft(f, leftOn, pairs).value.rows[j], f.rows[i], Matches(pairs, Cell(f, i, leftOn)))
    ensures forall i, t :: 0 <= i < |f.rows| && 0 <= t < Fanout(pairs, Cell(f, i, leftOn)) ==>
              InBlock(f.rows, IndexOf(f.columns, leftOn), pairs, i, t)
  {
    var k := IndexOf(f.columns, leftOn);
    JoinRowsOrigin(f.rows, k, pairs);
    JoinRowsBlocks(f.rows, k, pairs);
  }
}
