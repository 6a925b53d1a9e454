/**
 * A pandas DataFrame as the three scripts use it: an ordered list of column
 * labels and a sequence of positional rows. The operations are the handful of
 * DataFrame calls the transforms make: `df['c']` (read a column),
 * `df['c'] = values` (assign a column), `df.rename(columns=...)`,
 * `df.drop('c', axis=1)` and `df[[c1, c2, ...]]` (select and reorder).
 *
 * A label is looked up at its first occurrence. pandas would return or drop
 * every column carrying a repeated label; the frames the scripts build never
 * carry one, so the two agree on every frame the pipeline sees.
 */
module Frames {
  import opened Values

  type Row = seq<Value>

  datatype Frame = Frame(columns: seq<string>, rows: seq<Row>)

  /** `pd.DataFrame()`: what an extract returns when the query fails. */
  const Empty := Frame([], [])

  /** Every row has one cell per column. */
  predicate Rectangular(f: Frame) {
    forall i :: 0 <= i < |f.rows| ==> |f.rows[i]| == |f.columns|
  }

  /** `df.empty`: no rows, or no columns. */
  predicate IsEmpty(f: Frame) {
    |f.rows| == 0 || |f.columns| == 0
  }

  /**
   * The frame an extract hands to its transform: the query's columns and the
   * fetched rows, or an empty frame when the connection or the query failed.
   */
  function Extract(columns: seq<string>, fetched: Option<seq<Row>>): (f: Frame)
    requires fetched.Some? ==> forall i :: 0 <= i < |fetched.value| ==> |fetched.value[i]| == |columns|
    ensures Rectangular(f)
    ensures fetched.None? ==> f == Empty && IsEmpty(f)
    ensures fetched.Some? ==> f.columns == columns && f.rows == fetched.value
  {
    match fetched
    case None => Empty
    case Some(rows) => Frame(columns, rows)
  }

  // ---------------------------------------------------------------------------
  // Column positions

  /** Position of the first column carrying `name`. */
  function IndexOf(cols: seq<string>, name: string): (k: nat)
    requires name in cols
    ensures k < |cols| && cols[k] == name && name !in cols[..k]
  {
    if cols[0] == name then 0
    else
      var k := 1 + IndexOf(cols[1..], name);
      assert cols[..k] == [cols[0]] + cols[1..][..k - 1];
      k
  }

  /** The first occurrence is the only position satisfying IndexOf's contract. */
  lemma IndexOfUnique(cols: seq<string>, name: string, k: nat)
    requires k < |cols| && cols[k] == name && name !in cols[..k]
    ensures IndexOf(cols, name) == k
  {
  }

  lemma IndexOfPrefix(a: seq<string>, b: seq<string>, name: string)
    requires name in a
    ensures name in a + b && IndexOf(a + b, name) == IndexOf(a, name)
  {
    var k := IndexOf(a, name);
    assert (a + b)[..k] == a[..k];
    IndexOfUnique(a + b, name, k);
  }

  lemma IndexOfSuffix(a: seq<string>, b: seq<string>, name: string)
    requires name !in a && name in b
    ensures name in a + b && IndexOf(a + b, name) == |a| + IndexOf(b, name)
  {
    var k := IndexOf(b, name);
    assert (a + b)[..|a| + k] == a + b[..k];
    IndexOfUnique(a + b, name, |a| + k);
  }

  /** The value in row `i` under label `name`, as `df[name][i]` reads it. */
  function Cell(f: Frame, i: nat, name: string): Value
    requires Rectangular(f) && i < |f.rows| && name in f.columns
  {
    f.rows[i][IndexOf(f.columns, name)]
  }

  // ---------------------------------------------------------------------------
  // df['c']

  function Column(f: Frame, name: string): (r: Result<seq<Value>>)
    requires Rectangular(f)
    ensures r.Ok? <==> name in f.columns
    ensures r.Err? ==> r.error == MissingColumn(name)
    ensures r.Ok? ==> |r.value| == |f.rows| && forall i :: 0 <= i < |f.rows| ==> r.value[i] == Cell(f, i, name)
  {
    if name in f.columns then Ok(seq(|f.rows|, i requires 0 <= i < |f.rows| => Cell(f, i, name)))
    else Err(MissingColumn(name))
  }

  // ---------------------------------------------------------------------------
  // df['c'] = values

  /**
   * Column assignment: an existing column is overwritten where it stands, a
   * new one is appended at the right; every other cell is untouched.
   */
  function Assign(f: Frame, name: string, vs: seq<Value>): (g: Frame)
    requires Rectangular(f) && |vs| == |f.rows|
    ensures Rectangular(g) && |g.rows| == |f.rows|
    ensures forall m :: m in g.columns <==> m in f.columns || m == name
    ensures name in f.columns ==> g.columns == f.columns
    ensures name !in f.columns ==> g.columns == f.columns + [name]
    ensures forall i :: 0 <= i < |g.rows| ==> Cell(g, i, name) == vs[i]
    ensures forall i, m :: 0 <= i < |g.rows| && m in f.columns && m != name ==> Cell(g, i, m) == Cell(f, i, m)
  {
    if name in f.columns then
      var k := IndexOf(f.columns, name);
      Frame(f.columns, seq(|f.rows|, i requires 0 <= i < |f.rows| => f.rows[i][k := vs[i]]))
    else
      var g := Frame(f.columns + [name], seq(|f.rows|, i requires 0 <= i < |f.rows| => f.rows[i] + [vs[i]]));
      assert forall m :: m in f.columns ==> IndexOf(g.columns, m) == IndexOf(f.columns, m) by {
        forall m | m in f.columns { IndexOfPrefix(f.columns, [name], m); }
      }
      assert IndexOf(g.columns, name) == |f.columns| by { IndexOfSuffix(f.columns, [name], name); }
      g
  }

  // ---------------------------------------------------------------------------
  // df.rename(columns=ren)

  /** The label a column carries after renaming with `ren`; unlisted labels are kept. */
  function NewName(ren: map<string, string>, c: string): string {
    if c in ren then ren[c] else c
  }

  function Rename(f: Frame, ren: map<string, string>): (g: Frame)
    ensures g.rows == f.rows && |g.columns| == |f.columns|
    ensures forall j :: 0 <= j < |f.columns| ==> g.columns[j] == NewName(ren, f.columns[j])
    ensures Rectangular(f) ==> Rectangular(g)
  {
    Frame(seq(|f.columns|, j requires 0 <= j < |f.columns| => NewName(ren, f.columns[j])), f.rows)
  }

  /** After renaming, label `b` holds what label `a` held, when `a` is the only column renamed to `b`. */
  lemma RenameCell(f: Frame, ren: map<string, string>, a: string, b: string)
    requires Rectangular(f) && a in f.columns && NewName(ren, a) == b
    requires forall c :: c in f.columns && NewName(ren, c) == b ==> c == a
    ensures b in Rename(f, ren).columns
    ensures forall i :: 0 <= i < |f.rows| ==> Cell(Rename(f, ren), i, b) == Cell(f, i, a)
  {
    var g := Rename(f, ren);
    var k := IndexOf(f.columns, a);
    assert g.columns[k] == b;
    forall j | 0 <= j < k ensures g.columns[j] != b {
      assert f.columns[..k][j] == f.columns[j];
    }
    assert b !in g.columns[..k] by {
      forall x | x in g.columns[..k] ensures x != b {
        var j :| 0 <= j < k && g.columns[..k][j] == x;
      }
    }
    IndexOfUnique(g.columns, b, k);
  }

  // ---------------------------------------------------------------------------
  // df.drop('c', axis=1)

  function Drop(f: Frame, name: string): (r: Result<Frame>)
    requires Rectangular(f)
    ensures r.Ok? <==> name in f.columns
    ensures r.Err? ==> r.error == MissingColumn(name)
    ensures r.Ok? ==> Rectangular(r.value) && |r.value.rows| == |f.rows|
    ensures r.Ok? ==> multiset(r.value.columns) == multiset(f.columns) - multiset{name}
  {
    if name !in f.columns then Err(MissingColumn(name))
    else
      var k := IndexOf(f.columns, name);
      assert f.columns == f.columns[..k] + [name] + f.columns[k + 1..];
      Ok(Frame(f.columns[..k] + f.columns[k + 1..],
               seq(|f.rows|, i requires 0 <= i < |f.rows| => f.rows[i][..k] + f.rows[i][k + 1..])))
  }

  /** Dropping one label leaves every other label's cells where a lookup finds them. */
  lemma DropCell(f: Frame, name: string, m: string)
    requires Rectangular(f) && name in f.columns && m in f.columns && m != name
    ensures m in Drop(f, name).value.columns
    ensures forall i :: 0 <= i < |f.rows| ==> Cell(Drop(f, name).value, i, m) == Cell(f, i, m)
  {
    var g := Drop(f, name).value;
    var k := IndexOf(f.columns, name);
    var j := IndexOf(f.columns, m);
    assert g.columns == f.columns[..k] + f.columns[k + 1..];
    if j < k {
      assert g.columns[..j] == f.columns[..j];
      IndexOfUnique(g.columns, m, j);
    } else {
      assert g.columns[j - 1] == m;
      assert m !in g.columns[..j - 1] by {
        assert g.columns[..j - 1] == f.columns[..k] + f.columns[k + 1..j];
        assert forall x :: x in f.columns[..k] + f.columns[k + 1..j] ==> x in f.columns[..j] by {
          assert f.columns[..j] == f.columns[..k] + [f.columns[k]] + f.columns[k + 1..j];
        }
      }
      IndexOfUnique(g.columns, m, j - 1);
    }
  }

  /** A label that occurred once is gone after it is dropped. */
  lemma DropRemoves(f: Frame, name: string)
    requires Rectangular(f) && multiset(f.columns)[name] == 1
    ensures name !in Drop(f, name).value.columns
  {
  }

  // ---------------------------------------------------------------------------
  // df[[c1, c2, ...]]

  function FirstMissing(names: seq<string>, cols: seq<string>): (m: string)
    requires exists n :: n in names && n !in cols
    ensures m in names && m !in cols
  {
    if names[0] !in cols then names[0] else FirstMissing(names[1..], cols)
  }

  /** Select and reorder: exactly the listed columns, in the listed order, or a KeyError. */
  function Select(f: Frame, names: seq<string>): (r: Result<Frame>)
    requires Rectangular(f)
    ensures r.Ok? <==> forall n :: n in names ==> n in f.columns
    ensures r.Err? ==> r.error.MissingColumn? && r.error.name in names && r.error.name !in f.columns
    ensures r.Ok? ==> r.value.columns == names && Rectangular(r.value) && |r.value.rows| == |f.rows|
    ensures r.Ok? ==> forall i, j :: 0 <= i < |f.rows| && 0 <= j < |names| ==> r.value.rows[i][j] == Cell(f, i, names[j])
  {
    if forall n :: n in names ==> n in f.columns then
      Ok(Frame(names, seq(|f.rows|, i requires 0 <= i < |f.rows| =>
                            seq(|names|, j requires 0 <= j < |names| => Cell(f, i, names[j])))))
    else
      Err(MissingColumn(FirstMissing(names, f.columns)))
  }
}
