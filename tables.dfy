/** The knowledge base's data model: a table of property listings as pandas
    holds it after `read_csv`, and the exceptions the query code can raise. */
module Tables {
  import opened Seqs
  import opened Strings

  /** One cell. `read_csv` leaves an empty field as NaN, written `Missing`. */
  datatype Cell = Text(text: string) | Missing

  /** A row maps column names to cells; a name the map lacks reads as `Missing`. */
  type Row = map<string, Cell>

  /** A DataFrame: its column names in order, and its rows in order. */
  datatype Table = Table(columns: seq<string>, rows: seq<Row>)

  /** What `read_csv` produces: column names without repeats (it renames a
      repeated header `X` to `X.1`), and every row has a cell, possibly NaN,
      for exactly the table's columns. */
  predicate WellFormed(t: Table) {
    && (forall i, j :: 0 <= i < j < |t.columns| ==> t.columns[i] != t.columns[j])
    && forall i :: 0 <= i < |t.rows| ==> t.rows[i].Keys == set c | c in t.columns
  }

  /** In a well-formed table two rows are equal as maps exactly when they
      hold the same cell in every column, NaN matching NaN, which is how
      `drop_duplicates` compares rows. */
  lemma RowsEqualIffCellsEqual(t: Table, i: nat, j: nat)
    requires WellFormed(t) && i < |t.rows| && j < |t.rows|
    ensures t.rows[i] == t.rows[j] <==> forall c :: c in t.columns ==> Get(t.rows[i], c) == Get(t.rows[j], c)
  {
    var a, b := t.rows[i], t.rows[j];
    if forall c :: c in t.columns ==> Get(a, c) == Get(b, c) {
      assert a.Keys == b.Keys;
      assert forall c :: c in a ==> a[c] == Get(a, c) == Get(b, c) == b[c];
    }
  }

  function Get(row: Row, column: string): Cell {
    if column in row then row[column] else Missing
  }

  /** `DataFrame.empty`: no rows, or no columns; that is, the table holds no
      cell. */
  predicate IsEmpty(t: Table)
    ensures WellFormed(t) ==> (IsEmpty(t) <==> forall i :: 0 <= i < |t.rows| ==> t.rows[i] == map[])
  {
    assert WellFormed(t) && |t.rows| > 0 && |t.columns| > 0 ==> t.columns[0] in t.rows[0].Keys;
    assert WellFormed(t) && |t.columns| == 0 ==> forall i :: 0 <= i < |t.rows| ==> t.rows[i].Keys == {};
    |t.rows| == 0 || |t.columns| == 0
  }

  /** `astype(str)` on one cell: a text prints as itself and NaN as "nan", so
      NaN and the text "nan" print alike. */
  function CellStr(c: Cell): (r: string)
    ensures c.Text? ==> r == c.text
    ensures r == "nan" <==> c == Missing || c == Text("nan")
  {
    match c
    case Text(s) => s
    case Missing => "nan"
  }

  /** The exceptions the query code lets escape: indexing a column the table
      lacks, and converting a sanitized cell that is not a number. */
  datatype Error = KeyError(key: string) | ValueError(message: string)

  /** `str(e)` for each exception: a `KeyError` prints its key quoted, a
      `ValueError` its message. */
  function ErrorText(e: Error): (r: string)
    ensures e.KeyError? ==> |r| == |e.key| + 2 && r[0] == '\'' == r[|r| - 1] && r[1..|r| - 1] == e.key
    ensures e.ValueError? ==> r == e.message
  {
    match e
    case KeyError(key) => "'" + key + "'"
    case ValueError(message) => message
  }

  datatype Result<+T> = Ok(value: T) | Err(error: Error)

  /** The column's values, NaN dropped (`df[column].dropna()`). */
  function Present(rows: seq<Row>, column: string): (r: seq<string>)
    ensures forall v :: v in r <==> exists i :: 0 <= i < |rows| && Get(rows[i], column) == Text(v)
  {
    if rows == [] then []
    else
      var r := Present(rows[1..], column);
      assert forall i :: 1 <= i < |rows| ==> rows[i] == rows[1..][i - 1];
      match Get(rows[0], column)
      case Text(v) => [v] + r
      case Missing => r
  }

  /** `dropna()` keeps row order and repeats: the values of two runs of rows
      are the values of the first run, then those of the second. */
  lemma {:induction false} PresentSplits(a: seq<Row>, b: seq<Row>, column: string)
    ensures Present(a + b, column) == Present(a, column) + Present(b, column)
  {
    if a == [] {
      assert a + b == b;
    } else {
      assert (a + b)[0] == a[0];
      assert (a + b)[1..] == a[1..] + b;
      PresentSplits(a[1..], b, column);
    }
  }

  /** `df[column].dropna().unique()`: each present value once, in order of
      first appearance (`DistinctValuesOrder`). */
  function DistinctValues(rows: seq<Row>, column: string): (r: seq<string>)
    ensures NoDup(r)
    ensures forall v :: v in r <==> exists i :: 0 <= i < |rows| && Get(rows[i], column) == Text(v)
  {
    Dedup(Present(rows, column))
  }

  /** `unique()` lists values in order of first appearance: of two listed
      values, the earlier one is held by some row above every row holding
      the later one. */
  lemma DistinctValuesOrder(rows: seq<Row>, column: string, i: nat, j: nat)
    requires i < j < |DistinctValues(rows, column)|
    ensures var d := DistinctValues(rows, column);
      exists k :: 0 <= k < |rows| && Get(rows[k], column) == Text(d[i])
        && forall l :: 0 <= l <= k ==> Get(rows[l], column) != Text(d[j])
  {
    var p := Present(rows, column);
    var d := DistinctValues(rows, column);
    assert d[i] in d && d[j] in d;
    DedupKeepsFirstAppearanceOrder(p, i, j);
    PresentOrder(rows, column, d[i], d[j]);
  }

  /** A value that comes first in the column's present values is held by a
      row above every row holding the other value. */
  lemma {:induction false} PresentOrder(rows: seq<Row>, column: string, x: string, y: string)
    requires x in Present(rows, column) && y in Present(rows, column)
    requires FirstIndex(Present(rows, column), x) < FirstIndex(Present(rows, column), y)
    ensures exists k :: 0 <= k < |rows| && Get(rows[k], column) == Text(x)
                        && forall l :: 0 <= l <= k ==> Get(rows[l], column) != Text(y)
  {
    var p := Present(rows, column);
    var rest := Present(rows[1..], column);
    if Get(rows[0], column) == Text(x) {
      assert x != y;
    } else {
      if Get(rows[0], column).Text? {
        var v := Get(rows[0], column).text;
        assert p == [v] + rest;
        assert p[0] != x;
        FirstIndexOfTail(p, x);
        FirstIndexOfTail(p, y);
      } else {
        assert p == rest;
      }
      PresentOrder(rows[1..], column, x, y);
      var k :| 0 <= k < |rows[1..]| && Get(rows[1..][k], column) == Text(x)
        && forall l :: 0 <= l <= k ==> Get(rows[1..][l], column) != Text(y);
      assert Get(rows[k + 1], column) == Text(x);
      forall l | 0 <= l <= k + 1 ensures Get(rows[l], column) != Text(y) {
        if l > 0 {
          assert rows[l] == rows[1..][l - 1];
        }
      }
    }
  }

  /** Past a first element other than `x`, the first occurrence of `x` is one
      further along. */
  lemma FirstIndexOfTail<T>(s: seq<T>, x: T)
    requires x in s && s[0] != x
    ensures x in s[1..] && FirstIndex(s, x) == FirstIndex(s[1..], x) + 1
  {
  }
}
