/** The text of the editor (rim.c): rows of cells in one flat buffer, and the index of row starts. */
module RimText {
  import Layout

  type byte = Layout.byte

  const TAB: byte := 9
  const NEWLINE: byte := 10

  datatype Mark = Original | Saved | Edited

  // `fake` cells pad a tab to the next multiple of four, `nwl` closes a line.
  datatype Cell = Cell(ch: byte, mark: Mark, fake: bool, nwl: bool)

  type Row = seq<Cell>

  // A row is its text, closed by a cell of character 0.
  ghost predicate RowOk(row: Row) {
    && |row| >= 1 && row[|row| - 1].ch == 0 && !row[|row| - 1].fake
    && forall i :: 0 <= i < |row| - 1 ==> row[i].ch != 0 && !row[i].nwl && (row[i].fake ==> row[i].ch == TAB)
  }

  ghost predicate RowsOk(rows: seq<Row>) {
    && |rows| >= 1 && (forall k :: 0 <= k < |rows| ==> RowOk(rows[k]))
    && forall k :: 0 <= k < |rows| - 1 ==> Closed(rows[k])
  }

  // The row ends in a line break.
  ghost predicate Closed(row: Row) { |row| >= 1 && row[|row| - 1].nwl }

  // ------------------------------------------------------------------ the flat buffer

  function Concat(rows: seq<Row>): seq<Cell> {
    if rows == [] then [] else Concat(rows[..|rows| - 1]) + rows[|rows| - 1]
  }

  // Where row k starts.
  function Start(rows: seq<Row>, k: nat): nat
    requires k <= |rows|
  {
    |Concat(rows[..k])|
  }

  lemma {:induction false} ConcatJoin(a: seq<Row>, b: seq<Row>)
    ensures Concat(a + b) == Concat(a) + Concat(b)
  {
    if b == [] {
      assert a + b == a;
    } else {
      var n := |b| - 1;
      ConcatJoin(a, b[..n]);
      assert (a + b)[..|a + b| - 1] == a + b[..n];
    }
  }

  lemma ConcatOne(row: Row)
    ensures Concat([row]) == row
  {
  }

  // The buffer around the rows k up to m.
  lemma Around(rows: seq<Row>, k: nat, m: nat)
    requires k <= m <= |rows|
    ensures Start(rows, k) <= Start(rows, m) <= |Concat(rows)|
    ensures Concat(rows)[..Start(rows, k)] == Concat(rows[..k])
    ensures Concat(rows)[Start(rows, k)..Start(rows, m)] == Concat(rows[k..m])
    ensures Concat(rows)[Start(rows, m)..] == Concat(rows[m..])
  {
    hide Concat;
    assert rows[..k] + rows[k..m] == rows[..m];
    assert rows[..m] + rows[m..] == rows;
    ConcatJoin(rows[..k], rows[k..m]);
    ConcatJoin(rows[..m], rows[m..]);
  }

  lemma RowAt(rows: seq<Row>, k: nat)
    requires k < |rows|
    ensures Start(rows, k + 1) == Start(rows, k) + |rows[k]| <= |Concat(rows)|
    ensures Concat(rows)[Start(rows, k)..Start(rows, k + 1)] == rows[k]
  {
    Around(rows, k, k + 1);
  }

  // The rows k up to m give way to others.
  function Splice(rows: seq<Row>, k: nat, m: nat, mid: seq<Row>): seq<Row>
    requires k <= m <= |rows|
  {
    rows[..k] + mid + rows[m..]
  }

  lemma SpliceConcat(rows: seq<Row>, k: nat, m: nat, mid: seq<Row>)
    requires k <= m <= |rows|
    ensures Start(rows, k) <= Start(rows, m) <= |Concat(rows)|
    ensures Concat(Splice(rows, k, m, mid)) == Concat(rows)[..Start(rows, k)] + Concat(mid)
            + Concat(rows)[Start(rows, m)..]
  {
    hide Concat;
    Around(rows, k, m);
    ConcatJoin(rows[..k], mid);
    ConcatJoin(rows[..k] + mid, rows[m..]);
  }

  // Starts before the change stay, those after it move by the difference in cells.
  lemma SpliceStart(rows: seq<Row>, k: nat, m: nat, mid: seq<Row>, j: nat)
    requires k <= m <= |rows| && j <= |Splice(rows, k, m, mid)|
    ensures j <= k ==> Start(Splice(rows, k, m, mid), j) == Start(rows, j)
    ensures k <= j <= k + |mid| ==> Start(Splice(rows, k, m, mid), j) == Start(rows, k) + |Concat(mid[..j - k])|
    ensures j >= k + |mid| ==>
              (Start(Splice(rows, k, m, mid), j) + Start(rows, m) == Start(rows, j - k - |mid| + m) + Start(rows, k)
               + |Concat(mid)|)
  {
    hide Concat;
    var s := Splice(rows, k, m, mid);
    if j <= k {
      assert s[..j] == rows[..j];
    }
    if k <= j <= k + |mid| {
      assert s[..j] == rows[..k] + mid[..j - k];
      ConcatJoin(rows[..k], mid[..j - k]);
    }
    if j >= k + |mid| {
      var i := j - k - |mid| + m;
      assert s[..j] == rows[..k] + mid + rows[m..i];
      ConcatJoin(rows[..k] + mid, rows[m..i]);
      ConcatJoin(rows[..k], mid);
      assert rows[..i] == rows[..m] + rows[m..i];
      ConcatJoin(rows[..m], rows[m..i]);
    }
  }
}
