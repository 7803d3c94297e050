/** Loading and saving (rim.c): bytes into padded rows, and rows back into bytes. */
module RimFile {
  import opened RimText
  import opened RimTabs

  const END := Cell(0, Original, false, false)
  const BREAK := Cell(0, Original, false, true)

  function Read(c: byte): Cell { Cell(c, Original, false, false) }

  // What load_file leaves in the buffer, from column col of a line on.
  function LoadFrom(bytes: seq<byte>, col: nat): (cells: seq<Cell>)
    ensures cells != []
    decreases bytes
  {
    if bytes == [] then [END]
    else if bytes[0] == NEWLINE then [BREAK] + LoadFrom(bytes[1..], 0)
    else Padded(Read(bytes[0]), col) + LoadFrom(bytes[1..], col + |Padded(Read(bytes[0]), col)|)
  }

  // The bytes one cell is saved as.
  function SavedCell(c: Cell): seq<byte> {
    if c.fake then [] else if c.nwl then [NEWLINE] else [c.ch]
  }

  function SavedCells(cells: seq<Cell>): seq<byte> {
    if cells == [] then [] else SavedCell(cells[0]) + SavedCells(cells[1..])
  }

  // What save_file writes: every cell but the last.
  function SaveBytes(cells: seq<Cell>): seq<byte>
    requires cells != []
  {
    SavedCells(cells[..|cells| - 1])
  }

  lemma {:induction false} SavedJoin(a: seq<Cell>, b: seq<Cell>)
    ensures SavedCells(a + b) == SavedCells(a) + SavedCells(b)
  {
    if a == [] {
      assert a + b == b;
    } else {
      assert (a + b)[1..] == a[1..] + b;
      SavedJoin(a[1..], b);
    }
  }

  lemma {:induction false} SavedFakes(cells: seq<Cell>)
    requires forall i :: 0 <= i < |cells| ==> cells[i].fake
    ensures SavedCells(cells) == []
  {
    if cells == [] {
    } else {
      SavedFakes(cells[1..]);
    }
  }

  lemma SavedPadded(c: Cell, col: nat)
    requires !c.fake && !c.nwl
    ensures SavedCells(Padded(c, col)) == [c.ch]
  {
    var p := Padded(c, col);
    SavedFakes(p[1..]);
  }

  // Saving what was loaded gives the file back, whatever its bytes.
  lemma {:induction false} SaveLoad(bytes: seq<byte>, col: nat)
    ensures SaveBytes(LoadFrom(bytes, col)) == bytes
    decreases bytes
  {
    hide Padded;
    if bytes == [] {
    } else {
      var c := Read(bytes[0]);
      var first := if bytes[0] == NEWLINE then [BREAK] else Padded(c, col);
      var next := if bytes[0] == NEWLINE then 0 else col + |Padded(c, col)|;
      var rest := LoadFrom(bytes[1..], next);
      SaveLoad(bytes[1..], next);
      assert (first + rest)[..|first + rest| - 1] == first + rest[..|rest| - 1];
      SavedJoin(first, rest[..|rest| - 1]);
      if bytes[0] == NEWLINE { BreakSaved(); } else { SavedPadded(c, col); }
      assert bytes == [bytes[0]] + bytes[1..];
    }
  }

  lemma BreakSaved()
    ensures SavedCells([BREAK]) == [NEWLINE]
  {
  }

  // ---------------------------------------------------------------------- rows of a file

  // A partial row takes what follows on its line.
  function Glue(line: Line, rows: seq<Row>): seq<Row>
    requires rows != []
  {
    [line + rows[0]] + rows[1..]
  }

  function LoadRows(bytes: seq<byte>, col: nat): (rows: seq<Row>)
    ensures rows != []
    decreases bytes
  {
    if bytes == [] then [[END]]
    else if bytes[0] == NEWLINE then [[BREAK]] + LoadRows(bytes[1..], 0)
    else Glue(Padded(Read(bytes[0]), col), LoadRows(bytes[1..], col + |Padded(Read(bytes[0]), col)|))
  }

  lemma ConcatHead(rows: seq<Row>)
    requires rows != []
    ensures Concat(rows) == rows[0] + Concat(rows[1..])
  {
    ConcatJoin([rows[0]], rows[1..]);
    assert [rows[0]] + rows[1..] == rows;
  }

  lemma GlueConcat(line: Line, rows: seq<Row>)
    requires rows != []
    ensures Concat(Glue(line, rows)) == line + Concat(rows)
  {
    ConcatHead(rows);
    ConcatHead(Glue(line, rows));
  }

  lemma {:induction false} LoadConcat(bytes: seq<byte>, col: nat)
    ensures Concat(LoadRows(bytes, col)) == LoadFrom(bytes, col)
    decreases bytes
  {
    hide Concat, Glue;
    if bytes == [] {
      ConcatOne([END]);
    } else if bytes[0] == NEWLINE {
      LoadConcat(bytes[1..], 0);
      ConcatJoin([[BREAK]], LoadRows(bytes[1..], 0));
      ConcatOne([BREAK]);
    } else {
      var p := Padded(Read(bytes[0]), col);
      LoadConcat(bytes[1..], col + |p|);
      GlueConcat(p, LoadRows(bytes[1..], col + |p|));
    }
  }

  // Text without zero bytes loads into proper rows, all of them aligned.
  ghost predicate LoadedOk(rows: seq<Row>, col: nat) {
    RowsOk(rows) && forall k :: 0 <= k < |rows| ==> Aligned(Body(rows[k]), if k == 0 then col else 0)
  }

  lemma {:induction false} LoadRowsOk(bytes: seq<byte>, col: nat)
    requires forall i :: 0 <= i < |bytes| ==> bytes[i] != 0
    ensures LoadedOk(LoadRows(bytes, col), col)
    decreases bytes
  {
    hide LoadedOk;
    if bytes == [] {
      LastLoaded(col);
    } else if bytes[0] == NEWLINE {
      LoadRowsOk(bytes[1..], 0);
      BreakLoaded(LoadRows(bytes[1..], 0), col);
    } else {
      var p := Padded(Read(bytes[0]), col);
      LoadRowsOk(bytes[1..], col + |p|);
      GlueLoaded(Read(bytes[0]), col, LoadRows(bytes[1..], col + |p|));
    }
  }

  lemma LastLoaded(col: nat)
    ensures LoadedOk([[END]], col)
  {
  }

  lemma BreakLoaded(rows: seq<Row>, col: nat)
    requires LoadedOk(rows, 0)
    ensures LoadedOk([[BREAK]] + rows, col)
  {
  }

  lemma GlueLoaded(c: Cell, col: nat, rows: seq<Row>)
    requires c.ch != 0 && !c.fake && !c.nwl && LoadedOk(rows, col + |Padded(c, col)|)
    ensures LoadedOk(Glue(Padded(c, col), rows), col)
  {
    hide Aligned;
    var p := Padded(c, col);
    PaddedAligned(c, col);
    GlueRow(c, col, rows[0]);
    AlignedJoin(p, Body(rows[0]), col);
  }

  lemma PaddedAligned(c: Cell, col: nat)
    requires !c.fake
    ensures Aligned(Padded(c, col), col)
  {
  }

  lemma GlueRow(c: Cell, col: nat, row: Row)
    requires c.ch != 0 && !c.fake && !c.nwl && RowOk(row)
    ensures RowOk(Padded(c, col) + row) && Body(Padded(c, col) + row) == Padded(c, col) + Body(row)
    ensures Closed(row) ==> Closed(Padded(c, col) + row)
  {
  }

  // ------------------------------------------------------------------- what edits save

  // The lines' text, without any padding, joined by line breaks.
  function TextOf(rows: seq<Row>): seq<byte>
    requires rows != [] && forall k :: 0 <= k < |rows| ==> |rows[k]| >= 1
  {
    var line := SavedCells(Strip(Body(rows[0])));
    if |rows| == 1 then line else line + [NEWLINE] + TextOf(rows[1..])
  }

  lemma {:induction false} SavedStrip(line: Line)
    ensures SavedCells(line) == SavedCells(Strip(line))
  {
    if line == [] {
    } else {
      SavedStrip(line[1..]);
      if line[0].fake {
        assert Strip(line) == Strip(line[1..]);
      }
    }
  }

  // A saved file holds the text of the rows, line by line.
  lemma {:induction false} SavesText(rows: seq<Row>)
    requires RowsOk(rows)
    ensures Concat(rows) != [] && SaveBytes(Concat(rows)) == TextOf(rows)
  {
    hide Strip, Concat;
    var row := rows[0];
    ConcatHead(rows);
    SavedStrip(Body(row));
    if |rows| == 1 {
      ConcatNone();
      assert row + [] == row;
    } else {
      var rest := Concat(rows[1..]);
      SavesText(rows[1..]);
      assert (row + rest)[..|row + rest| - 1] == row + rest[..|rest| - 1];
      SavedJoin(row, rest[..|rest| - 1]);
      assert row == Body(row) + [row[|row| - 1]];
      SavedJoin(Body(row), [row[|row| - 1]]);
      OneSaved(row[|row| - 1]);
    }
  }

  lemma ConcatNone()
    ensures Concat([]) == []
  {
  }

  lemma OneSaved(c: Cell)
    ensures SavedCells([c]) == SavedCell(c)
  {
  }
}
