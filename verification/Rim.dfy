/** The editor's buffer (rim.c): a flat array of cells and an index of line starts, kept in step by
    shifting both element by element. */
module Rim {
  import opened RimText
  import opened RimTabs
  import opened RimFile
  import opened RimEdits
  import opened RimView
  import opened RimPadding
  import opened RimKeys

  lemma ReplaceRow(rows: seq<Row>, k: nat, r: Row)
    requires k < |rows|
    ensures |rows[k := r]| == |rows| && Start(rows, k) + |rows[k]| <= |Concat(rows)|
    ensures Concat(rows)[Start(rows, k)..Start(rows, k) + |rows[k]|] == rows[k]
    ensures Concat(rows[k := r]) == Concat(rows)[..Start(rows, k)] + r + Concat(rows)[Start(rows, k) + |rows[k]|..]
  {
    hide Concat;
    assert rows[k := r] == Splice(rows, k, k + 1, [r]);
    SpliceConcat(rows, k, k + 1, [r]);
    RowAt(rows, k);
    ConcatOne(r);
  }

  lemma ReplaceStart(rows: seq<Row>, k: nat, r: Row, j: nat)
    requires k < |rows| && j <= |rows|
    ensures Start(rows[k := r], j) == Start(rows, j) + if j <= k then 0 else |r| - |rows[k]|
  {
    hide Concat;
    assert rows[k := r] == Splice(rows, k, k + 1, [r]);
    SpliceStart(rows, k, k + 1, [r], j);
    RowAt(rows, k);
    ConcatOne(r);
  }

  lemma ReplaceOk(rows: seq<Row>, k: nat, r: Row)
    requires RowsOk(rows) && k < |rows| && RowOk(r) && (Closed(rows[k]) ==> Closed(r))
    ensures RowsOk(rows[k := r])
  {
  }

  // One cell more in row k.
  lemma InsertCell(rows: seq<Row>, k: nat, p: nat, c: Cell)
    requires k < |rows| && p <= |rows[k]|
    ensures Start(rows, k) + |rows[k]| <= |Concat(rows)|
    ensures var a := Start(rows, k) + p;
            Concat(rows[k := Typed(rows[k], p, c)]) == Concat(rows)[..a] + [c] + Concat(rows)[a..]
  {
    hide Concat;
    ReplaceRow(rows, k, Typed(rows[k], p, c));
  }

  class Editor {
    var data: array<Cell>
    var count: nat
    var starts: array<nat>
    var linesCount: nat
    var cursorLine: nat
    var cursorPos: nat
    ghost var rows: seq<Row>

    // The buffer holds the rows one after the other, the index says where each starts.
    ghost predicate Stored()
      reads this, data, starts
    {
      && count <= data.Length && data[..count] == Concat(rows)
      && linesCount == |rows| <= starts.Length && forall k :: 0 <= k < linesCount ==> starts[k] == Start(rows, k)
    }

    ghost predicate Sound()
      reads this, data, starts
    {
      RowsOk(rows) && Stored() && cursorLine < |rows|
    }

    // The cursor stands on its line, or on the cell that ends it.
    ghost predicate Valid()
      reads this, data, starts
    {
      Sound() && cursorPos < |rows[cursorLine]|
    }

    // The lines of the text.
    ghost function LineTexts(): seq<seq<byte>>
      requires Sound()
      reads this, data, starts
    {
      RowSizes(rows);
      RowTexts(rows)
    }

    // The text being edited.
    ghost function View(): Text
      requires Valid()
      reads this, data, starts
    {
      RowSizes(rows);
      TextAt(rows, cursorLine, cursorPos)
    }

    // One more cell fits in the buffer, one more line in the index.
    ghost predicate Room()
      reads this, data, starts
    {
      count < data.Length && linesCount < starts.Length
    }

    // The arrays are the old ones or new.
    twostate predicate SameArrays()
      reads this
    {
      (data == old(data) || fresh(data)) && (starts == old(starts) || fresh(starts))
    }

    // A gap of one cell at place `at`.
    method OpenGap(at: nat)
      requires at <= count < data.Length
      modifies data
      ensures forall i :: 0 <= i < at ==> data[i] == old(data[i])
      ensures forall i :: at < i <= count ==> data[i] == old(data[i - 1])
    {
      var i := count;
      while i > at
        invariant at <= i <= count
        invariant forall k :: 0 <= k < i ==> data[k] == old(data[k])
        invariant forall k :: i < k <= count ==> data[k] == old(data[k - 1])
      {
        data[i] := data[i - 1];
        i := i - 1;
      }
    }

    // The cell at place `at` is closed over; the cell behind the end is read too.
    method CloseGap(at: nat)
      requires at < count < data.Length
      modifies data
      ensures forall i :: 0 <= i < at ==> data[i] == old(data[i])
      ensures forall i :: at <= i < count ==> data[i] == old(data[i + 1])
    {
      var i := at;
      while i < count
        invariant at <= i <= count
        invariant forall k :: at <= k < i ==> data[k] == old(data[k + 1])
        invariant forall k :: 0 <= k < at || i <= k < data.Length ==> data[k] == old(data[k])
      {
        data[i] := data[i + 1];
        i := i + 1;
      }
    }

    method ShiftStarts(from: nat, d: int)
      requires from <= linesCount <= starts.Length && forall k :: from <= k < linesCount ==> starts[k] + d >= 0
      modifies starts
      ensures forall k :: 0 <= k < from ==> starts[k] == old(starts[k])
      ensures forall k :: from <= k < linesCount ==> starts[k] == old(starts[k]) + d
    {
      var i := from;
      while i < linesCount
        invariant from <= i <= linesCount
        invariant forall k :: 0 <= k < from || i <= k < linesCount ==> starts[k] == old(starts[k])
        invariant forall k :: from <= k < i ==> starts[k] == old(starts[k]) + d
      {
        starts[i] := starts[i] + d;
        i := i + 1;
      }
    }

    // One cell more in the buffer.
    method PutCell(at: nat, c: Cell)
      requires at <= count < data.Length
      modifies this`count, data
      ensures count == old(count) + 1 && data[..count] == old(data[..count])[..at] + [c] + old(data[..count])[at..]
    {
      OpenGap(at);
      data[at] := c;
      count := count + 1;
    }

    method InsertChar(ch: byte)
      requires Valid() && count < data.Length && 0 < ch < 128
      modifies this`count, this`cursorPos, this`rows, data, starts
      ensures Valid() && cursorPos == old(cursorPos) + 1 && count == old(count) + 1
      ensures rows == old(rows)[cursorLine := Typed(old(rows)[cursorLine], old(cursorPos),
                                                    Cell(ch, Edited, false, false))]
    {
      hide Concat, RowOk, Start, Typed;
      var c := Cell(ch, Edited, false, false);
      ghost var k, p := cursorLine, cursorPos;
      ghost var row := Typed(rows[k], p, c);
      InsertCell(rows, k, p, c);
      TypedRow(rows[k], p, c);
      ReplaceOk(rows, k, row);
      PutCell(starts[cursorLine] + cursorPos, c);
      forall j: nat | j <= |rows| ensures Start(rows[k := row], j) == Start(rows, j) + if j <= k then 0 else 1 {
        ReplaceStart(rows, k, row, j);
      }
      ShiftStarts(cursorLine + 1, 1);
      cursorPos := cursorPos + 1;
      rows := rows[k := row];
    }

    // realloc by another 1024 cells.
    method Grow()
      requires count <= data.Length
      modifies this`data
      ensures fresh(data) && data.Length == old(data.Length) + 1024 && data[..count] == old(data[..count])
    {
      var more := new Cell[data.Length + 1024];
      forall i | 0 <= i < count { more[i] := data[i]; }
      data := more;
    }

    method GrowIndex()
      requires linesCount <= starts.Length
      modifies this`starts
      ensures fresh(starts) && starts.Length == old(starts.Length) + 1024
              && starts[..linesCount] == old(starts[..linesCount])
    {
      var more := new nat[starts.Length + 1024];
      forall i | 0 <= i < linesCount { more[i] := starts[i]; }
      starts := more;
    }

    method Reserve(n: nat)
      requires count <= data.Length
      modifies this`data
      ensures n < data.Length && data.Length >= old(data.Length) && data[..count] == old(data[..count])
              && (data == old(data) || fresh(data))
    {
      while n >= data.Length
        invariant count <= data.Length && data.Length >= old(data.Length) && data[..count] == old(data[..count])
                  && (data == old(data) || fresh(data))
        decreases n - data.Length
      {
        Grow();
      }
    }

    // The first loop of reallign_tabs: the cells of the line, those of its text, and a count of tabs
    // that is zero only without any.
    method MeasureLine() returns (originalLen: nat, newLen: nat, tab: nat)
      requires Sound()
      ensures 1 <= originalLen == |rows[cursorLine]| && newLen == |Strip(Body(rows[cursorLine]))|
      ensures tab >= TabCount(Strip(Body(rows[cursorLine]))) && (tab == 0 <==> !HasTab(Body(rows[cursorLine])))
    {
      hide Concat, Start, RowOk, Strip, TabCount, HasTab;
      RowCells(rows[cursorLine]);
      ghost var body := Body(rows[cursorLine]);
      RowStored(rows, cursorLine);
      originalLen, newLen, tab := 1, 0, 0;
      MeasureStart();
      var i := starts[cursorLine];
      ghost var n := 0;
      while data[i].ch != 0
        invariant n <= |body| && i == starts[cursorLine] + n && originalLen == n + 1
        invariant newLen == |Strip(body[..n])| && tab >= TabCount(Strip(body[..n]))
        invariant tab == 0 <==> !HasTab(body[..n])
        decreases |body| - n
      {
        MeasureNext(body, n);
        originalLen := originalLen + 1;
        if data[i].fake {
          if tab == 0 { tab := tab + 1; }
        } else {
          if data[i].ch == TAB { tab := tab + 1; }
          newLen := newLen + 1;
        }
        i := i + 1;
        n := n + 1;
      }
      assert data[i] == Concat(rows)[i] == rows[cursorLine][n];
      assert body[..n] == body;
    }

    // The second loop: the text of the line, padded anew.
    method PadLine(newLen: nat, tab: nat) returns (newLine: array<Cell>, j: nat)
      requires Sound() && |rows[cursorLine]| >= 1
      requires newLen == |Strip(Body(rows[cursorLine]))| && tab >= TabCount(Strip(Body(rows[cursorLine])))
      ensures fresh(newLine) && j + 1 < newLine.Length && newLine[..j] == Expand(Strip(Body(rows[cursorLine])), 0)
    {
      hide Concat, Start, RowOk, Strip, TabCount, Expand, Padded;
      RowCells(rows[cursorLine]);
      ghost var body := Body(rows[cursorLine]);
      RowStored(rows, cursorLine);
      newLine := new Cell[newLen + tab * 3 + 1000];
      j := 0;
      PadStart(body);
      var i := starts[cursorLine];
      ghost var n := 0;
      while data[i].ch != 0
        invariant n <= |body| && i == starts[cursorLine] + n
        invariant j <= |Strip(body[..n])| + 3 * TabCount(Strip(body[..n])) && j + 8 < newLine.Length
        invariant newLine[..j] == Expand(Strip(body[..n]), 0)
        decreases |body| - n
      {
        MeasureNext(body, n);
        PadNext(body, n);
        PadBound(body, n + 1);
        if !data[i].fake {
          j := PadCell(newLine, j, data[i]);
        }
        i := i + 1;
        n := n + 1;
      }
      assert data[i] == Concat(rows)[i] == rows[cursorLine][n];
      assert body[..n] == body;
    }

    // One cell of it, and the padding a tab asks for.
    method PadCell(newLine: array<Cell>, from: nat, c: Cell) returns (j: nat)
      requires from + 4 < newLine.Length
      modifies newLine
      ensures j == from + |Padded(c, from)| && newLine[..j] == old(newLine[..from]) + Padded(c, from)
    {
      j := from;
      newLine[j] := c;
      j := j + 1;
      if c.ch == TAB {
        while j % 4 != 0
          invariant from + 1 <= j <= from + 1 + Pad(from)
          invariant newLine[..from] == old(newLine[..from]) && newLine[from] == c
          invariant forall k :: from < k < j ==> newLine[k] == Fake(c.mark)
          decreases from + 1 + Pad(from) - j
        {
          newLine[j] := Fake(c.mark);
          j := j + 1;
        }
      }
      PadStops(from, j, c);
    }

    // The line's cells give way to the new ones, what follows is moved.
    method ReplaceLine(newLine: array<Cell>, j: nat, originalLen: nat)
      requires count <= data.Length && count + j <= data.Length + originalLen && newLine != data && j <= newLine.Length
      requires cursorLine < starts.Length && starts[cursorLine] + originalLen <= count
      modifies this`count, data
      ensures count + originalLen == old(count) + j
      ensures data[..count] == old(data[..count])[..starts[cursorLine]] + newLine[..j]
              + old(data[..count])[starts[cursorLine] + originalLen..]
    {
      hide Moved, Overlaid;
      ghost var d := data[..];
      var s := starts[cursorLine];
      var behind := count - s - originalLen;
      MoveCells(s + originalLen, s + j, behind);
      CopyCells(newLine, s, j);
      PiecesOf(d, newLine[..j], s, originalLen, behind);
      count := s + j + behind;
    }

    // memmove inside the buffer.
    method MoveCells(from: nat, to: nat, n: nat)
      requires from + n <= data.Length && to + n <= data.Length
      modifies data
      ensures data[..] == Moved(old(data[..]), from, to, n)
    {
      ghost var was := data[..];
      forall i | 0 <= i < n { data[to + i] := data[from + i]; }
    }

    // memcpy into the buffer.
    method CopyCells(source: array<Cell>, to: nat, n: nat)
      requires source != data && n <= source.Length && to + n <= data.Length
      modifies data
      ensures data[..] == Overlaid(old(data[..]), source[..n], to)
    {
      forall i | 0 <= i < n { data[to + i] := source[i]; }
    }

    // A new line takes the place of the current one, in the buffer and the index.
    method SwapLine(newLine: array<Cell>, j: nat, originalLen: nat)
      requires Sound()
      requires newLine != data && j <= newLine.Length && originalLen == |rows[cursorLine]|
      requires RowOk(newLine[..j]) && (Closed(rows[cursorLine]) ==> Closed(newLine[..j]))
      modifies this`data, this`count, this`rows, data, starts
      ensures RowsOk(rows) && Stored() && (data == old(data) || fresh(data))
      ensures rows == old(rows)[cursorLine := old(newLine[..j])] && linesCount == old(linesCount)
    {
      hide Concat, Start, RowOk, Closed;
      ghost var k, row := cursorLine, newLine[..j];
      ReplaceOk(rows, k, row);
      if j > originalLen { Reserve(count + (j - originalLen)); }
      ReplaceRow(rows, k, row);
      forall i: nat | i <= |rows| ensures Start(rows[k := row], i) == Start(rows, i) + if i <= k then 0
        else |row| - |rows[k]| {
        ReplaceStart(rows, k, row, i);
      }
      ReplaceLine(newLine, j, originalLen);
      assert data[..count] == Concat(rows[k := row]);
      ShiftStarts(cursorLine + 1, j - originalLen);
      rows := rows[k := row];
    }

    method ReallignTabs()
      requires Sound()
      modifies this`data, this`count, this`rows, data, starts
      ensures RowsOk(rows) && Stored() && (data == old(data) || fresh(data))
      ensures |old(rows)[cursorLine]| >= 1
      ensures rows == old(rows)[cursorLine := Realign(old(rows)[cursorLine])] && linesCount == old(linesCount)
    {
      hide Concat, Start, RowOk, Strip, Expand, TabCount, HasTab, Realign, Closed;
      ghost var row := rows[cursorLine];
      RealignCases(row);
      RealignExact(row);
      var originalLen, newLen, tab := MeasureLine();
      if tab == 0 { return; }
      var newLine, j := PadLine(newLen, tab);
      newLine[j] := Cell(0, Edited, false, true);
      j := j + 1;
      if j == originalLen { return; }
      assert newLine[..j] == Realign(row);
      SwapLine(newLine, j, originalLen);
    }

    // After an edit: realign the line, and keep some room in buffer and index.
    method FinishEdits()
      requires Sound()
      modifies this`data, this`starts, this`count, this`rows, data, starts
      ensures RowsOk(rows) && Stored() && Room() && SameArrays()
      ensures count + 2 < data.Length && linesCount + 2 < starts.Length
      ensures |old(rows)[cursorLine]| >= 1
      ensures rows == old(rows)[cursorLine := Realign(old(rows)[cursorLine])] && linesCount == old(linesCount)
    {
      hide Concat, Start, RowOk, Realign;
      ReallignTabs();
      ReallocBuffer();
    }

    // realloc_buffer: the errors "overflow detected" are out of reach.
    method ReallocBuffer()
      requires count <= data.Length && linesCount <= starts.Length
      modifies this`data, this`starts
      ensures count + 2 < data.Length && linesCount + 2 < starts.Length && SameArrays()
      ensures data[..count] == old(data[..count]) && starts[..linesCount] == old(starts[..linesCount])
    {
      if linesCount >= starts.Length - 2 { GrowIndex(); }
      if count >= data.Length - 2 { Grow(); }
    }

    // cursor_max_at_line
    method LineLength(line: nat) returns (n: nat)
      requires RowsOk(rows) && Stored() && line < |rows|
      ensures n + 1 == |rows[line]|
    {
      hide Concat;
      RowAt(rows, line);
      WholeStart(rows);
      n := (if line < linesCount - 1 then starts[line + 1] else count) - starts[line] - 1;
    }

    // Over the padding of a tab, to the right or to the left.
    method CursorTabAllign(right: bool)
      requires Valid()
      modifies this`cursorPos
      ensures Valid() && (if right then cursorPos >= old(cursorPos) else cursorPos <= old(cursorPos))
      ensures cursorPos == 0 || !rows[cursorLine][cursorPos].fake
      ensures right && cursorPos > old(cursorPos) ==> forall i :: old(cursorPos) <= i < cursorPos ==>
                                                        rows[cursorLine][i].fake
      ensures !right && cursorPos < old(cursorPos) ==> forall i :: cursorPos < i <= old(cursorPos) ==>
                                                         rows[cursorLine][i].fake
      ensures old(cursorPos) == 0 ==> cursorPos == 0
    {
      hide Concat, Start;
      ghost var row := rows[cursorLine];
      RowStored(rows, cursorLine);
      while cursorPos > 0 && data[starts[cursorLine] + cursorPos].fake
        invariant cursorPos < |row|
        invariant if right then cursorPos >= old(cursorPos) else cursorPos <= old(cursorPos)
        invariant right ==> forall i :: old(cursorPos) <= i < cursorPos ==> row[i].fake
        invariant !right ==> forall i :: cursorPos < i <= old(cursorPos) ==> row[i].fake
        invariant old(cursorPos) == 0 ==> cursorPos == 0
        decreases if right then |row| - cursorPos else cursorPos
      {
        if right { cursorPos := cursorPos + 1; } else { cursorPos := cursorPos - 1; }
      }
    }

    // A printable key, wherever the cursor stands.
    method TypeKey(ch: byte)
      requires Valid() && Room() && 0 < ch < 128 && ch != TAB
      modifies this, data, starts
      ensures Sound() && Room() && SameArrays() && cursorLine == old(cursorLine) && cursorPos == old(cursorPos) + 1
      ensures var typed := Typed(old(rows)[cursorLine], old(cursorPos), Cell(ch, Edited, false, false));
              rows == old(rows)[cursorLine := Realign(typed)]
      ensures LineTexts() == Lines(Keyed(old(View()), ch, false))
      ensures FullTo(old(rows)[cursorLine], old(cursorPos)) ==> Valid()
      ensures AllAligned(old(rows)) ==>
                var row, p := old(rows)[cursorLine], old(cursorPos);
                && Valid() && View() == Keyed(old(View()), ch, Jumps(row, p))
                && (AllAligned(rows) <==> !row[p].fake || Jumps(row, p))
                && (!row[p].fake ==> Tidy(rows, cursorLine, cursorPos))
    {
      hide Concat, Start, RowOk, Realign, Typed, Aligned, OffPadding, LeftOf, RightOf, TextAt, RealTab, FullTo;
      ghost var k, p, row := cursorLine, cursorPos, rows[cursorLine];
      var c := Cell(ch, Edited, false, false);
      RowSizes(rows);
      TextHalves(rows, k, p);
      TypedRow(row, p, c);
      TypedRowText(row, p, c);
      ReplacedLines(rows, k, p, Realign(Typed(row, p, c)), LeftOf(row, p) + [ch], RightOf(row, p));
      if FullTo(row, p) { TypedStays(row, p, c); }
      if AllAligned(rows) { TypedOutcome(rows, k, p, c); }
      ReplaceTwice(rows, k, Typed(row, p, c), Realign(Typed(row, p, c)));
      InsertChar(ch);
      FinishEdits();
    }

    // The tab key, as a real tab.
    method InsertTab()
      requires Valid() && Room()
      requires FullTo(rows[cursorLine], cursorPos)
      modifies this, data, starts
      ensures Valid() && Room() && SameArrays() && cursorLine == old(cursorLine)
      ensures var typed := Typed(old(rows)[cursorLine], old(cursorPos), Cell(TAB, Edited, false, false));
              rows == old(rows)[cursorLine := Realign(typed)]
      ensures LineTexts() == Lines(Keyed(old(View()), TAB, false))
      ensures AllAligned(old(rows)) ==>
                && Tidy(rows, cursorLine, cursorPos)
                && View() == Keyed(old(View()), TAB, old(rows)[cursorLine][old(cursorPos)].fake)
    {
      hide Concat, Start, RowOk, Realign, Typed, Aligned, OffPadding, LeftOf, RightOf, TextAt, FullTo;
      ghost var k, p, row, was := cursorLine, cursorPos, rows[cursorLine], rows;
      var c := Cell(TAB, Edited, false, false);
      RowSizes(rows);
      TextHalves(rows, k, p);
      TypedRow(row, p, c);
      TypedRowText(row, p, c);
      ReplacedLines(rows, k, p, Realign(Typed(row, p, c)), LeftOf(row, p) + [TAB], RightOf(row, p));
      TypedStays(row, p, c);
      ReplaceTwice(rows, k, Typed(row, p, c), Realign(Typed(row, p, c)));
      InsertChar(TAB);
      FinishEdits();
      CursorTabAllign(true);
      if AllAligned(was) { TabOutcome(was, k, p, c, cursorPos); }
    }

    // The cell at place `at` is taken out.
    method TakeCell(at: nat)
      requires at < count < data.Length
      modifies this`count, data
      ensures count == old(count) - 1 && data[..count] == old(data[..count])[..at] + old(data[..count])[at + 1..]
    {
      ghost var was := data[..count];
      CloseGap(at);
      count := count - 1;
      assert forall i :: 0 <= i < count ==> data[i] == (was[..at] + was[at + 1..])[i];
    }

    method MarkCell(at: nat)
      requires at < count <= data.Length
      modifies data
      ensures data[..count] == old(data[..count])[at := old(data[at]).(mark := Edited)]
    {
      data[at] := data[at].(mark := Edited);
    }

    // The cell under the cursor goes, in buffer and index.
    method DropCell()
      requires Valid() && count < data.Length && cursorPos + 1 < |rows[cursorLine]|
      modifies this`count, this`rows, data, starts
      ensures RowsOk(rows) && Stored() && count == old(count) - 1
      ensures rows == old(rows)[cursorLine := Deleted(old(rows)[cursorLine], cursorPos)]
    {
      hide Concat, RowOk, Start, Deleted;
      ghost var k, p, row := cursorLine, cursorPos, rows[cursorLine];
      DropFlat(rows, k, p);
      DeletedRow(row, p);
      var pos := starts[cursorLine] + cursorPos;
      TakeCell(pos);
      MarkCell(pos);
      forall j: nat | j <= |rows| ensures Start(rows[k := Deleted(row, p)], j) == Start(rows, j) - if j <= k then 0
        else 1 {
        ReplaceStart(rows, k, Deleted(row, p), j);
      }
      LaterStarts(rows, k);
      ShiftStarts(cursorLine + 1, -1);
      rows := rows[k := Deleted(row, p)];
    }

    // The delete key; on padding nothing but padding goes.
    method ExecuteDelete()
      requires Valid() && Room()
      modifies this, data, starts
      ensures Sound() && Room() && SameArrays() && cursorLine == old(cursorLine) && cursorPos == old(cursorPos)
      ensures rows == if cursorPos + 1 == |old(rows)[cursorLine]| then old(rows)
                      else old(rows)[cursorLine := Realign(Deleted(old(rows)[cursorLine], cursorPos))]
      ensures LineTexts() == Lines(Cut(old(View()), old(rows)[cursorLine][cursorPos].fake))
      ensures FullTo(old(rows)[cursorLine], cursorPos) ==> Valid()
      ensures AllAligned(old(rows)) ==>
                var row := old(rows)[cursorLine];
                && Valid() && AllAligned(rows) && (!row[cursorPos].fake ==> Tidy(rows, cursorLine, cursorPos))
                && View() == Cut(old(View()), row[cursorPos].fake)
    {
      hide Concat, Start, RowOk, Realign, Deleted, Aligned, OffPadding, LeftOf, RightOf, TextAt, FullTo;
      ghost var k, p, row := cursorLine, cursorPos, rows[cursorLine];
      var length := LineLength(cursorLine);
      RowSizes(rows);
      TextHalves(rows, k, p);
      if AllAligned(rows) { RowOf(rows, k, p); }
      if cursorPos >= length {
        NothingRight(row, p);
        SameLines(rows, k, p);
        return;
      }
      DeletedRow(row, p);
      DeletedRowText(row, p);
      ReplacedLines(rows, k, p, Realign(Deleted(row, p)), LeftOf(row, p), RightOf(row, p + 1));
      if FullTo(row, p) { DeletedStays(row, p); }
      if AllAligned(rows) { DeletedOutcome(rows, k, p); }
      ReplaceTwice(rows, k, Deleted(row, p), Realign(Deleted(row, p)));
      DropCell();
      FinishEdits();
    }

    // insert_newline up to the indentation, then finish_edits on the new line; the old one is not
    // realigned.
    method InsertNewline()
      requires Valid() && Room()
      modifies this, data, starts
      ensures Valid() && Room() && SameArrays() && cursorLine == old(cursorLine) + 1 && cursorPos == 0
      ensures var k, p, row := old(cursorLine), old(cursorPos), old(rows)[old(cursorLine)];
              rows == Splice(old(rows), k, k + 1, [Before(row, p), Realign(row[p..])])
      ensures View() == Broken(old(View()))
      ensures AllAligned(old(rows)) ==>
                && (AllAligned(rows) <==> !old(rows[cursorLine][cursorPos]).fake)
                && (AllAligned(rows) ==> Tidy(rows, cursorLine, cursorPos))
    {
      hide Concat, Start, RowOk, Realign, Before, Aligned, OffPadding, TextAt;
      ghost var k, p, row, was := cursorLine, cursorPos, rows[cursorLine], rows;
      RowSizes(rows);
      SplitLines(rows, k, p);
      SplitRowText(row, p);
      if AllAligned(was) { BrokenOutcome(was, k, p); }
      BreakLine();
      FinishEdits();
      SplitTwice(was, k, p);
    }

    // The line is broken at the cursor.
    method BreakLine()
      requires Valid() && count < data.Length && linesCount < starts.Length
      requires RowOk(Before(rows[cursorLine], cursorPos)) && RowOk(rows[cursorLine][cursorPos..])
      requires Closed(Before(rows[cursorLine], cursorPos))
               && (Closed(rows[cursorLine]) ==> Closed(rows[cursorLine][cursorPos..]))
      modifies this`count, this`linesCount, this`cursorLine, this`cursorPos, this`rows, data, starts
      ensures RowsOk(rows) && Stored() && count == old(count) + 1 && cursorLine == old(cursorLine) + 1 < |rows|
              && cursorPos == 0
      ensures linesCount == old(linesCount) + 1
      ensures var k, p, row := old(cursorLine), old(cursorPos), old(rows)[old(cursorLine)];
              rows == Splice(old(rows), k, k + 1, [Before(row, p), row[p..]])
    {
      hide Concat, Start, RowOk, Before, Closed;
      ghost var k, p, row := cursorLine, cursorPos, rows[cursorLine];
      ghost var mid := [Before(row, p), row[p..]];
      BreakFlat(rows, k, p);
      PutCell(starts[cursorLine] + cursorPos, LINE_BREAK);
      OpenIndex(cursorLine + 1);
      starts[cursorLine + 1] := starts[cursorLine] + cursorPos + 1;
      linesCount := linesCount + 1;
      forall j | 0 <= j < linesCount ensures starts[j] == Start(Splice(rows, k, k + 1, mid), j) {
        BreakStart(rows, k, p, j);
        if j > k + 1 { assert starts[j] == old(starts[j - 1]) + 1; }
      }
      cursorLine := cursorLine + 1;
      cursorPos := 0;
      rows := Splice(rows, k, k + 1, mid);
    }

    // Later lines move one place on in the index, and start one cell later.
    method OpenIndex(at: nat)
      requires at <= linesCount < starts.Length
      modifies starts
      ensures forall k :: 0 <= k < at ==> starts[k] == old(starts[k])
      ensures forall k :: at < k <= linesCount ==> starts[k] == old(starts[k - 1]) + 1
    {
      var i := linesCount;
      while i > at
        invariant at <= i <= linesCount
        invariant forall k :: 0 <= k < i ==> starts[k] == old(starts[k])
        invariant forall k :: i < k <= linesCount ==> starts[k] == old(starts[k - 1]) + 1
      {
        starts[i] := starts[i - 1];
        starts[i] := starts[i] + 1;
        i := i - 1;
      }
    }

    // Two lines become one: the break between them is taken out.
    method JoinLines()
      requires Valid() && cursorLine > 0
      modifies this`count, this`linesCount, this`cursorLine, this`cursorPos, this`rows, data, starts
      ensures RowsOk(rows) && Stored() && cursorLine == old(cursorLine) - 1 && linesCount == old(linesCount) - 1
              && count == old(count) - 1
      ensures var k := cursorLine;
              |old(rows)[k]| >= 1 && cursorPos == |Body(old(rows)[k])|
              && rows == Splice(old(rows), k, k + 2, [Body(old(rows)[k]) + old(rows)[k + 1]])
    {
      hide Concat, Start, RowOk, Closed;
      ghost var k := cursorLine - 1;
      RowCells(rows[k]);
      ghost var mid := [Body(rows[k]) + rows[k + 1]];
      JoinFlat(rows, k);
      JoinOk(rows, k);
      var futureCursorPos := LineLength(cursorLine - 1);
      LaterStarts(rows, k);
      CloseBreak(starts[cursorLine]);
      CloseIndex(cursorLine);
      count := count - 1;
      linesCount := linesCount - 1;
      forall j | 0 <= j < linesCount ensures starts[j] == Start(Splice(rows, k, k + 2, mid), j) {
        JoinStart(rows, k, j);
        if j > k { assert starts[j] == old(starts[j + 1]) - 1; }
      }
      cursorLine := cursorLine - 1;
      cursorPos := futureCursorPos;
      rows := Splice(rows, k, k + 2, mid);
    }

    method CloseBreak(from: nat)
      requires 1 <= from <= count <= data.Length
      modifies data
      ensures data[..count - 1] == old(data[..count])[..from - 1] + old(data[..count])[from..]
    {
      var i := from;
      while i < count
        invariant from <= i <= count
        invariant forall k :: 0 <= k < from - 1 || i - 1 < k < count ==> data[k] == old(data[k])
        invariant i == from ==> data[from - 1] == old(data[from - 1])
        invariant forall k :: from <= k < i ==> data[k - 1] == old(data[k])
      {
        data[i - 1] := data[i];
        i := i + 1;
      }
      ghost var was := old(data[..count]);
      forall k | 0 <= k < count - 1 ensures data[k] == (was[..from - 1] + was[from..])[k] {
        if k >= from - 1 { assert data[(k + 1) - 1] == old(data[k + 1]); }
      }
    }

    method CloseIndex(at: nat)
      requires at < linesCount <= starts.Length && forall k :: at < k < linesCount ==> starts[k] >= 1
      modifies starts
      ensures forall k :: 0 <= k < at ==> starts[k] == old(starts[k])
      ensures forall k :: at <= k < linesCount - 1 ==> starts[k] == old(starts[k + 1]) - 1
    {
      var i := at;
      while i < linesCount - 1
        invariant at <= i <= linesCount - 1
        invariant forall k :: 0 <= k < at || i < k < linesCount ==> starts[k] == old(starts[k])
        invariant forall k :: at <= k < i ==> starts[k] == old(starts[k + 1]) - 1
        invariant i == at ==> starts[at] == old(starts[at])
      {
        starts[i] := starts[i + 1];
        starts[i] := starts[i] - 1;
        i := i + 1;
      }
    }

    // The backspace key: back over padding to the last text before the cursor, or to the line above.
    method ExecuteBackspace()
      requires Valid() && Room()
      modifies this, data, starts
      ensures Sound() && Room() && SameArrays()
      ensures old(cursorPos) > 0 ==>
                && cursorLine == old(cursorLine) && LastText(old(rows)[cursorLine], old(cursorPos), cursorPos)
                && rows == old(rows)[cursorLine := Realign(Deleted(old(rows)[cursorLine], cursorPos))]
                && (FullTo(old(rows)[cursorLine], cursorPos) ==> Valid())
      ensures old(cursorPos) == 0 && old(cursorLine) == 0 ==> rows == old(rows) && Valid()
      ensures old(cursorPos) == 0 && old(cursorLine) > 0 ==>
                var k := old(cursorLine) - 1;
                var joined := Body(old(rows)[k]) + old(rows)[k + 1];
                && cursorLine == k && cursorPos == |Body(old(rows)[k])| && joined != []
                && rows == Splice(old(rows), k, k + 2, [Realign(joined)])
                && (FullTo(old(rows)[k], cursorPos) ==> Valid())
      ensures LineTexts() == Lines(if old(cursorPos) > 0 && old(View()).left == [] then old(View())
                                   else Erased(old(View())))
      ensures AllAligned(old(rows)) ==> Tidy(rows, cursorLine, cursorPos) && Valid() && View() == Erased(old(View()))
    {
      hide Concat, Start, RowOk, Realign, Deleted, Aligned, LeftOf, RightOf, TextAt, FullTo, Lines, Erased, Cut,
        RowTexts, OffPadding;
      ghost var k, row, was, p := cursorLine, rows[cursorLine], rows, cursorPos;
      RowSizes(rows);
      SameLines(rows, k, p);
      if cursorPos > 0 {
        cursorPos := cursorPos - 1;
        CursorTabAllign(false);
        SteppedBack(was, k, p, cursorPos);
        ExecuteDelete();
        return;
      }
      if cursorLine == 0 {
        NothingBefore(rows);
        return;
      }
      EraseBreak();
    }

    // The break before the cursor's line.
    method EraseBreak()
      requires Valid() && cursorLine > 0 && cursorPos == 0
      modifies this, data, starts
      ensures Sound() && Room() && SameArrays()
      ensures var k := old(cursorLine) - 1;
              var joined := Body(old(rows)[k]) + old(rows)[k + 1];
              && cursorLine == k && cursorPos == |Body(old(rows)[k])| && joined != []
              && rows == Splice(old(rows), k, k + 2, [Realign(joined)])
              && (FullTo(old(rows)[k], cursorPos) ==> Valid())
      ensures LineTexts() == Lines(Erased(old(View())))
      ensures AllAligned(old(rows)) ==> Tidy(rows, cursorLine, cursorPos) && Valid() && View() == Erased(old(View()))
    {
      hide Concat, Start, RowOk, Realign, Aligned, LeftOf, RightOf, TextAt, FullTo, Lines, Erased, RowTexts, OffPadding;
      ghost var k, was := cursorLine, rows;
      RowSizes(rows);
      JoinedOutcome(was, k - 1);
      JoinLines();
      FinishEdits();
      JoinTwice(was, k - 1);
    }

    // The page keys: the cursor is clipped to the line it comes to, whatever stands there.
    method PageDown(screen: nat)
      requires Valid()
      modifies this`cursorLine, this`cursorPos
      ensures Valid() && cursorLine == if old(cursorLine) + screen < |rows| then old(cursorLine) + screen
              else |rows| - 1
      ensures cursorPos == if old(cursorPos) < |rows[cursorLine]| then old(cursorPos) else |rows[cursorLine]| - 1
    {
      cursorLine := cursorLine + screen;
      if cursorLine >= linesCount { cursorLine := linesCount - 1; }
      ClipCursor();
    }

    method PageUp(screen: nat)
      requires Valid()
      modifies this`cursorLine, this`cursorPos
      ensures Valid() && cursorLine == if old(cursorLine) >= screen then old(cursorLine) - screen else 0
      ensures cursorPos == if old(cursorPos) < |rows[cursorLine]| then old(cursorPos) else |rows[cursorLine]| - 1
    {
      cursorLine := if cursorLine < screen then 0 else cursorLine - screen;
      ClipCursor();
    }

    method ClipCursor()
      requires Sound()
      modifies this`cursorPos
      ensures Valid()
      ensures cursorPos == if old(cursorPos) < |rows[cursorLine]| then old(cursorPos) else |rows[cursorLine]| - 1
    {
      hide Concat, Start;
      var length := LineLength(cursorLine);
      if cursorPos > length { cursorPos := length; }
    }

    // The arrow keys on one line, home and end.
    method CursorLeft()
      requires Valid() && Tidy(rows, cursorLine, cursorPos)
      modifies this`cursorPos
      ensures Valid() && Tidy(rows, cursorLine, cursorPos) && View() == Press(old(View()), Left)
    {
      hide Concat, Start, RowOk, LeftOf, RightOf, TextAt, Aligned;
      ghost var k, row, p := cursorLine, rows[cursorLine], cursorPos;
      RowSizes(rows);
      TextHalves(rows, k, p);
      NothingLeft(row);
      if cursorPos > 0 { cursorPos := cursorPos - 1; }
      CursorTabAllign(false);
      FirstOff(row);
      ghost var q := cursorPos;
      if p > 0 {
        OverPadding(row, q + 1, p);
        RightHead(row, q);
      }
      MovedCursor(rows, k, p, q);
    }

    method CursorRight()
      requires Valid() && Tidy(rows, cursorLine, cursorPos)
      modifies this`cursorPos
      ensures Valid() && Tidy(rows, cursorLine, cursorPos) && View() == Press(old(View()), Right)
    {
      hide Concat, Start, RowOk, LeftOf, RightOf, TextAt, Aligned;
      ghost var k, row, p := cursorLine, rows[cursorLine], cursorPos;
      var length := LineLength(cursorLine);
      RowSizes(rows);
      TextHalves(rows, k, p);
      if cursorPos < length {
        RightHead(row, p);
        cursorPos := cursorPos + 1;
      } else {
        NothingRight(row, p);
      }
      ghost var from := cursorPos;
      CursorTabAllign(true);
      OverPadding(row, from, cursorPos);
      MovedCursor(rows, k, p, cursorPos);
    }

    method CursorHome()
      requires Valid() && Tidy(rows, cursorLine, cursorPos)
      modifies this`cursorPos
      ensures Valid() && Tidy(rows, cursorLine, cursorPos) && View() == Press(old(View()), Home)
    {
      hide Concat, Start, RowOk, LeftOf, RightOf, TextAt, Aligned;
      ghost var k, row, p := cursorLine, rows[cursorLine], cursorPos;
      RowSizes(rows);
      TextHalves(rows, k, p);
      NothingLeft(row);
      CutText(row, p);
      CutText(row, 0);
      FirstOff(row);
      MovedCursor(rows, k, p, 0);
      cursorPos := 0;
    }

    method CursorEnd()
      requires Valid() && Tidy(rows, cursorLine, cursorPos)
      modifies this`cursorPos
      ensures Valid() && Tidy(rows, cursorLine, cursorPos) && View() == Press(old(View()), End)
      ensures cursorPos + 1 == |rows[cursorLine]|
    {
      hide Concat, Start, RowOk, LeftOf, RightOf, TextAt, Aligned;
      ghost var k, row, p := cursorLine, rows[cursorLine], cursorPos;
      RowSizes(rows);
      TextHalves(rows, k, p);
      cursorPos := LineLength(cursorLine);
      NothingRight(row, cursorPos);
      CutText(row, p);
      CutText(row, cursorPos);
      MovedCursor(rows, k, p, cursorPos);
    }

    // One byte of a file that is no line break, with the padding a tab asks for.
    method PushPadded(c: Cell, row: nat) returns (col: nat)
      requires count + 5 < data.Length
      modifies this`count, data
      ensures count == old(count) + |Padded(c, row)| < data.Length - 1
              && data[..count] == old(data[..count]) + Padded(c, row)
      ensures col == row + |Padded(c, row)|
    {
      col := row;
      ghost var from := count;
      data[count] := c;
      count := count + 1;
      col := col + 1;
      if c.ch == TAB {
        while col % 4 != 0
          invariant row + 1 <= col <= row + 1 + Pad(row) && count == from + (col - row)
          invariant data[..from] == old(data[..from]) && data[from] == c
          invariant forall k :: from < k < count ==> data[k] == Fake(c.mark)
          decreases row + 1 + Pad(row) - col
        {
          data[count] := Fake(c.mark);
          count := count + 1;
          col := col + 1;
        }
      }
      PadStops(row, col, c);
    }

    method Push(c: Cell)
      requires count < data.Length
      modifies this`count, data
      ensures count == old(count) + 1 && data[..count] == old(data[..count]) + [c]
    {
      data[count] := c;
      count := count + 1;
    }

    // A line starts at the end of the buffer.
    method PushStart()
      requires linesCount < starts.Length
      modifies this`starts, this`linesCount, starts
      ensures linesCount == old(linesCount) + 1 < starts.Length && (starts == old(starts) || fresh(starts))
      ensures starts[linesCount - 1] == count && forall k :: 0 <= k < linesCount - 1 ==> starts[k] == old(starts[k])
    {
      starts[linesCount] := count;
      linesCount := linesCount + 1;
      ghost var was := starts[..linesCount];
      if linesCount >= starts.Length { GrowIndex(); }
      assert forall k :: 0 <= k < linesCount ==> starts[..linesCount][k] == was[k];
    }

    // While a file is read: closed rows, and the cells of the line being read.
    ghost predicate Loading(done: seq<Row>, cur: Line)
      reads this, data, starts
    {
      && count + 1 < data.Length && data[..count] == Concat(done) + cur
      && linesCount == |done| + 1 < starts.Length && forall k :: 0 <= k < linesCount ==> starts[k] == Start(done, k)
    }

    // The body of its loop.
    method LoadByte(c: byte, row: nat, ghost done: seq<Row>, ghost cur: Line) returns (col: nat)
      requires Loading(done, cur) && row == |cur|
      modifies this`data, this`count, this`starts, this`linesCount, data, starts
      ensures (data == old(data) || fresh(data)) && (starts == old(starts) || fresh(starts))
      ensures c == NEWLINE ==> Loading(done + [cur + [BREAK]], []) && col == 0
      ensures c != NEWLINE ==> Loading(done, cur + Padded(Read(c), |cur|)) && col == |cur + Padded(Read(c), |cur|)|
    {
      hide Concat, Start, Padded;
      if count >= data.Length - 5 { Grow(); }
      if c == NEWLINE {
        Push(BREAK);
        col := 0;
        PushStart();
        ClosedRow(done, cur, BREAK);
      } else {
        col := PushPadded(Read(c), row);
        assert Concat(done) + (cur + Padded(Read(c), |cur|)) == Concat(done) + cur + Padded(Read(c), |cur|);
      }
    }

    // load_file, the file given as its bytes.
    method LoadFile(bytes: seq<byte>)
      modifies this
      ensures fresh(data) && fresh(starts) && Stored() && Room() && count >= 1
      ensures rows == LoadRows(bytes, 0) && data[..count] == LoadFrom(bytes, 0)
      ensures cursorLine == old(cursorLine) && cursorPos == old(cursorPos)
      ensures (forall i :: 0 <= i < |bytes| ==> bytes[i] != 0) ==> RowsOk(rows) && AllAligned(rows)
    {
      hide Concat, Start, Padded, LoadRows, LoadedOk, RowsOk, Aligned, LoadFrom, Editor.Loading, Editor.Stored;
      InitData();
      var row := 0;
      ghost var done: seq<Row>, cur: Line := [], [];
      LoadStart(bytes);
      var i := 0;
      while i < |bytes|
        invariant i <= |bytes| && fresh(data) && fresh(starts) && row == |cur|
        invariant cursorLine == old(cursorLine) && cursorPos == old(cursorPos)
        invariant Loading(done, cur) && LoadRows(bytes, 0) == done + Glue(cur, LoadRows(bytes[i..], row))
      {
        LoadStep(bytes, i, done, cur);
        row := LoadByte(bytes[i], row, done, cur);
        if bytes[i] == NEWLINE {
          done, cur := done + [cur + [BREAK]], [];
        } else {
          cur := cur + Padded(Read(bytes[i]), |cur|);
        }
        i := i + 1;
      }
      LoadEnd(bytes, done, cur);
      LastByte(done, cur);
      LoadConcat(bytes, 0);
      if forall i :: 0 <= i < |bytes| ==> bytes[i] != 0 {
        LoadRowsOk(bytes, 0);
        LoadedTidy(rows);
      }
    }

    // init_data, then an empty buffer.
    method InitData()
      modifies this`data, this`starts, this`count, this`linesCount
      ensures fresh(data) && fresh(starts) && Loading([], [])
    {
      data := new Cell[1024];
      starts := new nat[1024];
      starts[0] := 0;
      count, linesCount := 0, 1;
    }

    // The cell that ends the text.
    method LastByte(ghost done: seq<Row>, ghost cur: Line)
      requires Loading(done, cur)
      modifies this`count, this`rows, data
      ensures Stored() && Room() && rows == done + [cur + [END]] && data[..count] == Concat(rows) && count >= 1
    {
      hide Concat, Start;
      ClosedRow(done, cur, END);
      Push(END);
      rows := done + [cur + [END]];
    }

    // save_file: what is written, and edited cells count as saved from now on.
    method SaveFile() returns (out: seq<byte>)
      requires 1 <= count <= data.Length
      modifies this`rows, data
      ensures out == SaveBytes(old(data[..count])) && data[..count] == SettledRow(old(data[..count]))
      ensures forall i :: 0 <= i < count ==> SavedMark(old(data[..count])[i], data[i])
      ensures old(Stored()) ==> Stored() && rows == SettledRows(old(rows))
      ensures old(Stored() && RowsOk(rows)) ==> RowsOk(rows) && SavedAsText(old(rows), out)
    {
      hide Concat, Start, TextOf, SavedCell, Settled, SavedMark, RowsOk, SavedAsText;
      ghost var was := data[..count];
      out := WriteCells();
      forall i | 0 <= i < count ensures SavedMark(was[i], data[i]) {
        SettledMark(was[i]);
        assert data[i] == data[..count][i];
      }
      if old(Stored()) {
        SettledConcat(rows);
        forall k | 0 <= k <= |rows| ensures Start(SettledRows(rows), k) == Start(rows, k) { SettledStart(rows, k); }
        if RowsOk(rows) {
          SavesRows(rows);
          SettledOk(rows);
        }
        rows := SettledRows(rows);
      }
    }

    // Its loop over the cells; the last one is marked and not written.
    method WriteCells() returns (out: seq<byte>)
      requires 1 <= count <= data.Length
      modifies data
      ensures out == SaveBytes(old(data[..count])) && data[..count] == SettledRow(old(data[..count]))
    {
      hide SavedCell, Settled;
      ghost var was := data[..count];
      SavedNothing();
      out := [];
      var i := 0;
      while true
        invariant 0 <= i < count && out == SavedCells(was[..i])
        invariant forall k :: 0 <= k < i ==> data[k] == Settled(was[k])
        invariant forall k :: i <= k < count ==> data[k] == was[k]
        decreases count - i
      {
        data[i] := Settled(data[i]);
        SettledSame(was[i]);
        if i == count - 1 { break; }
        SavedNext(was, i);
        out := out + SavedCell(data[i]);
        i := i + 1;
      }
    }

    // A file opened and saved again: the same bytes, whatever they are.
    method Resave(bytes: seq<byte>) returns (out: seq<byte>)
      modifies this
      ensures out == bytes
    {
      hide RowsOk, LoadRows, LoadFrom, SaveBytes, Aligned, Concat, Start;
      LoadFile(bytes);
      SaveLoad(bytes, 0);
      out := SaveFile();
    }

    // Page down comes to the padding of a tab, and the next character stays inside it.
    method PagedOntoPadding(screen: nat)
      requires screen >= 1
      modifies this
      ensures Valid() && !AllAligned(rows)
    {
      hide Concat, Start, LoadRows, LoadFrom, Aligned, TextAt, Realign, Typed, RealTab;
      LoadFile([97, NEWLINE, TAB]);
      TwoLines();
      cursorLine, cursorPos := 0, 0;
      AlignedOff(Body(rows[0]), 0);
      CursorEnd();
      PageDown(screen);
      OnlyPadding(rows[1], cursorPos);
      TypeKey(120);
    }

    // One key of the main loop.
    method PressKey(key: Key)
      requires Valid() && Tidy(rows, cursorLine, cursorPos) && Room() && Typable(key)
      modifies this, data, starts
      ensures Valid() && Tidy(rows, cursorLine, cursorPos) && Room() && SameArrays()
      ensures View() == Press(old(View()), key)
    {
      hide RowsOk, RowOk, Aligned, Concat, Start, TextAt, Realign, Typed, Deleted, FullTo, RealTab, Editor.Stored,
        Editor.LineTexts;
      RowOf(rows, cursorLine, cursorPos);
      match key {
        case Char(ch) => TypeKey(ch);
        case Tab =>
          AlignedFull(rows[cursorLine], cursorPos);
          InsertTab();
        case Newline => InsertNewline();
        case Delete => ExecuteDelete();
        case Backspace => ExecuteBackspace();
        case Left => CursorLeft();
        case Right => CursorRight();
        case Home => CursorHome();
        case End => CursorEnd();
      }
    }

    // A session: a file is opened at a line, keys are pressed, and it is saved.
    method Session(bytes: seq<byte>, startLine: nat, keys: seq<Key>) returns (out: seq<byte>)
      requires startLine >= 1 && (forall i :: 0 <= i < |bytes| ==> bytes[i] != 0)
      requires forall i :: 0 <= i < |keys| ==> Typable(keys[i])
      modifies this
      ensures out == Joined(Lines(PressAll(Opened(bytes, startLine), keys)))
    {
      hide RowsOk, LoadRows, LoadFrom, SaveBytes, Aligned, Concat, Start, TextAt, Tidy, Joined, TextOf, Press, Opened;
      LoadFile(bytes);
      OpenedText(bytes, startLine);
      cursorLine, cursorPos := (if startLine < linesCount then startLine else linesCount) - 1, 0;
      ghost var t := View();
      var i := 0;
      while i < |keys|
        invariant i <= |keys| && fresh(data) && fresh(starts)
        invariant Valid() && Tidy(rows, cursorLine, cursorPos) && Room()
        invariant View() == PressAll(t, keys[..i])
      {
        PressKey(keys[i]);
        PressNext(t, keys, i);
        i := i + 1;
      }
      RowSizes(rows);
      FileOfText(rows, cursorLine, cursorPos);
      SavesRows(rows);
      assert keys[..i] == keys;
      out := SaveFile();
    }
  }

  // What has just been opened.
  lemma OpenedText(bytes: seq<byte>, startLine: nat)
    requires startLine >= 1 && forall i :: 0 <= i < |bytes| ==> bytes[i] != 0
    ensures var rows := LoadRows(bytes, 0);
            var k := (if startLine < |rows| then startLine else |rows|) - 1;
            && RowsOk(rows) && Sized(rows) && Tidy(rows, k, 0) && 0 < |rows[k]|
            && TextAt(rows, k, 0) == Opened(bytes, startLine)
  {
    hide SavedCells, LoadRows, Aligned, LoadedOk, LinesOf;
    var rows := LoadRows(bytes, 0);
    LoadRowsOk(bytes, 0);
    LoadedTidy(rows);
    RowSizes(rows);
    LoadedLines(bytes, 0);
    var k := (if startLine < |rows| then startLine else |rows|) - 1;
    AlignedOff(Body(rows[k]), 0);
    NothingLeft(rows[k]);
    CutText(rows[k], 0);
    assert RowTexts(rows)[..k] == RowTexts(rows[..k]) && RowTexts(rows)[k + 1..] == RowTexts(rows[k + 1..]);
  }

  // What is written is the text of well-formed rows.
  ghost predicate SavedAsText(rows: seq<Row>, out: seq<byte>) {
    |rows| >= 1 && (forall k :: 0 <= k < |rows| ==> |rows[k]| >= 1) && out == TextOf(rows)
  }

  lemma SavesRows(rows: seq<Row>)
    requires RowsOk(rows)
    ensures Concat(rows) != [] && SavedAsText(rows, SaveBytes(Concat(rows)))
  {
    hide Concat, TextOf, SaveBytes;
    SavesText(rows);
  }

  // Where a row lies in the buffer.
  lemma RowStored(rows: seq<Row>, k: nat)
    requires k < |rows|
    ensures Start(rows, k) + |rows[k]| <= |Concat(rows)|
    ensures forall i :: 0 <= i < |rows[k]| ==> Concat(rows)[Start(rows, k) + i] == rows[k][i]
  {
    hide Concat;
    RowAt(rows, k);
    var c, s := Concat(rows), Start(rows, k);
  }

  lemma RowCells(row: Row)
    requires RowOk(row)
    ensures |row| >= 1 && |Body(row)| == |row| - 1 && row[|row| - 1].ch == 0
    ensures forall i :: 0 <= i < |Body(row)| ==>
              row[i] == Body(row)[i] && row[i].ch != 0 && (row[i].fake ==> row[i].ch == TAB)
  {
  }

  function TabCount(text: Line): nat {
    if text == [] then 0 else TabCount(text[..|text| - 1]) + if text[|text| - 1].ch == TAB then 1 else 0
  }

  lemma MeasureStart()
    ensures Strip([]) == [] && TabCount([]) == 0 && !HasTab([])
  {
  }

  lemma MeasureNext(body: Line, n: nat)
    requires n < |body| && (body[n].fake ==> body[n].ch == TAB)
    ensures HasTab(body[..n + 1]) <==> HasTab(body[..n]) || body[n].ch == TAB
    ensures Strip(body[..n + 1]) == if body[n].fake then Strip(body[..n]) else Strip(body[..n]) + [body[n]]
    ensures TabCount(Strip(body[..n + 1])) == TabCount(Strip(body[..n])) + if !body[n].fake && body[n].ch == TAB then 1
            else 0
  {
    hide Strip;
    assert body[..n + 1] == body[..n] + [body[n]];
    StripJoin(body[..n], [body[n]]);
    if body[n].fake { StripAllFake([body[n]]); } else { StripOne(body[n]); }
    assert HasTab(body[..n + 1]) <==> HasTab(body[..n]) || body[n].ch == TAB by { TabNext(body, n); }
  }

  lemma TabNext(body: Line, n: nat)
    requires n < |body|
    ensures HasTab(body[..n + 1]) <==> HasTab(body[..n]) || body[n].ch == TAB
  {
  }

  lemma PadStops(from: nat, j: nat, c: Cell)
    requires from + 1 <= j <= from + 1 + Pad(from) && (c.ch == TAB ==> j % 4 == 0) && (c.ch != TAB ==> j == from + 1)
    ensures j == from + |Padded(c, from)|
  {
  }

  lemma PadStart(body: Line)
    ensures Strip(body[..0]) == [] && TabCount([]) == 0 && Expand([], 0) == []
  {
  }

  lemma PadNext(body: Line, n: nat)
    requires n < |body|
    ensures !body[n].fake ==>
              (Expand(Strip(body[..n]) + [body[n]], 0) == Expand(Strip(body[..n]), 0)
               + Padded(body[n], |Expand(Strip(body[..n]), 0)|))
  {
    hide Strip;
    ExpandJoin(Strip(body[..n]), [body[n]], 0);
    ExpandOne(body[n], |Expand(Strip(body[..n]), 0)|);
  }

  // The buffer for the new line is never too small.
  lemma PadBound(body: Line, n: nat)
    requires n <= |body|
    ensures |Strip(body[..n])| <= |Strip(body)| && TabCount(Strip(body[..n])) <= TabCount(Strip(body))
  {
    hide Strip;
    assert body == body[..n] + body[n..];
    StripJoin(body[..n], body[n..]);
    TabsJoin(Strip(body[..n]), Strip(body[n..]));
  }

  lemma {:induction false} TabsJoin(a: Line, b: Line)
    ensures TabCount(a + b) == TabCount(a) + TabCount(b)
  {
    if b == [] {
      assert a + b == a;
    } else {
      TabsJoin(a, b[..|b| - 1]);
      assert (a + b)[..|a + b| - 1] == a + b[..|b| - 1];
    }
  }

  lemma RealignCases(row: Row)
    requires RowOk(row)
    ensures !HasTab(Body(row)) || |Expand(Strip(Body(row)), 0)| + 1 == |row| ==> Realign(row) == row
    ensures HasTab(Body(row)) && |Expand(Strip(Body(row)), 0)| + 1 != |row| ==>
              Realign(row) == Expand(Strip(Body(row)), 0) + [Cell(0, Edited, false, true)]
  {
  }

  // Later rows start behind row k.
  lemma LaterStarts(rows: seq<Row>, k: nat)
    requires k < |rows|
    ensures forall i: nat :: k < i <= |rows| ==> Start(rows, i) >= |rows[k]|
  {
    hide Concat;
    RowAt(rows, k);
    forall i: nat | k < i <= |rows| ensures Start(rows, i) >= |rows[k]| {
      Around(rows[..i], k + 1, i);
      assert rows[..i][..k + 1] == rows[..k + 1] && rows[..i][..i] == rows[..i];
    }
  }

  lemma WholeStart(rows: seq<Row>)
    ensures Start(rows, |rows|) == |Concat(rows)|
  {
    assert rows[..|rows|] == rows;
  }

  lemma ReplaceTwice(rows: seq<Row>, k: nat, a: Row, b: Row)
    requires k < |rows|
    ensures rows[k := a][k := b] == rows[k := b] && rows[k := a][k] == a
  {
  }

  lemma DropFlat(rows: seq<Row>, k: nat, p: nat)
    requires k < |rows| && p + 1 < |rows[k]|
    ensures Start(rows, k) + |rows[k]| <= |Concat(rows)|
    ensures var a := Start(rows, k) + p;
            var less := Concat(rows)[..a] + Concat(rows)[a + 1..];
            a < |less| && Concat(rows[k := Deleted(rows[k], p)]) == less[a := less[a].(mark := Edited)]
  {
    hide Concat;
    ReplaceRow(rows, k, Deleted(rows[k], p));
    DropInside(Concat(rows), Start(rows, k), rows[k], p);
  }

  lemma DropInside(s: seq<Cell>, from: nat, row: Row, p: nat)
    requires from + |row| <= |s| && s[from..from + |row|] == row && p + 1 < |row|
    ensures var less := s[..from + p] + s[from + p + 1..];
            s[..from] + Deleted(row, p) + s[from + |row|..] == less[from + p := less[from + p].(mark := Edited)]
  {
  }

  lemma BreakFlat(rows: seq<Row>, k: nat, p: nat)
    requires k < |rows| && p < |rows[k]|
    ensures Start(rows, k) + |rows[k]| <= |Concat(rows)|
    ensures var a := Start(rows, k) + p;
            Concat(Splice(rows, k, k + 1, [Before(rows[k], p), rows[k][p..]])) == Concat(rows)[..a] + [LINE_BREAK]
              + Concat(rows)[a..]
  {
    hide Concat, Splice, Start;
    SpliceConcat(rows, k, k + 1, [Before(rows[k], p), rows[k][p..]]);
    RowAt(rows, k);
    TwoRows(Before(rows[k], p), rows[k][p..]);
  }

  lemma TwoRows(a: Row, b: Row)
    ensures Concat([a, b]) == a + b && Concat([a, b][..1]) == a && Concat([a, b][..2]) == a + b
            && Concat([a, b][..0]) == []
  {
  }

  lemma BreakStart(rows: seq<Row>, k: nat, p: nat, j: nat)
    requires k < |rows| && p < |rows[k]| && j <= |rows| + 1
    ensures Start(Splice(rows, k, k + 1, [Before(rows[k], p), rows[k][p..]]), j) ==
            if j <= k then Start(rows, j) else if j == k + 1 then Start(rows, k) + p + 1 else Start(rows, j - 1) + 1
  {
    hide Concat;
    var mid := [Before(rows[k], p), rows[k][p..]];
    SpliceStart(rows, k, k + 1, mid, j);
    TwoRows(mid[0], mid[1]);
    RowAt(rows, k);
  }

  lemma TwoLines()
    ensures LoadRows([97, NEWLINE, TAB], 0) == [[Read(97), BREAK], Padded(Read(TAB), 0) + [END]]
  {
    hide Padded;
    var bytes: seq<byte>, tab: seq<byte> := [97, NEWLINE, TAB], [TAB];
    assert bytes[1..][1..] == tab && tab[1..] == [];
    assert LoadRows(tab, 0) == [Padded(Read(TAB), 0) + [END]];
    assert LoadRows(bytes[1..], 1) == [[BREAK], Padded(Read(TAB), 0) + [END]];
    assert Padded(Read(97), 0) == [Read(97)];
    assert LoadRows(bytes, 0) == Glue([Read(97)], LoadRows(bytes[1..], 1));
    assert [Read(97)] + [BREAK] == [Read(97), BREAK];
  }

  lemma OnlyPadding(row: Row, p: nat)
    requires p < |row| && forall i :: p <= i < |row| - 1 ==> row[i].fake
    ensures !RealTab(Body(row)[p..])
  {
  }

  // The broken line's second half is realigned.
  lemma SplitTwice(was: seq<Row>, k: nat, p: nat)
    requires k < |was| && p < |was[k]|
    ensures var a, b := Before(was[k], p), was[k][p..];
            Splice(was, k, k + 1, [a, b])[k + 1 := Realign(b)] == Splice(was, k, k + 1, [a, Realign(b)])
  {
    hide Realign, Before;
  }

  lemma JoinFlat(rows: seq<Row>, k: nat)
    requires k + 1 < |rows| && |rows[k]| >= 1
    ensures 1 <= Start(rows, k + 1) <= |Concat(rows)|
    ensures var a := Start(rows, k + 1);
            Concat(Splice(rows, k, k + 2, [Body(rows[k]) + rows[k + 1]])) == Concat(rows)[..a - 1] + Concat(rows)[a..]
  {
    hide Concat, Splice, Start;
    SpliceConcat(rows, k, k + 2, [Body(rows[k]) + rows[k + 1]]);
    RowAt(rows, k);
    RowAt(rows, k + 1);
    ConcatOne(Body(rows[k]) + rows[k + 1]);
  }

  lemma JoinOk(rows: seq<Row>, k: nat)
    requires RowsOk(rows) && k + 1 < |rows|
    ensures |rows[k]| >= 1 && RowsOk(Splice(rows, k, k + 2, [Body(rows[k]) + rows[k + 1]]))
  {
  }

  lemma JoinStart(rows: seq<Row>, k: nat, j: nat)
    requires k + 1 < |rows| && j < |rows| && |rows[k]| >= 1
    ensures Start(Splice(rows, k, k + 2, [Body(rows[k]) + rows[k + 1]]), j) == if j <= k then Start(rows, j)
            else Start(rows, j + 1) - 1
    ensures j > k ==> Start(rows, j) >= 1
  {
    hide Concat;
    var mid := [Body(rows[k]) + rows[k + 1]];
    SpliceStart(rows, k, k + 2, mid, j);
    ConcatOne(mid[0]);
    RowAt(rows, k);
    RowAt(rows, k + 1);
    LaterStarts(rows, k);
  }

  lemma JoinTwice(was: seq<Row>, k: nat)
    requires k + 1 < |was| && |was[k]| >= 1 && |Body(was[k]) + was[k + 1]| >= 1
    ensures var r := Body(was[k]) + was[k + 1];
            Splice(was, k, k + 2, [r])[k := Realign(r)] == Splice(was, k, k + 2, [Realign(r)])
  {
    hide Realign;
  }

  // ------------------------------------------------------------------ loading and saving

  lemma LoadStart(bytes: seq<byte>)
    ensures LoadRows(bytes, 0) == [] + Glue([], LoadRows(bytes[0..], 0)) && Concat([]) == [] && Start([], 0) == 0
  {
    GlueNothing(LoadRows(bytes, 0));
  }

  lemma GlueNothing(r: seq<Row>)
    requires r != []
    ensures Glue([], r) == r
  {
    assert [] + r[0] == r[0];
  }

  lemma GlueTwice(cur: Line, p: Line, r: seq<Row>)
    requires r != []
    ensures Glue(cur, Glue(p, r)) == Glue(cur + p, r)
  {
    assert cur + (p + r[0]) == (cur + p) + r[0];
  }

  lemma GlueBreak(cur: Line, r: seq<Row>)
    requires r != []
    ensures Glue(cur, [[BREAK]] + r) == [cur + [BREAK]] + Glue([], r)
  {
    GlueNothing(r);
  }

  lemma LoadStep(bytes: seq<byte>, i: nat, done: seq<Row>, cur: Line)
    requires i < |bytes|
    ensures bytes[i] == NEWLINE ==>
              done + Glue(cur, LoadRows(bytes[i..], |cur|)) == (done + [cur + [BREAK]])
                + Glue([], LoadRows(bytes[i + 1..], 0))
    ensures bytes[i] != NEWLINE ==>
              (var p := Padded(Read(bytes[i]), |cur|);
               done + Glue(cur, LoadRows(bytes[i..], |cur|)) == done
                 + Glue(cur + p, LoadRows(bytes[i + 1..], |cur + p|)))
  {
    hide Padded, Glue;
    if bytes[i] == NEWLINE {
      GlueBreak(cur, LoadRows(bytes[i + 1..], 0));
    } else {
      var p := Padded(Read(bytes[i]), |cur|);
      GlueTwice(cur, p, LoadRows(bytes[i + 1..], |cur + p|));
    }
  }

  lemma LoadEnd(bytes: seq<byte>, done: seq<Row>, cur: Line)
    ensures done + Glue(cur, LoadRows(bytes[|bytes|..], |cur|)) == done + [cur + [END]]
  {
  }

  // A line closed by one more cell: a further row, and later a further start.
  lemma ClosedRow(done: seq<Row>, cur: Line, c: Cell)
    ensures Concat(done + [cur + [c]]) == Concat(done) + cur + [c] == Concat(done) + cur + [c] + []
    ensures forall k :: 0 <= k <= |done| ==> Start(done + [cur + [c]], k) == Start(done, k)
    ensures Start(done + [cur + [c]], |done| + 1) == |Concat(done)| + |cur| + 1
  {
    hide Concat;
    ConcatJoin(done, [cur + [c]]);
    ConcatOne(cur + [c]);
    assert (done + [cur + [c]])[..|done| + 1] == done + [cur + [c]];
    forall k | 0 <= k <= |done| ensures Start(done + [cur + [c]], k) == Start(done, k) {
      assert (done + [cur + [c]])[..k] == done[..k];
    }
  }

  lemma LoadedTidy(rows: seq<Row>)
    requires LoadedOk(rows, 0)
    ensures RowsOk(rows) && AllAligned(rows)
  {
  }

  lemma SavedNothing()
    ensures SavedCells([]) == []
  {
  }

  lemma SavedNext(cells: seq<Cell>, i: nat)
    requires i < |cells|
    ensures SavedCells(cells[..i + 1]) == SavedCells(cells[..i]) + SavedCell(cells[i])
  {
    hide SavedCell;
    assert cells[..i + 1] == cells[..i] + [cells[i]];
    SavedJoin(cells[..i], [cells[i]]);
  }

  // The cell as it was, but no longer edited.
  ghost predicate SavedMark(c: Cell, c': Cell) {
    && c'.ch == c.ch && c'.fake == c.fake && c'.nwl == c.nwl
    && (if c.mark == Edited then c'.mark == Saved else c'.mark == c.mark)
  }

  function Settled(c: Cell): Cell { if c.mark == Edited then c.(mark := Saved) else c }

  lemma SettledMark(c: Cell)
    ensures SavedMark(c, Settled(c))
  {
  }

  lemma SettledSame(c: Cell)
    ensures SavedCell(Settled(c)) == SavedCell(c)
  {
  }

  function SettledRow(row: seq<Cell>): (r: seq<Cell>)
    ensures |r| == |row| && forall i :: 0 <= i < |row| ==> r[i] == Settled(row[i])
  {
    seq(|row|, i requires 0 <= i < |row| => Settled(row[i]))
  }

  function SettledRows(rows: seq<Row>): (r: seq<Row>)
    ensures |r| == |rows| && forall k :: 0 <= k < |rows| ==> r[k] == SettledRow(rows[k])
  {
    seq(|rows|, k requires 0 <= k < |rows| => SettledRow(rows[k]))
  }

  lemma {:induction false} SettledConcat(rows: seq<Row>)
    ensures Concat(SettledRows(rows)) == SettledRow(Concat(rows))
  {
    if rows == [] {
    } else {
      var n := |rows| - 1;
      SettledConcat(rows[..n]);
      assert SettledRows(rows)[..n] == SettledRows(rows[..n]);
    }
  }

  lemma SettledOk(rows: seq<Row>)
    requires RowsOk(rows)
    ensures RowsOk(SettledRows(rows))
  {
  }

  lemma SettledStart(rows: seq<Row>, k: nat)
    requires k <= |rows|
    ensures Start(SettledRows(rows), k) == Start(rows, k)
  {
    SettledConcat(rows[..k]);
    assert SettledRows(rows)[..k] == SettledRows(rows[..k]);
  }

  function Moved(d: seq<Cell>, from: nat, to: nat, n: nat): (r: seq<Cell>)
    requires from + n <= |d| && to + n <= |d|
    ensures |r| == |d|
  {
    d[..to] + d[from..from + n] + d[to + n..]
  }

  function Overlaid(d: seq<Cell>, line: seq<Cell>, to: nat): (r: seq<Cell>)
    requires to + |line| <= |d|
    ensures |r| == |d|
  {
    d[..to] + line + d[to + |line|..]
  }

  // Move what is behind, then write the line over: the line stands where the old one stood.
  lemma PiecesOf(d: seq<Cell>, line: seq<Cell>, s: nat, n: nat, behind: nat)
    requires s + n + behind <= |d| && s + |line| + behind <= |d|
    ensures Overlaid(Moved(d, s + n, s + |line|, behind), line, s)[..s + |line| + behind] == d[..s] + line
            + d[s + n..s + n + behind]
    ensures d[..s + n + behind][..s] == d[..s] && d[..s + n + behind][s + n..] == d[s + n..s + n + behind]
  {
  }
}
