/** What the user edits (rim.c): lines of text and a cursor between two characters. */
module RimView {
  import opened RimText
  import opened RimTabs
  import opened RimFile
  import opened RimEdits

  // The lines above the cursor's, its own in two halves, and the lines below.
  datatype Text = Text(above: seq<seq<byte>>, left: seq<byte>, right: seq<byte>, below: seq<seq<byte>>)

  // The text of one row.
  function RowText(row: Row): seq<byte>
    requires |row| >= 1
  {
    SavedCells(Body(row))
  }

  ghost predicate Sized(rows: seq<Row>) { forall k :: 0 <= k < |rows| ==> |rows[k]| >= 1 }

  function RowTexts(rows: seq<Row>): (r: seq<seq<byte>>)
    requires forall k :: 0 <= k < |rows| ==> |rows[k]| >= 1
    ensures |r| == |rows| && forall k :: 0 <= k < |rows| ==> r[k] == RowText(rows[k])
  {
    seq(|rows|, k requires 0 <= k < |rows| => RowText(rows[k]))
  }

  function TextAt(rows: seq<Row>, line: nat, pos: nat): Text
    requires (forall k :: 0 <= k < |rows| ==> |rows[k]| >= 1) && line < |rows| && pos < |rows[line]|
  {
    Text(RowTexts(rows[..line]), SavedCells(Body(rows[line])[..pos]), SavedCells(Body(rows[line])[pos..]),
         RowTexts(rows[line + 1..]))
  }

  function Lines(t: Text): seq<seq<byte>> { t.above + [t.left + t.right] + t.below }

  // Lines joined by line breaks.
  function Joined(lines: seq<seq<byte>>): seq<byte> {
    if lines == [] then [] else if |lines| == 1 then lines[0] else lines[0] + [NEWLINE] + Joined(lines[1..])
  }

  // A saved file is the lines, wherever the cursor stands.
  lemma FileOfText(rows: seq<Row>, line: nat, pos: nat)
    requires Sized(rows) && line < |rows| && pos < |rows[line]|
    ensures Joined(Lines(TextAt(rows, line, pos))) == TextOf(rows)
  {
    hide SavedCells, TextOf, Joined;
    var row := Body(rows[line]);
    SavedJoin(row[..pos], row[pos..]);
    assert row[..pos] + row[pos..] == row;
    assert Lines(TextAt(rows, line, pos)) == RowTexts(rows);
    JoinedRows(rows);
  }

  lemma {:induction false} JoinedRows(rows: seq<Row>)
    requires Sized(rows) && rows != []
    ensures Joined(RowTexts(rows)) == TextOf(rows)
  {
    SavedStrip(Body(rows[0]));
    if |rows| <= 1 {
    } else {
      JoinedRows(rows[1..]);
      assert RowTexts(rows)[1..] == RowTexts(rows[1..]);
    }
  }

  // ------------------------------------------------------------------ one row at a time

  // Text left and right of place p of a row.
  function LeftOf(row: Row, p: nat): seq<byte>
    requires p < |row|
  {
    SavedCells(Body(row)[..p])
  }

  function RightOf(row: Row, p: nat): seq<byte>
    requires p < |row|
  {
    SavedCells(Body(row)[p..])
  }

  // Realigning a row edited behind its aligned part a keeps the text on both sides.
  lemma EditedText(a: Line, b: Line, end: Cell)
    requires Aligned(a, 0) && Repairable(a + b) && RowOk(a + b + [end])
    ensures var r := Realign(a + b + [end]);
            |a| < |r| && LeftOf(r, |a|) == SavedCells(a) && RightOf(r, |a|) == SavedCells(b)
  {
    hide Aligned, Strip, Expand, Realign, RowOk, Repairable, SavedCells;
    var row := a + b + [end];
    AfterEdit(a, b, end);
    RealignExact(row);
    RealignEither(row);
    assert Body(row) == a + b;
    var body := Body(Realign(row));
    assert OffPadding(body, |a|);
    assert body[..|a|] + body[|a|..] == body;
    StripJoin(body[..|a|], body[|a|..]);
    StripJoin(a, b);
    assert Strip(a) + Strip(body[|a|..]) == Strip(a) + Strip(b);
    SameRest(Strip(a), Strip(body[|a|..]), Strip(b));
    SavedStrip(a);
    SavedStrip(b);
    SavedStrip(body[..|a|]);
    SavedStrip(body[|a|..]);
  }

  lemma SameRest(a: Line, b: Line, c: Line)
    requires a + b == a + c
    ensures b == c
  {
    assert (a + b)[|a|..] == b && (a + c)[|a|..] == c;
  }

  lemma SameTail(x: byte, a: seq<byte>, y: byte, b: seq<byte>)
    requires [x] + a == [y] + b
    ensures x == y && a == b
  {
    assert ([x] + a)[0] == x && ([y] + b)[0] == y && ([x] + a)[1..] == a && ([y] + b)[1..] == b;
  }

  lemma SavedOne(c: Cell)
    ensures SavedCells([c]) == SavedCell(c)
  {
  }

  // The cells from p on, when the first is no padding.
  lemma RightHead(row: Row, p: nat)
    requires RowOk(row) && p + 1 < |row| && !row[p].fake
    ensures RightOf(row, p) == [row[p].ch] + RightOf(row, p + 1)
    ensures LeftOf(row, p + 1) == LeftOf(row, p) + [row[p].ch]
  {
    var body := Body(row);
    assert body[p..] == [body[p]] + body[p + 1..] && body[..p + 1] == body[..p] + [body[p]];
    SavedOne(body[p]);
    SavedJoin([body[p]], body[p + 1..]);
    SavedJoin(body[..p], [body[p]]);
  }

  // Padding from p up to q is no text.
  lemma OverPadding(row: Row, p: nat, q: nat)
    requires p <= q < |row| && forall i :: p <= i < q ==> row[i].fake
    ensures LeftOf(row, q) == LeftOf(row, p) && RightOf(row, p) == RightOf(row, q)
  {
    var body := Body(row);
    assert body[..q] == body[..p] + body[p..q] && body[p..] == body[p..q] + body[q..];
    SavedFakes(body[p..q]);
    SavedJoin(body[..p], body[p..q]);
    SavedJoin(body[p..q], body[q..]);
  }

  lemma TypedText(row: Row, p: nat, c: Cell)
    requires TidyRow(row, p) && p < |row| && c.ch != 0 && c.ch != TAB && !c.nwl && !c.fake
    ensures Typed(row, p, c) != []
    ensures var r := Realign(Typed(row, p, c));
            p + 1 < |r| && LeftOf(r, p + 1) == LeftOf(row, p) + [c.ch] && RightOf(r, p + 1) == RightOf(row, p)
  {
    hide Aligned, Strip, Expand, Realign, RowOk, Repairable, Typed, SavedCells;
    var a, b := Body(row)[..p] + [c], Body(row)[p..];
    TypedRow(row, p, c);
    TypedBody(row, p, c);
    AlignedCut(Body(row), p, 0);
    OneAligned(c, p);
    AlignedJoin(Body(row)[..p], [c], 0);
    InsertRepairable(Body(row), p, c);
    EditedText(a, b, row[|row| - 1]);
    SavedJoin(Body(row)[..p], [c]);
    SavedOne(c);
  }

  lemma TabText(row: Row, p: nat, c: Cell)
    requires TidyRow(row, p) && p < |row| && c.ch == TAB && !c.nwl && !c.fake
    ensures Typed(row, p, c) != []
    ensures var r := Realign(Typed(row, p, c));
            p + 1 < |r| && LeftOf(r, p + 1) == LeftOf(row, p) + [TAB] && RightOf(r, p + 1) == RightOf(row, p)
  {
    hide Aligned, Strip, Expand, Realign, Repairable, Typed, SavedCells;
    var a, b := Body(row)[..p], [c] + Body(row)[p..];
    TypedRow(row, p, c);
    TypedBody(row, p, c);
    AlignedCut(Body(row), p, 0);
    InsertRepairable(Body(row), p, c);
    EditedText(a, b, row[|row| - 1]);
    TabTidy(row, p, c);
    SavedJoin([c], Body(row)[p..]);
    SavedOne(c);
    var r := Realign(Typed(row, p, c));
    RightHead(r, p);
    SameTail(r[p].ch, RightOf(r, p + 1), TAB, RightOf(row, p));
  }

  lemma DeletedText(row: Row, p: nat)
    requires TidyRow(row, p) && p + 1 < |row|
    ensures Deleted(row, p) != []
    ensures var r := Realign(Deleted(row, p));
            p < |r| && LeftOf(r, p) == LeftOf(row, p) && RightOf(r, p) == RightOf(row, p + 1)
    ensures RightOf(row, p) == [row[p].ch] + RightOf(row, p + 1)
  {
    hide Aligned, Strip, Expand, Realign, Repairable, Deleted, SavedCells, SameShape;
    var r := Deleted(row, p);
    DeletedRow(row, p);
    DeletedShape(row, p);
    DeleteRepairable(Body(row), p);
    ShapeRepairable(Body(row)[..p] + Body(row)[p + 1..], Body(r));
    AlignedCut(Body(row), p, 0);
    CutAt(r, p);
    EditedText(Body(r)[..p], Body(r)[p..], r[|r| - 1]);
    RightHead(row, p);
    MarkedText(row, p);
  }

  lemma MarkedText(row: Row, p: nat)
    requires p + 1 < |row|
    ensures Deleted(row, p) != [] && SavedCells(Body(Deleted(row, p))[p..]) == SavedCells(Body(row)[p + 1..])
  {
    var b, b' := Body(row)[p + 1..], Body(Deleted(row, p))[p..];
    if b != [] { assert b' == [b[0].(mark := Edited)] + b[1..]; }
  }

  lemma JoinedText(a: Row, b: Row)
    requires RowOk(a) && RowOk(b) && Aligned(Body(a), 0) && Aligned(Body(b), 0)
    ensures |a| >= 1 && Body(a) + b != []
    ensures var r := Realign(Body(a) + b);
            |Body(a)| < |r| && LeftOf(r, |Body(a)|) == RowText(a) && RightOf(r, |Body(a)|) == RowText(b)
  {
    hide Aligned, Strip, Expand, Realign, RowOk, Repairable, SavedCells;
    JoinedRow(a, b);
    MovedText(Body(a), Body(b), 0);
    EndOf(b);
    assert Body(a) + Body(b) + [b[|b| - 1]] == Body(a) + b;
    EditedText(Body(a), Body(b), b[|b| - 1]);
  }

  // --------------------------------------------------------------- the whole text

  // Row k gives way to another.
  lemma ReplacedText(rows: seq<Row>, k: nat, r: Row, pos: nat, p: nat)
    requires Sized(rows) && k < |rows| && p < |rows[k]| && pos < |r|
    ensures TextAt(rows[k := r], k, pos)
            == TextAt(rows, k, p).(left := LeftOf(r, pos), right := RightOf(r, pos))
  {
    hide SavedCells;
    assert rows[k := r][..k] == rows[..k] && rows[k := r][k + 1..] == rows[k + 1..];
  }

  lemma BeforeSize(row: Row, p: nat)
    requires p <= |row|
    ensures |Before(row, p)| >= 1
  {
  }

  lemma JoinRowsText(rows: seq<Row>, k: nat, r: Row, pos: nat)
    requires Sized(rows) && k + 1 < |rows| && pos < |r|
    ensures var s := Splice(rows, k, k + 2, [r]);
            var t := TextAt(rows, k + 1, 0);
            Sized(s) && k < |s| && t.above != [] && t.above[|t.above| - 1] == RowText(rows[k]) && t.left == []
            && t.right == RowText(rows[k + 1])
            && TextAt(s, k, pos) == Text(t.above[..|t.above| - 1], LeftOf(r, pos), RightOf(r, pos), t.below)
  {
    var s := Splice(rows, k, k + 2, [r]);
    assert s[..k] == rows[..k] && s[k + 1..] == rows[k + 2..];
    assert RowTexts(rows[..k + 1])[..k] == RowTexts(rows[..k]);
  }

  lemma TextHalves(rows: seq<Row>, k: nat, p: nat)
    requires Sized(rows) && k < |rows| && p < |rows[k]|
    ensures TextAt(rows, k, p).left == LeftOf(rows[k], p) && TextAt(rows, k, p).right == RightOf(rows[k], p)
    ensures |TextAt(rows, k, p).above| == k
  {
  }

  lemma MovedCursor(rows: seq<Row>, k: nat, p: nat, q: nat)
    requires Sized(rows) && k < |rows| && p < |rows[k]| && q < |rows[k]|
    ensures TextAt(rows, k, q) == TextAt(rows, k, p).(left := LeftOf(rows[k], q), right := RightOf(rows[k], q))
  {
  }

  lemma NothingRight(row: Row, p: nat)
    requires p + 1 == |row|
    ensures RightOf(row, p) == []
  {
  }

  lemma NothingLeft(row: Row)
    requires |row| >= 1
    ensures LeftOf(row, 0) == []
  {
  }

  // The character before the cursor is gone, or the break before its line.
  function Erased(t: Text): Text {
    if t.left != [] then t.(left := t.left[..|t.left| - 1])
    else if t.above == [] then t
    else Text(t.above[..|t.above| - 1], t.above[|t.above| - 1], t.right, t.below)
  }

  // The line is broken at the cursor.
  function Broken(t: Text): Text { Text(t.above + [t.left], [], t.right, t.below) }
}
