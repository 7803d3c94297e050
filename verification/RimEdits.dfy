/** What single edits make of a row (rim.c), and that realigning then is enough. */
module RimEdits {
  import opened RimText
  import opened RimTabs

  // All padding in place, and the cursor not on any.
  ghost predicate AllAligned(rows: seq<Row>) { forall k :: 0 <= k < |rows| ==>
                                                 |rows[k]| >= 1 && Aligned(Body(rows[k]), 0) }

  ghost predicate Tidy(rows: seq<Row>, line: nat, pos: nat) {
    AllAligned(rows) && line < |rows| && OffPadding(Body(rows[line]), pos)
  }

  // A row that is aligned, and off padding at p.
  ghost predicate TidyRow(row: Row, p: nat) {
    RowOk(row) && Aligned(Body(row), 0) && OffPadding(Body(row), p)
  }

  lemma TidyReplace(rows: seq<Row>, k: nat, p: nat, r: Row)
    requires AllAligned(rows) && k < |rows| && TidyRow(r, p)
    ensures Tidy(rows[k := r], k, p)
  {
  }

  // --------------------------------------------------------------------------- typing

  function Typed(row: Row, p: nat, c: Cell): Row
    requires p <= |row|
  {
    row[..p] + [c] + row[p..]
  }

  lemma TypedRow(row: Row, p: nat, c: Cell)
    requires RowOk(row) && p < |row| && c.ch != 0 && !c.nwl && !c.fake
    ensures RowOk(Typed(row, p, c)) && (Closed(row) ==> Closed(Typed(row, p, c))) && |Typed(row, p, c)| == |row| + 1
  {
  }

  lemma TypedBody(row: Row, p: nat, c: Cell)
    requires p < |row|
    ensures Typed(row, p, c) == (Body(row)[..p] + [c]) + Body(row)[p..] + [row[|row| - 1]]
    ensures Typed(row, p, c) == Body(row)[..p] + ([c] + Body(row)[p..]) + [row[|row| - 1]]
    ensures (Body(row)[..p] + [c]) + Body(row)[p..] == Body(row)[..p] + [c] + Body(row)[p..]
    ensures Body(row)[..p] + ([c] + Body(row)[p..]) == Body(row)[..p] + [c] + Body(row)[p..]
  {
  }

  // Any character but a tab: the cursor goes on behind it.
  lemma TypedTidy(row: Row, p: nat, c: Cell)
    requires TidyRow(row, p) && p < |row| && c.ch != 0 && c.ch != TAB && !c.nwl && !c.fake
    ensures TidyRow(Realign(Typed(row, p, c)), p + 1)
  {
    hide Aligned, Strip, Expand, Realign, RowOk, Repairable, Typed;
    var a, b := Body(row)[..p] + [c], Body(row)[p..];
    TypedRow(row, p, c);
    TypedBody(row, p, c);
    AlignedCut(Body(row), p, 0);
    OneAligned(c, p);
    AlignedJoin(Body(row)[..p], [c], 0);
    InsertRepairable(Body(row), p, c);
    AfterEdit(a, b, row[|row| - 1]);
    RealignExact(Typed(row, p, c));
  }

  // A tab: the cursor is still behind the text before it, and the tab is there.
  lemma TabTidy(row: Row, p: nat, c: Cell)
    requires TidyRow(row, p) && p < |row| && c.ch == TAB && !c.nwl && !c.fake
    ensures var r := Realign(Typed(row, p, c));
            TidyRow(r, p) && p < |Body(r)|
  {
    hide Aligned, Strip, Expand, Realign, RowOk, Repairable, Typed;
    var a, b := Body(row)[..p], [c] + Body(row)[p..];
    TypedRow(row, p, c);
    TypedBody(row, p, c);
    AlignedCut(Body(row), p, 0);
    InsertRepairable(Body(row), p, c);
    AfterEdit(a, b, row[|row| - 1]);
    RealignExact(Typed(row, p, c));
    LongerThan(a, c, Body(row)[p..]);
    RealignEither(Typed(row, p, c));
  }

  // Padding never makes a line shorter than the aligned part and one character.
  lemma LongerThan(a: Line, c: Cell, b: Line)
    requires Aligned(a, 0) && !c.fake
    ensures |Expand(Strip(a + ([c] + b)), 0)| > |a|
  {
    hide Strip, Expand, Aligned;
    AlignedLength(a, 0);
    StripJoin(a, [c] + b);
    StripHead(c, b);
    ExpandJoin(Strip(a), [c] + Strip(b), 0);
    ExpandJoin([c], Strip(b), |a|);
    OneLong(c, |a|);
  }

  lemma OneLong(c: Cell, p: nat)
    ensures |Expand([c], p)| >= 1
  {
  }

  // --------------------------------------------------------------------------- deleting

  // The cell at p goes; the one that takes its place counts as edited.
  function Deleted(row: Row, p: nat): Row
    requires p + 1 < |row|
  {
    row[..p] + [row[p + 1].(mark := Edited)] + row[p + 2..]
  }

  lemma DeletedRow(row: Row, p: nat)
    requires RowOk(row) && p + 1 < |row|
    ensures RowOk(Deleted(row, p)) && (Closed(row) ==> Closed(Deleted(row, p))) && |Deleted(row, p)| == |row| - 1
  {
  }

  lemma DeletedShape(row: Row, p: nat)
    requires p + 1 < |row|
    ensures Deleted(row, p) != [] && Body(Deleted(row, p))[..p] == Body(row)[..p]
    ensures SameShape(Body(row)[..p] + Body(row)[p + 1..], Body(Deleted(row, p)))
  {
  }

  lemma DeletedTidy(row: Row, p: nat)
    requires TidyRow(row, p) && p + 1 < |row|
    ensures TidyRow(Realign(Deleted(row, p)), p)
  {
    hide Aligned, Strip, Expand, Realign, RowOk, Repairable, Deleted, SameShape;
    var r := Deleted(row, p);
    DeletedRow(row, p);
    DeletedShape(row, p);
    DeleteRepairable(Body(row), p);
    ShapeRepairable(Body(row)[..p] + Body(row)[p + 1..], Body(r));
    AlignedCut(Body(row), p, 0);
    CutAt(r, p);
    AfterEdit(Body(r)[..p], Body(r)[p..], r[|r| - 1]);
    RealignExact(r);
  }

  lemma CutAt(r: Row, p: nat)
    requires r != [] && p < |r|
    ensures Body(r)[..p] + Body(r)[p..] == Body(r)
    ensures Body(r)[..p] + Body(r)[p..] + [r[|r| - 1]] == r
  {
  }

  // ------------------------------------------------------------------ joining and splitting

  lemma JoinedRow(a: Row, b: Row)
    requires RowOk(a) && RowOk(b)
    ensures |a| >= 1 && |b| >= 1 && RowOk(Body(a) + b) && (Closed(b) ==> Closed(Body(a) + b))
            && Body(Body(a) + b) == Body(a) + Body(b)
  {
  }

  lemma JoinedTidy(a: Row, b: Row)
    requires RowOk(a) && RowOk(b) && Aligned(Body(a), 0) && Aligned(Body(b), 0)
    ensures RowOk(Body(a) + b) && TidyRow(Realign(Body(a) + b), |Body(a)|)
  {
    hide Aligned, Strip, Expand, Realign, RowOk, Repairable;
    JoinedRow(a, b);
    MovedText(Body(a), Body(b), 0);
    assert Body(a) + Body(b) + [b[|b| - 1]] == Body(a)
           + b by { EndOf(b); assert Body(a) + Body(b) + [b[|b| - 1]] == Body(a) + (Body(b) + [b[|b| - 1]]); }
    AfterEdit(Body(a), Body(b), b[|b| - 1]);
    RealignExact(Body(a) + b);
  }

  lemma EndOf(b: Row)
    requires b != []
    ensures b == Body(b) + [b[|b| - 1]]
  {
  }

  const LINE_BREAK := Cell(0, Edited, false, true)

  function Before(row: Row, p: nat): Row
    requires p <= |row|
  {
    row[..p] + [LINE_BREAK]
  }

  lemma SplitTidy(row: Row, p: nat)
    requires TidyRow(row, p) && p < |row|
    ensures TidyRow(Before(row, p), p) && Closed(Before(row, p))
    ensures RowOk(row[p..]) && (Closed(row) ==> Closed(row[p..])) && TidyRow(Realign(row[p..]), 0)
  {
    hide Aligned, Strip, Expand, Realign, Repairable;
    AlignedCut(Body(row), p, 0);
    assert Body(row)[..p] == row[..p] && Body(row[p..]) == Body(row)[p..];
    NoneAligned(0);
    MovedText([], Body(row)[p..], p);
    var b := Body(row)[p..];
    assert [] + b == b;
    EndOf(row[p..]);
    AfterEdit([], b, row[|row| - 1]);
    RealignExact(row[p..]);
  }
}
