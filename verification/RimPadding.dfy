/** Edits wherever the cursor stands (rim.c): the page keys put it on the padding of a tab too. */
module RimPadding {
  import opened RimText
  import opened RimTabs
  import opened RimFile
  import opened RimEdits
  import opened RimView

  // ------------------------------------------------------------------ the text of any edit

  lemma CutText(row: Row, p: nat)
    requires p < |row|
    ensures RowText(row) == LeftOf(row, p) + RightOf(row, p)
  {
    hide SavedCells;
    assert Body(row)[..p] + Body(row)[p..] == Body(row);
    SavedJoin(Body(row)[..p], Body(row)[p..]);
  }

  lemma RealignText(row: Row)
    requires RowOk(row)
    ensures |Realign(row)| >= 1 && RowText(Realign(row)) == RowText(row)
  {
    hide Strip, Expand, SavedCells, Realign;
    RealignExact(row);
    SavedStrip(Body(row));
    SavedStrip(Body(Realign(row)));
  }

  // A typed character stands between the text left and right of the cursor.
  lemma TypedRowText(row: Row, p: nat, c: Cell)
    requires RowOk(row) && p < |row| && c.ch != 0 && !c.nwl && !c.fake
    ensures var r := Realign(Typed(row, p, c));
            r != [] && RowText(r) == LeftOf(row, p) + [c.ch] + RightOf(row, p)
  {
    hide SavedCells, Realign, Typed;
    TypedRow(row, p, c);
    RealignText(Typed(row, p, c));
    TypedBody(row, p, c);
    SavedJoin(Body(row)[..p] + [c], Body(row)[p..]);
    SavedJoin(Body(row)[..p], [c]);
    SavedOne(c);
  }

  // The deleted cell takes its character along, if it is not padding.
  lemma DeletedRowText(row: Row, p: nat)
    requires RowOk(row) && p + 1 < |row|
    ensures var r := Realign(Deleted(row, p));
            r != [] && RowText(r) == LeftOf(row, p) + RightOf(row, p + 1)
    ensures RightOf(row, p) == if row[p].fake then RightOf(row, p + 1) else [row[p].ch] + RightOf(row, p + 1)
  {
    hide SavedCells, Realign, Deleted;
    DeletedRow(row, p);
    RealignText(Deleted(row, p));
    MarkedText(row, p);
    DeletedShape(row, p);
    CutText(Deleted(row, p), p);
    if row[p].fake { OverPadding(row, p, p + 1); } else { RightHead(row, p); }
  }

  lemma SplitRowText(row: Row, p: nat)
    requires RowOk(row) && p < |row|
    ensures RowOk(Before(row, p)) && Closed(Before(row, p))
    ensures RowOk(row[p..]) && (Closed(row) ==> Closed(row[p..]))
    ensures RowText(Before(row, p)) == LeftOf(row, p)
    ensures 0 < |Realign(row[p..])| && RowText(Realign(row[p..])) == RightOf(row, p)
  {
    hide SavedCells, Realign;
    assert Body(Before(row, p)) == row[..p] == Body(row)[..p] && Body(row[p..]) == Body(row)[p..];
    RealignText(row[p..]);
  }

  lemma JoinedRowText(a: Row, b: Row)
    requires RowOk(a) && RowOk(b)
    ensures RowOk(Body(a) + b) && |Realign(Body(a) + b)| >= 1
    ensures RowText(Realign(Body(a) + b)) == RowText(a) + RowText(b)
  {
    hide SavedCells, Realign;
    JoinedRow(a, b);
    RealignText(Body(a) + b);
    SavedJoin(Body(a), Body(b));
  }

  // One row of the text gives way to another.
  lemma ReplacedLines(rows: seq<Row>, k: nat, p: nat, r: Row, left: seq<byte>, right: seq<byte>)
    requires Sized(rows) && k < |rows| && p < |rows[k]| && |r| >= 1 && RowText(r) == left + right
    ensures Sized(rows[k := r])
            && RowTexts(rows[k := r]) == Lines(TextAt(rows, k, p).(left := left, right := right))
  {
    hide SavedCells;
  }

  lemma SameLines(rows: seq<Row>, k: nat, p: nat)
    requires Sized(rows) && k < |rows| && p < |rows[k]|
    ensures RowTexts(rows) == Lines(TextAt(rows, k, p))
  {
    hide SavedCells;
    CutText(rows[k], p);
    assert rows == rows[..k] + [rows[k]] + rows[k + 1..];
  }

  lemma SplitLines(rows: seq<Row>, k: nat, p: nat)
    requires RowsOk(rows) && Sized(rows) && k < |rows| && p < |rows[k]|
    ensures var s := Splice(rows, k, k + 1, [Before(rows[k], p), Realign(rows[k][p..])]);
            var t := TextAt(rows, k, p);
            Sized(s) && k + 1 < |s| && 0 < |s[k + 1]|
            && TextAt(s, k + 1, 0) == Text(t.above + [t.left], [], t.right, t.below)
  {
    hide SavedCells, Realign, Before;
    SplitRowText(rows[k], p);
    BeforeSize(rows[k], p);
    var r := Realign(rows[k][p..]);
    CutText(r, 0);
    NothingLeft(r);
    var s := Splice(rows, k, k + 1, [Before(rows[k], p), r]);
    assert s[..k + 1] == rows[..k] + [Before(rows[k], p)] && s[k + 2..] == rows[k + 1..];
    assert RowTexts(s[..k + 1]) == RowTexts(rows[..k]) + [RowText(Before(rows[k], p))];
  }

  // ------------------------------------------------------------- the cursor stays on its line

  // Up to place p there is no more padding than the text there asks for.
  ghost predicate FullTo(row: Row, p: nat)
    requires |row| >= 1
  {
    p <= |Body(row)| && p <= |Expand(Strip(Body(row)[..p]), 0)|
  }

  // Where the padding at p ends.
  lemma {:induction false} PaddingEnd(line: Line, p: nat, c: nat) returns (e: nat)
    requires Aligned(line, c) && p < |line| && line[p].fake
    ensures p < e <= |line| && (forall i :: p <= i < e ==> line[i].fake) && OffPadding(line, e) && (c + e) % 4 == 0
    decreases line
  {
    hide Aligned, Pad;
    AlignedStep(line, c);
    var n := Step(line, c);
    AlignedOff(line[n..], c + n);
    if p < n {
      StepEnd(line, c);
      e := n;
    } else {
      var d := PaddingEnd(line[n..], p - n, c + n);
      e := n + d;
      assert forall i :: p - n <= i < d ==> line[n..][i] == line[n + i];
      assert forall i :: p <= i < e ==> line[i] == line[n..][i - n];
    }
  }

  lemma StepEnd(line: Line, c: nat)
    requires line != []
    ensures Step(line, c) == 1 || (c + Step(line, c)) % 4 == 0
  {
  }

  // The two sides of the padding's end, and the text on both sides of p.
  lemma PaddingCut(line: Line, p: nat) returns (e: nat)
    requires Aligned(line, 0) && p < |line| && line[p].fake
    ensures p < e <= |line| && e % 4 == 0 && Aligned(line[..e], 0) && Aligned(line[e..], e)
    ensures Strip(line[..e]) == Strip(line[..p]) && Strip(line[p..]) == Strip(line[e..])
    ensures forall i :: p <= i < e ==> line[i].fake
  {
    hide Aligned, Strip;
    e := PaddingEnd(line, p, 0);
    AlignedCut(line, e, 0);
    var pad := line[p..e];
    StripAllFake(pad);
    StripJoin(line[..p], pad);
    StripJoin(pad, line[e..]);
    assert line[..p] + pad == line[..e] && pad + line[e..] == line[p..];
  }

  lemma AlignedFull(row: Row, p: nat)
    requires |row| >= 1 && Aligned(Body(row), 0) && p < |row|
    ensures FullTo(row, p)
  {
    hide Aligned, Strip, Expand;
    var line := Body(row);
    if p < |line| && line[p].fake {
      var e := PaddingCut(line, p);
      AlignedLength(line[..e], 0);
    } else {
      AlignedCut(line, p, 0);
      AlignedLength(line[..p], 0);
    }
  }

  // However far the line shrinks, the part before the cursor is long enough.
  lemma FullRealign(row: Row, p: nat, rest: Line, end: Cell)
    requires |row| >= 1 && FullTo(row, p)
    ensures p < |Realign(Body(row)[..p] + rest + [end])|
    ensures rest != [] && !rest[0].fake ==> p + 1 < |Realign(Body(row)[..p] + rest + [end])|
  {
    hide Strip, Expand;
    var a := Body(row)[..p];
    assert Body(a + rest + [end]) == a + rest;
    StripJoin(a, rest);
    ExpandJoin(Strip(a), Strip(rest), 0);
    if rest != [] && !rest[0].fake {
      StripHead(rest[0], rest[1..]);
      assert [rest[0]] + rest[1..] == rest;
      ExpandJoin([rest[0]], Strip(rest[1..]), |Expand(Strip(a), 0)|);
      OneLong(rest[0], |Expand(Strip(a), 0)|);
    }
  }

  lemma TypedStays(row: Row, p: nat, c: Cell)
    requires |row| >= 1 && p < |row| && FullTo(row, p) && !c.fake
    ensures Typed(row, p, c) != [] && p + 1 < |Realign(Typed(row, p, c))|
  {
    hide Realign, FullTo;
    TypedBody(row, p, c);
    FullRealign(row, p, [c] + Body(row)[p..], row[|row| - 1]);
  }

  lemma DeletedStays(row: Row, p: nat)
    requires p + 1 < |row| && FullTo(row, p)
    ensures Deleted(row, p) != [] && p < |Realign(Deleted(row, p))|
  {
    hide Realign, FullTo;
    var r := Deleted(row, p);
    DeletedShape(row, p);
    CutAt(r, p);
    FullRealign(row, p, Body(r)[p..], r[|r| - 1]);
  }

  lemma JoinedStays(a: Row, b: Row)
    requires |a| >= 1 && |b| >= 1 && FullTo(a, |Body(a)|)
    ensures Body(a) + b != [] && |Body(a)| < |Realign(Body(a) + b)|
  {
    hide Realign, FullTo;
    EndOf(b);
    assert Body(a)[..|Body(a)|] == Body(a) && Body(a) + Body(b) + [b[|b| - 1]] == Body(a) + b;
    FullRealign(a, |Body(a)|, Body(b), b[|b| - 1]);
  }

  // ------------------------------------------------------------- on the padding of a line

  // A tab, no padding.
  predicate RealTab(line: Line) { exists i :: 0 <= i < |line| && line[i].ch == TAB && !line[i].fake }

  // Padding stands where it stands: aligned lines of the same text agree on it.
  lemma {:induction false} SamePlaces(x: Line, y: Line, c: nat)
    requires Aligned(x, c) && Aligned(y, c) && Strip(x) == Strip(y)
    ensures |x| == |y| && forall i :: 0 <= i < |x| ==> x[i].fake == y[i].fake
    decreases x
  {
    hide Aligned, Strip, Pad;
    if x == [] || y == [] {
      NoText(x, c);
      NoText(y, c);
    } else {
      AlignedStep(x, c);
      AlignedStep(y, c);
      StripStep(x, c);
      StripStep(y, c);
      var n := Step(x, c);
      assert Strip(x)[0] == x[0] && Strip(y)[0] == y[0];
      SameTails(x[0], Strip(x[n..]), y[0], Strip(y[n..]));
      SamePlaces(x[n..], y[n..], c + n);
      forall i | 0 <= i < |x| ensures x[i].fake == y[i].fake {
        if i >= n { assert x[i] == x[n..][i - n] && y[i] == y[n..][i - n]; }
      }
    }
  }

  lemma SameTails(x: Cell, a: Line, y: Cell, b: Line)
    requires [x] + a == [y] + b
    ensures x == y && a == b
  {
    assert ([x] + a)[1..] == a && ([y] + b)[1..] == b && ([x] + a)[0] == x;
  }

  lemma NoText(x: Line, c: nat)
    requires Aligned(x, c)
    ensures x == [] <==> Strip(x) == []
  {
  }

  // The part up to the end of the padding, padded anew: the text left of p, and padding from p on.
  lemma PaddedAnew(line: Line, p: nat) returns (e: nat)
    requires Aligned(line, 0) && p < |line| && line[p].fake
    ensures p < e <= |line| && e % 4 == 0 && Aligned(line[..e], 0) && Aligned(line[e..], e)
    ensures Strip(line[p..]) == Strip(line[e..])
    ensures var x := Expand(Strip(line[..p]), 0);
            |x| == e && forall q :: p <= q <= e ==> Strip(x[..q]) == Strip(line[..p])
  {
    hide Aligned, Strip, Expand;
    e := PaddingCut(line, p);
    var text := Strip(line[..p]);
    var x := Expand(text, 0);
    StripText(line[..p]);
    StripExpand(text, 0);
    ExpandAligned(text, 0);
    SamePlaces(x, line[..e], 0);
    forall q | p <= q <= e ensures Strip(x[..q]) == text {
      assert x[..q] + x[q..] == x;
      StripJoin(x[..q], x[q..]);
      StripAllFake(x[q..]);
    }
  }

  // A character typed on padding, its own padding counted: the line keeps its length only when no
  // tab has to move.
  lemma TypedLength(line: Line, p: nat, e: nat, c: Cell)
    requires p < e <= |line| && e % 4 == 0 && Aligned(line[e..], e) && !c.fake
    requires Strip(line[p..]) == Strip(line[e..]) && |Expand(Strip(line[..p]), 0)| == e
    ensures var d := e + |Padded(c, e)|;
            var typed := line[..p] + [c] + line[p..];
            && Expand(Strip(typed), 0)
               == Expand(Strip(line[..p]), 0) + (Padded(c, e) + Expand(Strip(line[e..]), d))
            && |Expand(Strip(typed), 0)| - |typed|
               == |Padded(c, e)| - 1 + |Expand(Strip(line[e..]), d)| - |Expand(Strip(line[e..]), e)|
  {
    hide Aligned, Strip, Expand;
    var a, b, d := line[..p], line[e..], e + |Padded(c, e)|;
    AlignedLength(b, e);
    StripJoin(a + [c], line[p..]);
    StripJoin(a, [c]);
    StripOne(c);
    ExpandJoin(Strip(a) + [c], Strip(b), 0);
    ExpandJoin(Strip(a), [c], 0);
    ExpandOne(c, e);
    assert Expand(Strip(a), 0) + Padded(c, e) + Expand(Strip(b), d)
           == Expand(Strip(a), 0) + (Padded(c, e) + Expand(Strip(b), d));
  }

  lemma {:induction false} TabsText(line: Line)
    ensures NoTab(Strip(line)) <==> !RealTab(line)
    decreases line
  {
    hide Strip, NoTab, RealTab;
    if line == [] {
      NothingToStrip();
    } else {
      TabsText(line[1..]);
      StripFirst(line);
      FirstTabs(line);
      FirstNoTab(line[0], Strip(line[1..]));
    }
  }

  lemma NothingToStrip()
    ensures Strip([]) == [] && NoTab([]) && !RealTab([])
  {
  }

  lemma StripFirst(line: Line)
    requires line != []
    ensures Strip(line) == (if line[0].fake then [] else [line[0]]) + Strip(line[1..])
  {
  }

  lemma FirstTabs(line: Line)
    requires line != []
    ensures RealTab(line) <==> (line[0].ch == TAB && !line[0].fake) || RealTab(line[1..])
  {
    assert forall i :: 0 <= i < |line| - 1 ==> line[1..][i] == line[i + 1];
    if RealTab(line[1..]) {
      var i :| 0 <= i < |line| - 1 && line[1..][i].ch == TAB && !line[1..][i].fake;
      assert line[i + 1].ch == TAB;
    }
    if RealTab(line) {
      var i :| 0 <= i < |line| && line[i].ch == TAB && !line[i].fake;
      if i > 0 { assert line[1..][i - 1].ch == TAB; }
    }
  }

  lemma FirstNoTab(c: Cell, rest: Line)
    ensures NoTab([c] + rest) <==> c.ch != TAB && NoTab(rest)
    ensures [] + rest == rest
  {
    assert forall i :: 0 <= i < |rest| ==> ([c] + rest)[i + 1] == rest[i];
    assert ([c] + rest)[0] == c;
  }

  // Between two columns a multiple of four and one more, a tab tells the difference.
  lemma OneFurther(text: Line, e: nat)
    requires e % 4 == 0
    ensures |Expand(text, e + 1)| == |Expand(text, e)| <==> NoTab(text)
  {
    hide Expand, NoTab;
    if NoTab(text) {
      ExpandNoTab(text, e);
      ExpandNoTab(text, e + 1);
    } else if |Expand(text, e + 1)| == |Expand(text, e)| {
      SameLength(text, e + 1, e);
    }
  }

  // No line aligned up to the middle of its padding.
  lemma CutInPadding(line: Line, p: nat, e: nat)
    requires p < e && p <= |line| && |Expand(Strip(line[..p]), 0)| == e
    ensures !Aligned(line[..p], 0)
  {
    hide Aligned, Strip, Expand;
    if Aligned(line[..p], 0) { AlignedLength(line[..p], 0); }
  }

  // Nothing behind has to move: the cell stays inside the padding.
  lemma TypedMissed(row: Row, p: nat, c: Cell, e: nat)
    requires RowOk(row) && p < e <= |Body(row)| && e % 4 == 0 && Aligned(Body(row)[e..], e)
    requires Strip(Body(row)[p..]) == Strip(Body(row)[e..]) && |Expand(Strip(Body(row)[..p]), 0)| == e
    requires NoTab(Strip(Body(row)[e..])) && c.ch != TAB && !c.fake && RowOk(Typed(row, p, c))
    ensures Realign(Typed(row, p, c)) == Typed(row, p, c) && !Aligned(Body(Typed(row, p, c)), 0)
  {
    hide Aligned, Strip, Expand, NoTab;
    var line := Body(row);
    var typed := line[..p] + [c] + line[p..];
    TypedBody(row, p, c);
    assert Body(Typed(row, p, c)) == typed;
    TypedLength(line, p, e, c);
    OneFurther(Strip(line[e..]), e);
    CutInPadding(line, p, e);
    assert typed[..p] == line[..p] && !typed[p].fake;
    if Aligned(typed, 0) { AlignedCut(typed, p, 0); }
  }

  lemma TypedShort(row: Row, p: nat, c: Cell, e: nat)
    requires RowOk(row) && p < e <= |Body(row)| && e % 4 == 0 && Aligned(Body(row)[e..], e)
    requires Strip(Body(row)[p..]) == Strip(Body(row)[e..]) && |Expand(Strip(Body(row)[..p]), 0)| == e
    requires RealTab(Body(row)[p..]) || c.ch == TAB
    requires !c.fake && RowOk(Typed(row, p, c))
    ensures var r := Realign(Typed(row, p, c));
            && Repairable(Body(Typed(row, p, c)))
            && e < |Body(r)| && Body(r)[..e] == Expand(Strip(Body(row)[..p]), 0) && r[e] == c
  {
    hide Aligned, Strip, Expand, RealTab;
    var line := Body(row);
    TypedBody(row, p, c);
    assert Body(Typed(row, p, c)) == line[..p] + [c] + line[p..];
    TypedLength(line, p, e, c);
    var text, d := Strip(line[e..]), e + |Padded(c, e)|;
    if c.ch == TAB {
      ExpandMod(text, d, e);
    } else {
      TabsText(line[p..]);
      OneFurther(text, e);
    }
    LengthTells(Typed(row, p, c));
    PaddedHead(Expand(Strip(line[..p]), 0), c, e, Expand(text, d));
  }

  lemma PaddedHead(x: Line, c: Cell, e: nat, rest: Line)
    requires |x| == e
    ensures var all := x + (Padded(c, e) + rest);
            e < |all| && all[..e] == x && all[e] == c
  {
  }

  // Without the padding at p the line is a cell short.
  lemma DeletedShort(row: Row, p: nat, e: nat)
    requires RowOk(row) && p < e <= |Body(row)| && e % 4 == 0 && Aligned(Body(row)[e..], e) && row[p].fake
    requires Strip(Body(row)[p..]) == Strip(Body(row)[e..]) && |Expand(Strip(Body(row)[..p]), 0)| == e
    requires RowOk(Deleted(row, p))
    ensures var r := Realign(Deleted(row, p));
            && Repairable(Body(Deleted(row, p)))
            && |r| == |row| && e <= |Body(r)| && Body(r)[..e] == Expand(Strip(Body(row)[..p]), 0)
  {
    hide Aligned, Strip, Expand, SameShape;
    var line, d := Body(row), Body(Deleted(row, p));
    DeletedShape(row, p);
    ShapeBehind(line, p, d);
    StripFirst(line[p..]);
    assert line[p..][1..] == line[p + 1..] && [] + Strip(line[p + 1..]) == Strip(line[p + 1..]);
    ShapeStrip(line[p + 1..], d[p..]);
    ShapeExpand(Strip(line[p + 1..]), Strip(d[p..]), e);
    AlignedLength(line[e..], e);
    assert d == d[..p] + d[p..];
    StripJoin(d[..p], d[p..]);
    ExpandJoin(Strip(d[..p]), Strip(d[p..]), 0);
    DeletedSize(row, p);
    LengthTells(Deleted(row, p));
  }

  lemma ShapeBehind(line: Line, p: nat, d: Line)
    requires p < |line| && SameShape(line[..p] + line[p + 1..], d)
    ensures SameShape(line[p + 1..], d[p..])
  {
    assert (line[..p] + line[p + 1..])[p..] == line[p + 1..];
  }

  lemma DeletedSize(row: Row, p: nat)
    requires p + 1 < |row|
    ensures |Deleted(row, p)| == |row| - 1
  {
  }

  // A line of the wrong length has a tab.
  lemma LengthTells(row: Row)
    requires RowOk(row) && |Expand(Strip(Body(row)), 0)| != |Body(row)|
    ensures Realign(row) == Expand(Strip(Body(row)), 0) + [Cell(0, Edited, false, true)]
    ensures Repairable(Body(row))
  {
    hide Strip, Expand;
    if !HasTab(Body(row)) {
      AllText(Body(row));
      ExpandNoTab(Body(row), 0);
    }
  }

  // The row's text left of q is the text left of p, so the rest is what follows.
  lemma RestOfText(row: Row, q: nat, left: seq<byte>, right: seq<byte>)
    requires q < |row| && LeftOf(row, q) == left && RowText(row) == left + right
    ensures RightOf(row, q) == right
  {
    CutText(row, q);
    assert (left + RightOf(row, q))[|left|..] == RightOf(row, q) && (left + right)[|left|..] == right;
  }

  // In the padding of a line padded anew, the text to the left is the old one.
  lemma LeftAnew(row: Row, r: Row, p: nat, q: nat, e: nat)
    requires p < |row| && |r| >= 1 && p <= q <= e <= |Body(r)|
    requires var x := Expand(Strip(Body(row)[..p]), 0);
             |x| == e && Body(r)[..e] == x && Strip(x[..q]) == Strip(Body(row)[..p])
    ensures LeftOf(r, q) == LeftOf(row, p)
  {
    hide Strip, Expand, SavedCells;
    assert Body(r)[..q] == Body(r)[..e][..q];
    SavedStrip(Body(r)[..q]);
    SavedStrip(Body(row)[..p]);
  }

  // A character that is no tab, typed on padding: nothing is realigned unless a tab follows, and the
  // line is aligned afterwards exactly then.
  lemma TypedOnPadding(row: Row, p: nat, c: Cell)
    requires RowOk(row) && Aligned(Body(row), 0) && p < |Body(row)| && row[p].fake
    requires c.ch != 0 && c.ch != TAB && !c.nwl && !c.fake
    ensures var typed := Typed(row, p, c);
            var r := Realign(typed);
            && typed != [] && p + 1 < |r| && (Aligned(Body(r), 0) <==> RealTab(Body(row)[p..]))
            && (RealTab(Body(row)[p..]) ==>
                  LeftOf(r, p + 1) == LeftOf(row, p) && RightOf(r, p + 1) == [c.ch] + RightOf(row, p))
            && (!RealTab(Body(row)[p..]) ==>
                  r == typed && LeftOf(r, p + 1) == LeftOf(row, p) + [c.ch] && RightOf(r, p + 1) == RightOf(row, p))
  {
    hide Aligned, Strip, Expand, Realign, SavedCells, RealTab, Typed, NoTab, Repairable;
    TypedRow(row, p, c);
    RealignExact(Typed(row, p, c));
    var e := PaddedAnew(Body(row), p);
    TypedRowText(row, p, c);
    var r := Realign(Typed(row, p, c));
    if RealTab(Body(row)[p..]) {
      TypedShort(row, p, c, e);
      LeftAnew(row, r, p, p + 1, e);
      assert LeftOf(row, p) + [c.ch] + RightOf(row, p) == LeftOf(row, p) + ([c.ch] + RightOf(row, p));
      RestOfText(r, p + 1, LeftOf(row, p), [c.ch] + RightOf(row, p));
    } else {
      TabsText(Body(row)[p..]);
      TypedMissed(row, p, c, e);
      TypedHalves(row, p, c);
    }
  }

  lemma TypedHalves(row: Row, p: nat, c: Cell)
    requires p < |row| && c.ch != 0 && !c.nwl && !c.fake
    ensures |Typed(row, p, c)| == |row| + 1
    ensures LeftOf(Typed(row, p, c), p + 1) == LeftOf(row, p) + [c.ch]
    ensures RightOf(Typed(row, p, c), p + 1) == RightOf(row, p)
  {
    hide SavedCells;
    var line, typed := Body(row), Body(Typed(row, p, c));
    assert typed[..p + 1] == line[..p] + [c] && typed[p + 1..] == line[p..];
    SavedJoin(line[..p], [c]);
    SavedOne(c);
  }

  // A tab typed on padding goes behind it.
  lemma TabOnPadding(row: Row, p: nat, c: Cell)
    requires RowOk(row) && Aligned(Body(row), 0) && p < |Body(row)| && row[p].fake
    requires c.ch == TAB && !c.nwl && !c.fake
    ensures var typed := Typed(row, p, c);
            var r := Realign(typed);
            && typed != [] && p + 1 < |r| && Aligned(Body(r), 0)
            && LeftOf(r, p + 1) == LeftOf(row, p) && RightOf(r, p + 1) == [TAB] + RightOf(row, p)
  {
    hide Aligned, Strip, Expand, Realign, SavedCells, RealTab, Typed, Repairable;
    TypedRow(row, p, c);
    RealignExact(Typed(row, p, c));
    var e := PaddedAnew(Body(row), p);
    TypedRowText(row, p, c);
    var r := Realign(Typed(row, p, c));
    TypedShort(row, p, c, e);
    LeftAnew(row, r, p, p + 1, e);
    assert LeftOf(row, p) + [TAB] + RightOf(row, p) == LeftOf(row, p) + ([TAB] + RightOf(row, p));
    RestOfText(r, p + 1, LeftOf(row, p), [TAB] + RightOf(row, p));
  }

  // Padding that is deleted comes back.
  lemma DeletedPadding(row: Row, p: nat)
    requires RowOk(row) && Aligned(Body(row), 0) && p < |Body(row)| && row[p].fake
    ensures var r := Realign(Deleted(row, p));
            && r != [] && p < |r| && Aligned(Body(r), 0) && |r| == |row|
            && LeftOf(r, p) == LeftOf(row, p) && RightOf(r, p) == RightOf(row, p)
  {
    hide Aligned, Strip, Expand, Realign, SavedCells, Deleted, Repairable;
    DeletedRow(row, p);
    RealignExact(Deleted(row, p));
    var e := PaddedAnew(Body(row), p);
    DeletedRowText(row, p);
    DeletedShort(row, p, e);
    LeftAnew(row, Realign(Deleted(row, p)), p, p, e);
    RestOfText(Realign(Deleted(row, p)), p, LeftOf(row, p), RightOf(row, p));
  }

  // The second half of a line broken on padding starts with the rest of it, which goes.
  lemma BrokenOnPadding(row: Row, p: nat)
    requires RowOk(row) && Aligned(Body(row), 0) && p < |Body(row)| && row[p].fake
    ensures !Aligned(Body(Before(row, p)), 0) && Aligned(Body(Realign(row[p..])), 0)
  {
    hide Aligned, Strip, Expand, Realign;
    var line := Body(row);
    var e := PaddedAnew(line, p);
    assert Body(Before(row, p)) == line[..p] && Body(row[p..]) == line[p..];
    CutInPadding(line, p, e);
    SplitRowText(row, p);
    RealignExact(row[p..]);
    ExpandMod(Strip(line[e..]), 0, e);
    AlignedLength(line[e..], e);
  }

  // ------------------------------------------------------------------ edits of aligned rows

  // A character typed at p lands behind the padding there, for the tabs that follow have to move.
  ghost predicate Jumps(row: Row, p: nat)
    requires p < |row|
  {
    row[p].fake && RealTab(Body(row)[p..])
  }

  // The character typed goes to the left of the cursor or to its right.
  function Keyed(t: Text, ch: byte, right: bool): Text {
    if right then t.(right := [ch] + t.right) else t.(left := t.left + [ch])
  }

  // The character right of the cursor is gone, unless there is only padding.
  function Cut(t: Text, padding: bool): Text {
    if padding || t.right == [] then t else t.(right := t.right[1..])
  }

  lemma RowSizes(rows: seq<Row>)
    requires RowsOk(rows)
    ensures Sized(rows)
  {
  }

  lemma RowOf(rows: seq<Row>, k: nat, p: nat)
    requires RowsOk(rows) && AllAligned(rows) && k < |rows| && p < |rows[k]|
    ensures Sized(rows) && RowOk(rows[k]) && Aligned(Body(rows[k]), 0)
    ensures if rows[k][p].fake then p < |Body(rows[k])| else TidyRow(rows[k], p) && Tidy(rows, k, p)
  {
    hide Aligned;
  }

  lemma AlignedReplace(rows: seq<Row>, k: nat, r: Row)
    requires AllAligned(rows) && k < |rows| && |r| >= 1
    ensures AllAligned(rows[k := r]) <==> Aligned(Body(r), 0)
  {
    hide Aligned;
    assert rows[k := r][k] == r;
  }

  lemma TypedOutcome(rows: seq<Row>, k: nat, p: nat, c: Cell)
    requires RowsOk(rows) && AllAligned(rows) && k < |rows| && p < |rows[k]|
    requires c.ch != 0 && c.ch != TAB && !c.nwl && !c.fake
    ensures Sized(rows) && Typed(rows[k], p, c) != []
    ensures var s := rows[k := Realign(Typed(rows[k], p, c))];
            && Sized(s) && p + 1 < |s[k]|
            && TextAt(s, k, p + 1) == Keyed(TextAt(rows, k, p), c.ch, Jumps(rows[k], p))
            && (AllAligned(s) <==> !rows[k][p].fake || Jumps(rows[k], p)) && (!rows[k][p].fake ==> Tidy(s, k, p + 1))
  {
    hide Realign, Typed, Aligned, OffPadding, SavedCells, TextAt, RealTab, LeftOf, RightOf, RowOk;
    var row := rows[k];
    RowOf(rows, k, p);
    if row[p].fake { TypedOnPadding(row, p, c); } else {
      TypedText(row, p, c);
      TypedTidy(row, p, c);
      TidyReplace(rows, k, p + 1, Realign(Typed(row, p, c)));
    }
    AlignedReplace(rows, k, Realign(Typed(row, p, c)));
    ReplacedText(rows, k, Realign(Typed(row, p, c)), p + 1, p);
    TextHalves(rows, k, p);
  }

  // The cursor moves on over padding to place q.
  lemma TabOutcome(rows: seq<Row>, k: nat, p: nat, c: Cell, q: nat)
    requires RowsOk(rows) && AllAligned(rows) && k < |rows| && p < |rows[k]|
    requires c.ch == TAB && !c.nwl && !c.fake && Typed(rows[k], p, c) != []
    requires var r := Realign(Typed(rows[k], p, c));
             p + 1 <= q < |r| && !r[q].fake && forall i :: p + 1 <= i < q ==> r[i].fake
    ensures Sized(rows)
    ensures var s := rows[k := Realign(Typed(rows[k], p, c))];
            Tidy(s, k, q) && Sized(s) && TextAt(s, k, q) == Keyed(TextAt(rows, k, p), TAB, rows[k][p].fake)
  {
    hide Realign, Typed, Aligned, SavedCells, TextAt, LeftOf, RightOf, RowOk;
    var row := rows[k];
    var r := Realign(Typed(row, p, c));
    RowOf(rows, k, p);
    if row[p].fake { TabOnPadding(row, p, c); } else {
      TabText(row, p, c);
      TabTidy(row, p, c);
    }
    AlignedReplace(rows, k, r);
    OverPadding(r, p + 1, q);
    ReplacedText(rows, k, r, q, p);
    TextHalves(rows, k, p);
  }

  lemma DeletedOutcome(rows: seq<Row>, k: nat, p: nat)
    requires RowsOk(rows) && AllAligned(rows) && k < |rows| && p + 1 < |rows[k]|
    ensures Sized(rows) && Deleted(rows[k], p) != []
    ensures var s := rows[k := Realign(Deleted(rows[k], p))];
            var t := TextAt(rows, k, p);
            && Sized(s) && p < |s[k]| && AllAligned(s) && (!rows[k][p].fake ==> t.right != [] && Tidy(s, k, p))
            && TextAt(s, k, p) == if rows[k][p].fake then t else t.(right := t.right[1..])
  {
    hide Realign, Deleted, Aligned, OffPadding, SavedCells, TextAt, LeftOf, RightOf, RowOk;
    var row := rows[k];
    RowOf(rows, k, p);
    DeletedSize(row, p);
    if row[p].fake { DeletedPadding(row, p); } else {
      DeletedText(row, p);
      DeletedTidy(row, p);
      TidyReplace(rows, k, p, Realign(Deleted(row, p)));
    }
    AlignedReplace(rows, k, Realign(Deleted(row, p)));
    ReplacedText(rows, k, Realign(Deleted(row, p)), p, p);
    TextHalves(rows, k, p);
  }

  // The first half of a line broken on padding is left misaligned.
  lemma BrokenOutcome(rows: seq<Row>, k: nat, p: nat)
    requires RowsOk(rows) && AllAligned(rows) && k < |rows| && p < |rows[k]|
    ensures |Before(rows[k], p)| >= 1 && Aligned(Body(Realign(rows[k][p..])), 0)
    ensures var s := Splice(rows, k, k + 1, [Before(rows[k], p), Realign(rows[k][p..])]);
            && (AllAligned(s) <==> !rows[k][p].fake) && (AllAligned(s) ==> Tidy(s, k + 1, 0))
  {
    hide Realign, Aligned, Before, RowOk;
    var row := rows[k];
    RowOf(rows, k, p);
    BeforeSize(row, p);
    SplitRowText(row, p);
    if row[p].fake { BrokenOnPadding(row, p); } else { SplitTidy(row, p); }
    SpliceAligned(rows, k, Before(row, p), Realign(row[p..]));
  }

  lemma SpliceAligned(rows: seq<Row>, k: nat, a: Row, b: Row)
    requires AllAligned(rows) && k < |rows| && |a| >= 1 && |b| >= 1 && Aligned(Body(b), 0)
    ensures var s := Splice(rows, k, k + 1, [a, b]);
            && (AllAligned(s) <==> Aligned(Body(a), 0)) && (AllAligned(s) ==> Tidy(s, k + 1, 0))
  {
    hide Aligned;
    var s := Splice(rows, k, k + 1, [a, b]);
    assert s[k] == a && s[k + 1] == b;
    AlignedOff(Body(b), 0);
    if Aligned(Body(a), 0) {
      forall i | 0 <= i < |s| ensures |s[i]| >= 1 && Aligned(Body(s[i]), 0) {
        if i < k { assert s[i] == rows[i]; } else if i > k + 1 { assert s[i] == rows[i - 1]; }
      }
    }
  }

  // The last text before the cursor.
  ghost predicate LastText(row: Row, p: nat, q: nat) {
    q < p < |row| && (q == 0 || !row[q].fake) && forall i :: q < i < p ==> row[i].fake
  }

  lemma FirstOff(row: Row)
    requires |row| >= 1 && Aligned(Body(row), 0)
    ensures |row| > 1 ==> !row[0].fake
  {
  }

  lemma JoinTidyRows(was: seq<Row>, k: nat)
    requires AllAligned(was) && k + 1 < |was| && |Body(was[k]) + was[k + 1]| >= 1
    requires TidyRow(Realign(Body(was[k]) + was[k + 1]), |Body(was[k])|)
    ensures Tidy(Splice(was, k, k + 2, [Realign(Body(was[k]) + was[k + 1])]), k, |Body(was[k])|)
  {
    hide Aligned, Realign;
  }

  lemma JoinedLines(rows: seq<Row>, k: nat, r: Row)
    requires Sized(rows) && k + 1 < |rows| && |r| >= 1 && RowText(r) == RowText(rows[k]) + RowText(rows[k + 1])
    ensures Sized(Splice(rows, k, k + 2, [r]))
    ensures RowTexts(Splice(rows, k, k + 2, [r])) == Lines(Erased(TextAt(rows, k + 1, 0)))
  {
    hide SavedCells;
    CutText(rows[k + 1], 0);
    NothingLeft(rows[k + 1]);
    assert Splice(rows, k, k + 2, [r]) == rows[..k] + [r] + rows[k + 2..];
    assert RowTexts(rows[..k + 1])[..k] == RowTexts(rows[..k]);
  }

  // Two lines joined, the cursor between them.
  lemma JoinedOutcome(rows: seq<Row>, k: nat)
    requires RowsOk(rows) && k + 1 < |rows|
    ensures Sized(rows) && Body(rows[k]) + rows[k + 1] != []
    ensures var r := Realign(Body(rows[k]) + rows[k + 1]);
            var s := Splice(rows, k, k + 2, [r]);
            var t, p := Erased(TextAt(rows, k + 1, 0)), |Body(rows[k])|;
            && Sized(s) && k < |s| && RowTexts(s) == Lines(t) && (FullTo(rows[k], p) ==> p < |r|)
            && (AllAligned(rows) ==> Tidy(s, k, p) && p < |s[k]| && TextAt(s, k, p) == t)
  {
    hide Realign, Aligned, OffPadding, SavedCells, TextAt, LeftOf, RightOf, RowText, RowTexts, Lines, FullTo;
    RowSizes(rows);
    var r := Realign(Body(rows[k]) + rows[k + 1]);
    JoinedRowText(rows[k], rows[k + 1]);
    JoinedLines(rows, k, r);
    if FullTo(rows[k], |Body(rows[k])|) { JoinedStays(rows[k], rows[k + 1]); }
    if AllAligned(rows) {
      JoinedTidy(rows[k], rows[k + 1]);
      JoinedText(rows[k], rows[k + 1]);
      JoinRowsText(rows, k, r, |Body(rows[k])|);
      JoinTidyRows(rows, k);
    }
  }

  // From p back over padding to q: only where the whole line before p is padding is there no text.
  lemma SteppedBack(rows: seq<Row>, k: nat, p: nat, q: nat)
    requires RowsOk(rows) && k < |rows| && LastText(rows[k], p, q)
    ensures Sized(rows)
    ensures var t, u := TextAt(rows, k, p), TextAt(rows, k, q);
            && Lines(Cut(u, rows[k][q].fake)) == Lines(if t.left == [] then t else Erased(t))
            && (AllAligned(rows) ==> !rows[k][q].fake && Cut(u, false) == Erased(t))
  {
    hide Aligned, SavedCells, LeftOf, RightOf, RowTexts, OffPadding;
    RowSizes(rows);
    var row := rows[k];
    OverPadding(row, q + 1, p);
    if row[q].fake { OverPadding(row, q, p); } else { RightHead(row, q); }
    NothingLeft(row);
    TextHalves(rows, k, p);
    TextHalves(rows, k, q);
    if AllAligned(rows) { FirstOff(row); }
  }

  lemma NothingBefore(rows: seq<Row>)
    requires RowsOk(rows)
    ensures Sized(rows) && Erased(TextAt(rows, 0, 0)) == TextAt(rows, 0, 0)
    ensures AllAligned(rows) ==> Tidy(rows, 0, 0)
  {
    hide Aligned;
    NothingLeft(rows[0]);
    if AllAligned(rows) { AlignedOff(Body(rows[0]), 0); }
  }

  // Lines with more padding than text: two tabs, broken on the padding of the second, keep the padding
  // of the first when a character typed before them makes up for it. Broken behind that, the line is
  // realigned by the next character typed at its end, and the cursor is behind its last cell.
  lemma CursorLeaves()
    ensures var tab, x := Read(TAB), Cell(120, Edited, false, false);
            var loaded := Padded(tab, 0) + Padded(tab, 4) + [END];
            var half := Realign(Typed(Before(loaded, 7), 0, x));
            && half == [x] + Padded(tab, 0) + Padded(tab, 4)[..3] + [LINE_BREAK]
            && |Realign(Typed(Before(half, 5), 5, x))| == 6
  {
    hide Strip, Expand;
    var tab, x := Read(TAB), Cell(120, Edited, false, false);
    var loaded := Padded(tab, 0) + Padded(tab, 4) + [END];
    var start := Typed(Before(loaded, 7), 0, x);
    assert start == [x] + (Padded(tab, 0) + ([tab] + Padded(tab, 4)[1..3])) + [LINE_BREAK];
    StripThree(x, Padded(tab, 0), [tab] + Padded(tab, 4)[1..3], tab, tab);
    ThreeLong(x, tab, tab);
    assert Body(start) == [x] + (Padded(tab, 0) + ([tab] + Padded(tab, 4)[1..3]));
    assert Realign(start) == start;
    var end := Typed(Before(start, 5), 5, x);
    assert end == [x] + (Padded(tab, 0) + [x]) + [LINE_BREAK];
    assert Body(end) == [x] + (Padded(tab, 0) + [x]);
    StripThree(x, Padded(tab, 0), [x], tab, x);
    ThreeLong(x, tab, x);
    assert Body(end)[1] == tab;
  }

  lemma StripThree(x: Cell, a: Line, b: Line, y: Cell, z: Cell)
    requires !x.fake && a != [] && b != [] && a[0] == y && b[0] == z && !y.fake && !z.fake
    requires (forall i :: 1 <= i < |a| ==> a[i].fake) && forall i :: 1 <= i < |b| ==> b[i].fake
    ensures Strip([x] + (a + b)) == [x, y, z]
  {
    hide Strip;
    StripHead(x, a + b);
    StripJoin(a, b);
    StripHead(y, a[1..]);
    StripHead(z, b[1..]);
    StripAllFake(a[1..]);
    StripAllFake(b[1..]);
    assert [y] + a[1..] == a && [z] + b[1..] == b;
  }

  lemma ThreeLong(x: Cell, y: Cell, z: Cell)
    requires x.ch != TAB && y.ch == TAB
    ensures |Expand([x, y, z], 0)| == if z.ch == TAB then 8 else 5
  {
    hide Expand;
    ExpandJoin([x], [y, z], 0);
    ExpandJoin([y], [z], 1);
    ExpandOne(x, 0);
    ExpandOne(y, 1);
    ExpandOne(z, 4);
    assert [x] + [y, z] == [x, y, z] && [y] + [z] == [y, z];
  }
}
