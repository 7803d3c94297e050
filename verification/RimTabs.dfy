/** Tabs of the editor (rim.c): each is followed by fake tabs up to the next multiple of four, and
    reallign_tabs restores that after an edit. */
module RimTabs {
  import opened RimText

  type Line = seq<Cell>   // a row without its closing cell

  function Fake(mark: Mark): Cell { Cell(TAB, mark, true, false) }

  function Fakes(mark: Mark, n: nat): Line { seq(n, _ => Fake(mark)) }

  // Fake tabs that follow a tab in column col.
  function Pad(col: nat): (n: nat)
    ensures n <= 3 && (col + 1 + n) % 4 == 0
  {
    3 - col % 4
  }

  // The text without its padding.
  function Strip(line: Line): (r: Line)
    ensures |r| <= |line| && forall i :: 0 <= i < |r| ==> !r[i].fake
  {
    if line == [] then [] else (if line[0].fake then [] else [line[0]]) + Strip(line[1..])
  }

  // One character with the padding it asks for in column col.
  function Padded(c: Cell, col: nat): (r: Line)
    ensures |r| == 1 + if c.ch == TAB then Pad(col) else 0
    ensures r[0] == c && forall i :: 1 <= i < |r| ==> r[i] == Fake(c.mark)
  {
    if c.ch == TAB then [c] + Fakes(c.mark, Pad(col)) else [c]
  }

  // The text padded from column col on.
  function Expand(text: Line, col: nat): (r: Line)
    decreases text
  {
    if text == [] then [] else Padded(text[0], col) + Expand(text[1..], col + |Padded(text[0], col)|)
  }

  // Every tab of the line is followed by exactly its padding, and nothing else is padding.
  ghost predicate Aligned(line: Line, col: nat)
    decreases line
  {
    line == []
    || (!line[0].fake
        && if line[0].ch == TAB then
             var n := Pad(col);
             |line| >= 1 + n && (forall i :: 1 <= i <= n ==> line[i].fake) && Aligned(line[1 + n..], col + 1 + n)
           else Aligned(line[1..], col + 1))
  }

  ghost predicate NoTab(text: Line) { forall i :: 0 <= i < |text| ==> text[i].ch != TAB }

  // ------------------------------------------------------------------ text and padding

  lemma {:induction false} StripJoin(a: Line, b: Line)
    ensures Strip(a + b) == Strip(a) + Strip(b)
  {
    if a == [] {
      assert a + b == b;
    } else {
      assert (a + b)[1..] == a[1..] + b;
      StripJoin(a[1..], b);
    }
  }

  lemma {:induction false} StripFakes(mark: Mark, n: nat)
    ensures Strip(Fakes(mark, n)) == []
  {
    if n == 0 {
    } else {
      assert Fakes(mark, n)[1..] == Fakes(mark, n - 1);
      StripFakes(mark, n - 1);
    }
  }

  lemma {:induction false} StripAllFake(line: Line)
    requires forall i :: 0 <= i < |line| ==> line[i].fake
    ensures Strip(line) == []
  {
    if line == [] {
    } else {
      StripAllFake(line[1..]);
    }
  }

  lemma StripPadded(c: Cell, col: nat)
    requires !c.fake
    ensures Strip(Padded(c, col)) == [c]
  {
    StripAllFake(Padded(c, col)[1..]);
  }

  // Padding adds no text.
  lemma {:induction false} StripExpand(text: Line, col: nat)
    requires forall i :: 0 <= i < |text| ==> !text[i].fake
    ensures Strip(Expand(text, col)) == text
    decreases text
  {
    hide Strip, Padded;
    if text == [] {
    } else {
      var next := col + |Padded(text[0], col)|;
      StripExpand(text[1..], next);
      StripPadded(text[0], col);
      StripJoin(Padded(text[0], col), Expand(text[1..], next));
    }
  }

  lemma StripHead(c: Cell, rest: Line)
    requires !c.fake
    ensures Strip([c] + rest) == [c] + Strip(rest)
  {
  }

  lemma {:induction false} ExpandAligned(text: Line, col: nat)
    requires forall i :: 0 <= i < |text| ==> !text[i].fake
    ensures Aligned(Expand(text, col), col)
    decreases text
  {
    if text == [] {
    } else {
      var next := col + |Padded(text[0], col)|;
      ExpandAligned(text[1..], next);
      assert Expand(text, col)[next - col..] == Expand(text[1..], next);
    }
  }

  // An aligned line has the length of its padded text ...
  lemma {:induction false} AlignedLength(line: Line, col: nat)
    requires Aligned(line, col)
    ensures |Expand(Strip(line), col)| == |line|
    decreases line
  {
    hide Strip, Aligned, HeadOk, Pad, Padded;
    if line == [] {
    } else {
      AlignedStep(line, col);
      StripStep(line, col);
      var n := Step(line, col);
      AlignedLength(line[n..], col + n);
    }
  }

  lemma StripStep(line: Line, col: nat)
    requires line != [] && HeadOk(line, col)
    ensures Step(line, col) <= |line| && Strip(line) == [line[0]] + Strip(line[Step(line, col)..])
  {
    hide Strip;
    StripHeadOf(line, Step(line, col));
  }

  lemma StripHeadOf(line: Line, n: nat)
    requires 1 <= n <= |line| && !line[0].fake && forall i :: 1 <= i < n ==> line[i].fake
    ensures Strip(line) == [line[0]] + Strip(line[n..])
  {
    hide Strip;
    HeadSlices(line, n);
    StripHead(line[0], line[1..]);
    StripAllFake(line[1..n]);
    StripJoin(line[1..n], line[n..]);
    assert [] + Strip(line[n..]) == Strip(line[n..]);
  }

  lemma HeadSlices(line: Line, n: nat)
    requires 1 <= n <= |line|
    ensures line == [line[0]] + line[1..] && line[1..] == line[1..n] + line[n..]
  {
  }

  // A character and its padding.
  function Step(line: Line, c: nat): nat
    requires line != []
  {
    if line[0].ch == TAB then 1 + Pad(c) else 1
  }

  ghost predicate HeadOk(line: Line, c: nat)
    requires line != []
  {
    !line[0].fake && |line| >= Step(line, c) && forall i :: 1 <= i < Step(line, c) ==> line[i].fake
  }

  lemma AlignedStep(line: Line, c: nat)
    requires line != []
    ensures 1 <= Step(line, c) <= 4
    ensures Aligned(line, c) <==> HeadOk(line, c) && Aligned(line[Step(line, c)..], c + Step(line, c))
  {
  }

  // ... and without tabs it has no padding.
  lemma {:induction false} AlignedNoTab(line: Line, col: nat, to: nat)
    requires Aligned(line, col) && NoTab(Strip(line))
    ensures Aligned(line, to)
    decreases line
  {
    if line == [] {
    } else {
      assert Strip(line)[0] == line[0];
      assert forall i :: 0 <= i < |Strip(line[1..])| ==> Strip(line)[i + 1] == Strip(line[1..])[i];
      AlignedNoTab(line[1..], col + 1, to + 1);
    }
  }

  // ---------------------------------------------------------------- moving text sideways

  // Padding depends on the column modulo four.
  lemma {:induction false} ExpandMod(text: Line, c: nat, d: nat)
    requires c % 4 == d % 4
    ensures Expand(text, c) == Expand(text, d)
    decreases text
  {
    hide Padded;
    if text == [] {
    } else {
      PaddedMod(text[0], c, d);
      ExpandMod(text[1..], c + |Padded(text[0], c)|, d + |Padded(text[0], d)|);
    }
  }

  lemma PaddedMod(cell: Cell, c: nat, d: nat)
    requires c % 4 == d % 4
    ensures Padded(cell, c) == Padded(cell, d) && (c + |Padded(cell, c)|) % 4 == (d + |Padded(cell, d)|) % 4
  {
  }

  lemma {:induction false} ExpandNoTab(text: Line, c: nat)
    requires NoTab(text)
    ensures Expand(text, c) == text
    decreases text
  {
    if text == [] {
    } else {
      ExpandNoTab(text[1..], c + 1);
    }
  }

  // The first tab, and how its padding changes with the column.
  function FirstTab(text: Line): (t: nat)
    ensures t <= |text| && (t < |text| ==> text[t].ch == TAB) && forall i :: 0 <= i < t ==> text[i].ch != TAB
  {
    if text == [] || text[0].ch == TAB then 0 else 1 + FirstTab(text[1..])
  }

  lemma {:induction false} LengthMoves(text: Line, c: nat, d: nat)
    requires !NoTab(text)
    ensures |Expand(text, c)| - |Expand(text, d)| == Pad(c + FirstTab(text)) - Pad(d + FirstTab(text))
    decreases text
  {
    hide Pad;
    if text[0].ch == TAB {
      ExpandMod(text[1..], c + 1 + Pad(c), d + 1 + Pad(d));
    } else {
      LengthMoves(text[1..], c + 1, d + 1);
    }
  }

  lemma PadOf(c: nat, t: nat)
    ensures Pad(c + t) == 3 - (c % 4 + t % 4) % 4
  {
  }

  // The padded length tells two columns apart, unless they pad alike.
  lemma SameLength(text: Line, c: nat, d: nat)
    requires |Expand(text, c)| == |Expand(text, d)|
    ensures c % 4 == d % 4 || NoTab(text)
  {
    hide Pad, Expand;
    if !NoTab(text) {
      LengthMoves(text, c, d);
      PadOf(c, FirstTab(text));
      PadOf(d, FirstTab(text));
      Residues(c % 4, d % 4, FirstTab(text) % 4);
    }
  }

  lemma Residues(a: nat, b: nat, t: nat)
    requires a < 4 && b < 4 && t < 4
    ensures (a + t) % 4 == (b + t) % 4 ==> a == b
    ensures t - (a + t) % 4 != 3 - a
  {
  }

  lemma {:induction false} AlignedMod(line: Line, c: nat, d: nat)
    requires Aligned(line, c) && c % 4 == d % 4
    ensures Aligned(line, d)
    decreases line
  {
    hide Aligned;
    if line == [] {
      NoneAligned(d);
    } else {
      AlignedStep(line, c);
      AlignedStep(line, d);
      var n := Step(line, c);
      AlignedMod(line[n..], c + n, d + n);
    }
  }

  // A line moved to another column is still aligned if it still has the right length.
  lemma AlignedMoves(line: Line, c: nat, d: nat)
    requires Aligned(line, c) && |Expand(Strip(line), d)| == |line|
    ensures Aligned(line, d)
  {
    AlignedLength(line, c);
    SameLength(Strip(line), c, d);
    if NoTab(Strip(line)) { AlignedNoTab(line, c, d); } else { AlignedMod(line, c, d); }
  }

  lemma NoneAligned(c: nat)
    ensures Aligned([], c)
  {
  }

  lemma HeadKept(line: Line, a: Line, c: nat)
    requires line != [] && a != [] && HeadOk(line, c)
    requires |a| >= Step(line, c) && forall i :: 0 <= i < Step(line, c) ==> a[i] == line[i]
    ensures HeadOk(a, c) && Step(a, c) == Step(line, c)
  {
  }

  lemma {:induction false} AlignedJoin(a: Line, b: Line, c: nat)
    requires Aligned(a, c) && Aligned(b, c + |a|)
    ensures Aligned(a + b, c)
    decreases a
  {
    hide Aligned, HeadOk, Pad;
    if a == [] {
      assert a + b == b;
    } else {
      AlignedStep(a, c);
      StepInside(a, c);
      var n := Step(a, c);
      JoinSlices(a, b, n);
      AlignedJoin(a[n..], b, c + n);
      HeadKept(a, a + b, c);
      AlignedStep(a + b, c);
    }
  }

  lemma StepInside(line: Line, c: nat)
    requires line != [] && HeadOk(line, c)
    ensures Step(line, c) <= |line|
  {
  }

  lemma JoinSlices(a: Line, b: Line, n: nat)
    requires n <= |a|
    ensures (a + b)[n..] == a[n..] + b && forall i :: 0 <= i < n ==> (a + b)[i] == a[i]
  {
  }

  lemma CutSlices(line: Line, m: nat, p: nat)
    requires m <= p <= |line|
    ensures line[..p][m..] == line[m..][..p - m] && line[m..][p - m..] == line[p..]
    ensures forall i :: 0 <= i < p ==> line[..p][i] == line[i]
  {
  }

  // A line may be cut wherever no padding starts.
  lemma {:induction false} AlignedCut(line: Line, p: nat, c: nat)
    requires Aligned(line, c) && p <= |line| && (p < |line| ==> !line[p].fake)
    ensures Aligned(line[..p], c) && Aligned(line[p..], c + p)
    decreases line
  {
    hide Aligned, HeadOk, Pad;
    if p == 0 {
      NoneAligned(c);
    } else {
      AlignedStep(line, c);
      PastPadding(line, p, c);
      var n := Step(line, c);
      CutSlices(line, n, p);
      AlignedCut(line[n..], p - n, c + n);
      HeadKept(line, line[..p], c);
      AlignedStep(line[..p], c);
    }
  }

  lemma PastPadding(line: Line, p: nat, c: nat)
    requires line != [] && HeadOk(line, c) && 0 < p <= |line| && (p < |line| ==> !line[p].fake)
    ensures Step(line, c) <= p
  {
  }

  lemma {:induction false} ExpandJoin(a: Line, b: Line, c: nat)
    ensures Expand(a + b, c) == Expand(a, c) + Expand(b, c + |Expand(a, c)|)
    decreases a
  {
    hide Padded;
    if a == [] {
      assert a + b == b;
    } else {
      assert (a + b)[1..] == a[1..] + b;
      ExpandJoin(a[1..], b, c + |Padded(a[0], c)|);
    }
  }

  lemma ExpandOne(c: Cell, p: nat)
    ensures Expand([c], p) == Padded(c, p)
  {
  }

  // ------------------------------------------------------------- when realigning is enough

  // The new length gives a misplaced padding away.
  ghost predicate Repairable(line: Line) { |Expand(Strip(line), 0)| != |line| || Aligned(line, 0) }

  // Text that is moved behind other text.
  lemma MovedText(a: Line, b: Line, c: nat)
    requires Aligned(a, 0) && Aligned(b, c)
    ensures Repairable(a + b)
  {
    hide Aligned, Strip, Expand;
    AlignedLength(a, 0);
    StripJoin(a, b);
    ExpandJoin(Strip(a), Strip(b), 0);
    if |Expand(Strip(a + b), 0)| == |a + b| {
      AlignedMoves(b, c, |a|);
      AlignedJoin(a, b, 0);
    }
  }

  // Between the column of a tab and the end of its padding, no text loses just that padding.
  lemma TabMisplaced(text: Line, p: nat)
    requires |Expand(text, p)| - |Expand(text, p + 1 + Pad(p))| == Pad(p)
    ensures Pad(p) == 0 && NoTab(text)
  {
    hide Expand, Pad;
    if NoTab(text) {
      ExpandNoTab(text, p);
      ExpandNoTab(text, p + 1 + Pad(p));
    } else {
      LengthMoves(text, p, p + 1 + Pad(p));
    }
  }

  // ------------------------------------------------------------------------ single edits

  lemma OneAligned(c: Cell, p: nat)
    requires !c.fake && (c.ch == TAB ==> Pad(p) == 0)
    ensures Aligned([c], p)
  {
  }

  // A character typed where no padding is.
  lemma InsertRepairable(line: Line, p: nat, c: Cell)
    requires Aligned(line, 0) && p <= |line| && (p < |line| ==> !line[p].fake) && !c.fake
    ensures Repairable(line[..p] + [c] + line[p..])
  {
    hide Aligned, Strip, Expand, Pad, Repairable;
    AlignedCut(line, p, 0);
    if c.ch == TAB && Pad(p) > 0 {
      TabTyped(line[..p], c, line[p..]);
    } else {
      OneAligned(c, p);
      AlignedJoin(line[..p], [c], 0);
      MovedText(line[..p] + [c], line[p..], p);
    }
  }

  lemma TabTyped(a: Line, c: Cell, b: Line)
    requires Aligned(a, 0) && Aligned(b, |a|) && c.ch == TAB && !c.fake && Pad(|a|) > 0
    ensures Repairable(a + [c] + b)
  {
    hide Aligned, Strip, Expand, Pad;
    var p := |a|;
    AlignedLength(a, 0);
    AlignedLength(b, p);
    StripJoin(a + [c], b);
    StripJoin(a, [c]);
    StripOne(c);
    ExpandJoin(Strip(a) + [c], Strip(b), 0);
    ExpandJoin(Strip(a), [c], 0);
    ExpandTab(c, p);
    if |Expand(Strip(a + [c] + b), 0)| == |a + [c] + b| { TabMisplaced(Strip(b), p); }
  }

  lemma StripOne(c: Cell)
    requires !c.fake
    ensures Strip([c]) == [c]
  {
  }

  lemma ExpandTab(c: Cell, p: nat)
    requires c.ch == TAB
    ensures |Expand([c], p)| == 1 + Pad(p)
  {
  }

  // A character taken away; the padding of a tab is left behind.
  lemma DeleteRepairable(line: Line, p: nat)
    requires Aligned(line, 0) && p < |line| && !line[p].fake
    ensures Repairable(line[..p] + line[p + 1..])
  {
    hide Aligned, Strip, Expand, Pad, Repairable, HeadOk;
    AlignedCut(line, p, 0);
    AlignedStep(line[p..], p);
    if Step(line[p..], p) == 1 {
      MovedText(line[..p], line[p + 1..], p + 1);
    } else {
      TabTaken(line[..p], line[p..]);
    }
  }

  lemma TabTaken(a: Line, b: Line)
    requires Aligned(a, 0) && b != [] && b[0].ch == TAB && Pad(|a|) > 0
    requires HeadOk(b, |a|) && Aligned(b[1 + Pad(|a|)..], |a| + 1 + Pad(|a|))
    ensures Repairable(a + b[1..])
  {
    hide Aligned, Strip, Expand, Pad;
    var p, n := |a|, Pad(|a|);
    var pad, rest := b[1..1 + n], b[1 + n..];
    assert b[1..] == pad + rest;
    AlignedLength(a, 0);
    AlignedLength(rest, p + 1 + n);
    StripAllFake(pad);
    StripJoin(a, b[1..]);
    StripJoin(pad, rest);
    assert Strip(b[1..]) == Strip(rest);
    ExpandJoin(Strip(a), Strip(rest), 0);
    if |Expand(Strip(a + b[1..]), 0)| == |a + b[1..]| { TabMisplaced(Strip(rest), p); }
  }

  // ------------------------------------------------------------------- marks do not matter

  ghost predicate SameShape(a: Line, b: Line) {
    |a| == |b| && forall i :: 0 <= i < |a| ==> a[i].ch == b[i].ch && a[i].fake == b[i].fake
  }

  lemma {:induction false} ShapeStrip(a: Line, b: Line)
    requires SameShape(a, b)
    ensures SameShape(Strip(a), Strip(b))
  {
    if a == [] {
    } else {
      ShapeStrip(a[1..], b[1..]);
    }
  }

  lemma {:induction false} ShapeExpand(a: Line, b: Line, c: nat)
    requires SameShape(a, b)
    ensures |Expand(a, c)| == |Expand(b, c)|
    decreases a
  {
    if a == [] {
    } else {
      ShapeExpand(a[1..], b[1..], if a[0].ch == TAB then c + 1 + Pad(c) else c + 1);
    }
  }

  lemma {:induction false} ShapeAligned(a: Line, b: Line, c: nat)
    requires SameShape(a, b) && Aligned(a, c)
    ensures Aligned(b, c)
    decreases a
  {
    hide Aligned;
    if a == [] {
      NoneAligned(c);
    } else {
      AlignedStep(a, c);
      AlignedStep(b, c);
      var n := Step(a, c);
      ShapeAligned(a[n..], b[n..], c + n);
    }
  }

  lemma ShapeRepairable(a: Line, b: Line)
    requires SameShape(a, b) && Repairable(a)
    ensures Repairable(b)
  {
    ShapeStrip(a, b);
    ShapeExpand(Strip(a), Strip(b), 0);
    if Aligned(a, 0) { ShapeAligned(a, b, 0); }
  }

  // -------------------------------------------------------------------- reallign_tabs

  function Body(row: Row): Line
    requires |row| >= 1
  {
    row[..|row| - 1]
  }

  predicate HasTab(line: Line) { exists i :: 0 <= i < |line| && line[i].ch == TAB }

  // Padded anew, unless that would not change the length.
  function Realign(row: Row): Row
    requires |row| >= 1
  {
    var line := Expand(Strip(Body(row)), 0);
    if !HasTab(Body(row)) || |line| == |Body(row)| then row else line + [Cell(0, Edited, false, true)]
  }

  lemma {:induction false} AllText(line: Line)
    requires forall i :: 0 <= i < |line| ==> !line[i].fake
    ensures Strip(line) == line
  {
    if line == [] {
    } else {
      AllText(line[1..]);
    }
  }

  // The text stays, and the row comes out aligned exactly when its length gave it away or it
  // already was.
  lemma RealignExact(row: Row)
    requires RowOk(row)
    ensures RowOk(Realign(row)) && Strip(Body(Realign(row))) == Strip(Body(row))
    ensures Aligned(Body(Realign(row)), 0) <==> Repairable(Body(row))
    ensures Closed(row) ==> Closed(Realign(row))
  {
    hide Strip, Aligned, Expand;
    var body := Body(row);
    var text := Strip(body);
    StripCells(body);
    StripExpand(text, 0);
    ExpandAligned(text, 0);
    ExpandCells(text, 0);
    if !HasTab(body) {
      AllText(body);
      ExpandNoTab(body, 0);
    }
  }

  lemma {:induction false} StripCells(line: Line)
    ensures forall i :: 0 <= i < |Strip(line)| ==> Strip(line)[i] in line
  {
    if line == [] {
    } else {
      StripCells(line[1..]);
    }
  }

  ghost predicate Plain(c: Cell) { c.ch != 0 && !c.nwl && (c.fake ==> c.ch == TAB) }

  lemma {:induction false} ExpandCells(text: Line, col: nat)
    requires forall i :: 0 <= i < |text| ==> Plain(text[i])
    ensures forall i :: 0 <= i < |Expand(text, col)| ==> Plain(Expand(text, col)[i])
    decreases text
  {
    if text == [] {
    } else {
      ExpandCells(text[1..], if text[0].ch == TAB then col + 1 + Pad(col) else col + 1);
    }
  }

  // What follows an aligned part of an aligned line is aligned too.
  lemma {:induction false} AlignedRest(a: Line, b: Line, c: nat)
    requires Aligned(a, c) && Aligned(a + b, c)
    ensures Aligned(b, c + |a|)
    decreases a
  {
    hide Aligned, HeadOk, Pad;
    if a == [] {
      assert a + b == b;
    } else {
      AlignedStep(a, c);
      AlignedStep(a + b, c);
      StepInside(a, c);
      var n := Step(a, c);
      JoinSlices(a, b, n);
      AlignedRest(a[n..], b, c + n);
    }
  }

  // No padding at place p of the line.
  predicate OffPadding(line: Line, p: nat) { p <= |line| && (p < |line| ==> !line[p].fake) }

  lemma AlignedOff(b: Line, c: nat)
    requires Aligned(b, c)
    ensures OffPadding(b, 0)
  {
  }

  lemma ExpandOff(text: Line, c: nat)
    requires forall i :: 0 <= i < |text| ==> !text[i].fake
    ensures OffPadding(Expand(text, c), 0)
  {
  }

  lemma StripText(line: Line)
    ensures forall i :: 0 <= i < |Strip(line)| ==> !Strip(line)[i].fake
  {
  }

  // After an edit behind the aligned part a: aligned again, and the cursor still behind a and off
  // padding.
  lemma AfterEdit(a: Line, b: Line, end: Cell)
    requires Aligned(a, 0) && Repairable(a + b) && RowOk(a + b + [end])
    ensures var body := Body(Realign(a + b + [end]));
            Aligned(body, 0) && OffPadding(body, |a|) && Strip(body[..|a|]) == Strip(a)
  {
    hide Aligned, Strip, Expand, Realign, RowOk, Repairable, OffPadding;
    var row := a + b + [end];
    RealignExact(row);
    RealignEither(row);
    if Body(Realign(row)) == a + b {
      AlignedRest(a, b, 0);
      AlignedOff(b, |a|);
      OffBehind(a, b);
      assert (a + b)[..|a|] == a;
    } else {
      StripJoin(a, b);
      ExpandJoin(Strip(a), Strip(b), 0);
      AlignedLength(a, 0);
      ExpandOff(Strip(b), |a|);
      OffBehind(Expand(Strip(a), 0), Expand(Strip(b), |a|));
      StripExpand(Strip(a), 0);
      StripText(a);
      assert (Expand(Strip(a), 0) + Expand(Strip(b), |a|))[..|a|] == Expand(Strip(a), 0);
    }
  }

  lemma RealignEither(row: Row)
    requires |row| >= 1
    ensures Realign(row) != []
    ensures Body(Realign(row)) == Body(row) || Body(Realign(row)) == Expand(Strip(Body(row)), 0)
  {
  }

  lemma OffBehind(a: Line, b: Line)
    requires OffPadding(b, 0)
    ensures OffPadding(a + b, |a|)
  {
  }

  // A character typed inside the padding of a tab: the length does not change, so nothing is done.
  lemma RealignMisses()
    ensures var typed := Cell(120, Edited, false, false);
            var row := Padded(Cell(TAB, Edited, false, false), 0)[..2] + [typed] + Fakes(Edited, 2)
                + [Cell(0, Edited, false, true)];
            RowOk(row) && Realign(row) == row && !Aligned(Body(row), 0)
  {
    hide Strip, Expand;
    var tab, typed := Cell(TAB, Edited, false, false), Cell(120, Edited, false, false);
    var row := Padded(tab, 0)[..2] + [typed] + Fakes(Edited, 2) + [Cell(0, Edited, false, true)];
    var body := Body(row);
    assert body == [tab, Fake(Edited), typed, Fake(Edited), Fake(Edited)];
    StripTyped(tab, typed);
    ExpandJoin([tab], [typed], 0);
    ExpandTab(tab, 0);
    ExpandNoTab([typed], 4);
    assert [tab] + [typed] == [tab, typed];
  }

  lemma StripTyped(tab: Cell, typed: Cell)
    requires !tab.fake && !typed.fake
    ensures Strip([tab, Fake(Edited), typed, Fake(Edited), Fake(Edited)]) == [tab, typed]
  {
    hide Strip;
    var end := [Fake(Edited), Fake(Edited)];
    StripHead(tab, [Fake(Edited), typed] + end);
    StripJoin([Fake(Edited)], [typed] + end);
    StripAllFake([Fake(Edited)]);
    StripHead(typed, end);
    StripAllFake(end);
    assert [tab, Fake(Edited), typed, Fake(Edited), Fake(Edited)] == [tab] + ([Fake(Edited)] + ([typed] + end));
    assert [Fake(Edited), typed] + end == [Fake(Edited)] + ([typed] + end);
  }
}
