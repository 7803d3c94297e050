/** Searching with context (grep.c): a window of the last lines not yet shown. */
module Grep {
  datatype Out = Sep | Shown(lnum: int, text: string)

  // tolower
  function Lower(c: char): char { if 'A' <= c <= 'Z' then (c as int + 32) as char else c }

  // A capital and the small letter at the same place of the alphabet.
  ghost predicate CaseOf(a: char, b: char) {
    'A' <= a <= 'Z' && 'a' <= b <= 'z' && a as int - 'A' as int == b as int - 'a' as int
  }

  ghost predicate SameChar(a: char, b: char, icase: bool) { a == b || (icase && (CaseOf(a, b) || CaseOf(b, a))) }

  // Small letters are equal exactly when the letters are alike.
  lemma LowerSame(a: char, b: char)
    ensures Lower(a) == Lower(b) <==> SameChar(a, b, true)
  {
  }

  // The pattern stands in the line from position h on.
  ghost predicate OccursAt(line: string, pattern: string, h: nat, icase: bool) {
    h + |pattern| <= |line| && forall j :: 0 <= j < |pattern| ==> SameChar(pattern[j], line[h + j], icase)
  }

  ghost predicate Occurs(line: string, pattern: string, icase: bool) {
    exists h: nat :: h < |line| && OccursAt(line, pattern, h, icase)
  }

  // The two comparisons of the code.
  predicate Alike(a: char, b: char, icase: bool)
    ensures Alike(a, b, icase) <==> SameChar(a, b, icase)
  {
    LowerSame(a, b);
    if icase then Lower(a) == Lower(b) else a == b
  }

  // grep_strstr: the first place of the pattern, -1 for none. An empty line never matches.
  method Strstr(haystack: string, needle: string, icase: bool) returns (h: int)
    ensures h == -1 || 0 <= h < |haystack|
    ensures h == -1 <==> !Occurs(haystack, needle, icase)
    ensures h >= 0 ==>
              OccursAt(haystack, needle, h, icase) && forall k: nat :: k < h ==> !OccursAt(haystack, needle, k, icase)
  {
    hide SameChar, Lower;
    h := 0;
    while h < |haystack|
      invariant 0 <= h <= |haystack|
      invariant forall k: nat :: k < h ==> !OccursAt(haystack, needle, k, icase)
    {
      var n := 0;
      while n < |needle| && h + n < |haystack| && Alike(needle[n], haystack[h + n], icase)
        invariant n <= |needle| && h + n <= |haystack|
        invariant forall j :: 0 <= j < n ==> SameChar(needle[j], haystack[h + j], icase)
      {
        n := n + 1;
      }
      if n == |needle| {
        assert OccursAt(haystack, needle, h, icase);
        return;
      }
      h := h + 1;
    }
    h := -1;
  }

  // ---------------------------------------------------------------- what is to be shown

  ghost predicate Match(lines: seq<string>, n: int, pattern: string, icase: bool) {
    0 <= n < |lines| && Occurs(lines[n], pattern, icase)
  }

  // Within c lines of a matching one.
  ghost predicate Near(lines: seq<string>, n: int, pattern: string, icase: bool, c: nat) {
    exists m :: n - c <= m <= n + c && Match(lines, m, pattern, icase)
  }

  ghost predicate NoMatch(lines: seq<string>, from: int, end: int, pattern: string, icase: bool) {
    forall m :: from <= m < end ==> !Match(lines, m, pattern, icase)
  }

  // The mark stands before line n: the next match is c lines further, the last one more than c
  // lines back.
  ghost predicate Marked(lines: seq<string>, n: int, pattern: string, icase: bool, c: nat) {
    && Match(lines, n + c, pattern, icase) && NoMatch(lines, n - c, n + c, pattern, icase)
    && !NoMatch(lines, 0, n - c, pattern, icase)
  }

  // Every near line before `end`, in order, each once and with its own number.
  ghost function Expected(lines: seq<string>, end: nat, pattern: string, icase: bool, c: nat): seq<Out>
    requires end <= |lines|
  {
    if end == 0 then []
    else
      var n := end - 1;
      Expected(lines, n, pattern, icase, c)
      + (if Near(lines, n, pattern, icase, c) then
           (if Marked(lines, n, pattern, icase, c) then [Sep] else []) + [Shown(n, lines[n])]
         else [])
  }

  lemma SkipFar(lines: seq<string>, n: nat, pattern: string, icase: bool, c: nat)
    requires n < |lines| && NoMatch(lines, n - c, n + c + 1, pattern, icase)
    ensures Expected(lines, n + 1, pattern, icase, c) == Expected(lines, n, pattern, icase, c)
  {
  }

  lemma NothingYet(lines: seq<string>, pattern: string, icase: bool, c: nat)
    ensures Expected(lines, 0, pattern, icase, c) == [] && NoMatch(lines, 0 - c, 0, pattern, icase)
            && NoMatch(lines, 0, 0, pattern, icase)
  {
  }

  // A line shortly before or at a match, or after one, is shown without a mark.
  lemma Unmarked(lines: seq<string>, n: int, m: int, pattern: string, icase: bool, c: nat)
    requires Match(lines, m, pattern, icase) && n - c <= m < n + c
    ensures Near(lines, n, pattern, icase, c) && !Marked(lines, n, pattern, icase, c)
  {
  }

  lemma {:induction false} NothingMore(lines: seq<string>, p: nat, end: nat, pattern: string, icase: bool, c: nat)
    requires p <= end <= |lines| && NoMatch(lines, p - c, |lines|, pattern, icase)
    ensures Expected(lines, end, pattern, icase, c) == Expected(lines, p, pattern, icase, c)
    decreases end
  {
    if p < end {
      NothingMore(lines, p, end - 1, pattern, icase, c);
    }
  }

  // The lines p..l of the window and the match l itself.
  ghost function Window(lines: seq<string>, p: nat, end: nat): (s: seq<Out>)
    requires p <= end <= |lines|
    ensures |s| == end - p
  {
    seq(end - p, i requires 0 <= i < end - p => Shown(p + i, lines[p + i]))
  }

  lemma {:induction false} WindowExpected(lines: seq<string>, p: nat, end: nat, l: nat, pattern: string, icase: bool,
                                          c: nat)
    requires p <= end <= l + 1 <= |lines| && l < p + c && Match(lines, l, pattern, icase)
    ensures Expected(lines, end, pattern, icase, c) == Expected(lines, p, pattern, icase, c) + Window(lines, p, end)
    decreases end
  {
    if p < end {
      WindowExpected(lines, p, end - 1, l, pattern, icase, c);
      Unmarked(lines, end - 1, l, pattern, icase, c);
    }
  }

  lemma FirstMarked(lines: seq<string>, p: nat, l: nat, pattern: string, icase: bool, c: nat)
    requires p + c == l && Match(lines, l, pattern, icase) && NoMatch(lines, p - c, l, pattern, icase)
    ensures Near(lines, p, pattern, icase, c)
    ensures Marked(lines, p, pattern, icase, c) <==> !NoMatch(lines, 0, l, pattern, icase)
  {
  }

  // A full window: its first line may be marked, the others are not.
  lemma FullWindow(lines: seq<string>, p: nat, l: nat, pattern: string, icase: bool, c: nat)
    requires l < |lines| && p + c == l && c > 0 && Match(lines, l, pattern, icase)
             && NoMatch(lines, p - c, l, pattern, icase)
    ensures Expected(lines, l + 1, pattern, icase, c) ==
            Expected(lines, p, pattern, icase, c)
            + (if NoMatch(lines, 0, l, pattern, icase) then [] else [Sep]) + Window(lines, p, l + 1)
  {
    hide Match, NoMatch, Near, Marked;
    WindowExpected(lines, p + 1, l + 1, l, pattern, icase, c);
    FirstMarked(lines, p, l, pattern, icase, c);
    assert Window(lines, p, l + 1) == [Shown(p, lines[p])] + Window(lines, p + 1, l + 1);
  }

  // ------------------------------------------------------------------------ the code

  // The kept lines, oldest first, then the match.
  method ShowWindow(lines: seq<string>, context: array<string>, count: nat, lnum: nat) returns (out: seq<Out>)
    requires count <= context.Length && count <= lnum < |lines|
    requires forall i :: 0 <= i < count ==> context[i] == lines[lnum - count + i]
    ensures out == Window(lines, lnum - count, lnum + 1)
  {
    out := [];
    var i := 0;
    while i < count
      invariant i <= count && out == Window(lines, lnum - count, lnum - count + i)
    {
      out := out + [Shown(lnum - count + i, context[i])];
      i := i + 1;
    }
    out := out + [Shown(lnum, lines[lnum])];
  }

  // The lines after a match, until c in a row do not match. Returns the last line read.
  method ShowAfter(lines: seq<string>, pattern: string, icase: bool, c: nat, start: nat, out0: seq<Out>)
      returns (lnum: nat, out: seq<Out>)
    requires c > 0 && start < |lines| && Match(lines, start, pattern, icase)
             && out0 == Expected(lines, start + 1, pattern, icase, c)
    ensures start <= lnum < |lines| && out == Expected(lines, lnum + 1, pattern, icase, c)
    ensures lnum + 1 == |lines| || NoMatch(lines, lnum + 1 - c, lnum + 1, pattern, icase)
  {
    hide Occurs, Near, Marked;
    lnum, out := start, out0;
    var i: int := 0;
    while i < c && lnum + 1 < |lines|
      invariant 0 <= i <= c && start <= lnum < |lines| && i <= lnum
      invariant Match(lines, lnum - i, pattern, icase) && NoMatch(lines, lnum - i + 1, lnum + 1, pattern, icase)
      invariant out == Expected(lines, lnum + 1, pattern, icase, c)
      decreases |lines| - lnum
    {
      ghost var last := lnum - i;
      var found := Strstr(lines[lnum + 1], pattern, icase);
      if found != -1 { i := -1; }
      lnum := lnum + 1;
      Unmarked(lines, lnum, if i == -1 then lnum else last, pattern, icase, c);
      out := out + [Shown(lnum, lines[lnum])];
      i := i + 1;
    }
  }

  // A match: the mark, the kept lines, the match, and what follows it.
  method ShowGroup(lines: seq<string>, pattern: string, icase: bool, c: nat, context: array<string>, count: nat,
                   lnum: nat, first: bool,
                   out0: seq<Out>) returns (last: nat, out: seq<Out>)
    requires context.Length == c > 0 && count <= c && count <= lnum < |lines| && Match(lines, lnum, pattern, icase)
    requires forall i :: 0 <= i < count ==> context[i] == lines[lnum - count + i]
    requires out0 == Expected(lines, lnum - count, pattern, icase, c)
             && NoMatch(lines, lnum - count - c, lnum, pattern, icase)
    requires first <==> NoMatch(lines, 0, lnum, pattern, icase)
    ensures lnum <= last < |lines| && out == Expected(lines, last + 1, pattern, icase, c)
    ensures last + 1 == |lines| || NoMatch(lines, last + 1 - c, last + 1, pattern, icase)
    ensures !NoMatch(lines, 0, last + 1, pattern, icase)
  {
    hide Occurs, Near, Marked, Expected;
    out := out0;
    if !first && count == c { out := out + [Sep]; }
    var shown := ShowWindow(lines, context, count, lnum);
    if count == c {
      FullWindow(lines, lnum - count, lnum, pattern, icase, c);
    } else {
      WindowExpected(lines, lnum - count, lnum + 1, lnum, pattern, icase, c);
    }
    out := out + shown;
    last, out := ShowAfter(lines, pattern, icase, c, lnum, out);
  }

  // grep_file_ctx
  method FileCtx(lines: seq<string>, pattern: string, icase: bool, c: nat) returns (out: seq<Out>)
    requires c > 0
    ensures out == Expected(lines, |lines|, pattern, icase, c)
  {
    hide Occurs, Near, Marked, Expected, NoMatch;
    var context := new string[c];
    var count := 0;
    var first := true;
    out := [];
    NothingYet(lines, pattern, icase, c);
    var lnum := 0;
    ghost var p := 0;
    while lnum < |lines|
      invariant count <= c && lnum <= |lines| && 0 <= p == lnum - count
      invariant forall i :: 0 <= i < count ==> context[i] == lines[p + i]
      invariant out == Expected(lines, p, pattern, icase, c)
      invariant (count == 0 && lnum == |lines|) || NoMatch(lines, p - c, lnum, pattern, icase)
      invariant first <==> NoMatch(lines, 0, lnum, pattern, icase)
    {
      var found := Strstr(lines[lnum], pattern, icase);
      NoMatchNext(lines, p - c, lnum, pattern, icase);
      NoMatchNext(lines, 0, lnum, pattern, icase);
      if found != -1 {
        lnum, out := ShowGroup(lines, pattern, icase, c, context, count, lnum, first, out);
        first := false;
        count := 0;
        p := lnum + 1;
      } else if count < c {
        context[count] := lines[lnum];
        count := count + 1;
      } else {
        SkipFar(lines, p, pattern, icase, c);
        NoMatchLess(lines, p - c, lnum + 1, pattern, icase);
        SlideWindow(context, lines[lnum]);
        p := p + 1;
      }
      lnum := lnum + 1;
    }
    if count > 0 { NothingMore(lines, p, lnum, pattern, icase, c); }
  }

  lemma NoMatchNext(lines: seq<string>, a: int, l: nat, pattern: string, icase: bool)
    requires l < |lines|
    ensures a <= l ==>
            (NoMatch(lines, a, l + 1, pattern, icase) <==>
             NoMatch(lines, a, l, pattern, icase) && !Occurs(lines[l], pattern, icase))
  {
    hide Occurs;
    assert Match(lines, l, pattern, icase) <==> Occurs(lines[l], pattern, icase);
  }

  lemma NoMatchLess(lines: seq<string>, a: int, b: int, pattern: string, icase: bool)
    requires NoMatch(lines, a, b, pattern, icase)
    ensures NoMatch(lines, a + 1, b, pattern, icase)
  {
  }

  // The oldest line makes way for a new one.
  method SlideWindow(context: array<string>, line: string)
    requires context.Length > 0
    modifies context
    ensures forall i :: 0 <= i < context.Length - 1 ==> context[i] == old(context[i + 1])
    ensures context[context.Length - 1] == line
  {
    var i := 0;
    while i < context.Length - 1
      invariant 0 <= i <= context.Length - 1
      invariant forall k :: 0 <= k < i ==> context[k] == old(context[k + 1])
      invariant forall k :: i <= k < context.Length ==> context[k] == old(context[k])
    {
      context[i] := context[i + 1];
      i := i + 1;
    }
    context[context.Length - 1] := line;
  }

  // ------------------------------------------------------------------ what it amounts to

  function Numbers(out: seq<Out>): seq<int> {
    if out == [] then []
    else Numbers(out[..|out| - 1]) + (match out[|out| - 1] case Sep => [] case Shown(n, _) => [n])
  }

  lemma {:induction false} NumbersMore(a: seq<Out>, b: seq<Out>)
    ensures Numbers(a + b) == Numbers(a) + Numbers(b)
  {
    if b == [] {
      assert a + b == a;
    } else {
      var n := |b| - 1;
      NumbersMore(a, b[..n]);
      assert (a + b)[..|a + b| - 1] == a + b[..n];
    }
  }

  // Exactly the lines within c of a match, in ascending order, each once.
  ghost predicate NearLines(s: seq<int>, lines: seq<string>, end: nat, pattern: string, icase: bool, c: nat) {
    && (forall n :: n in s <==> 0 <= n < end && Near(lines, n, pattern, icase, c))
    && (forall i, j :: 0 <= i < j < |s| ==> s[i] < s[j])
  }

  lemma {:induction false} ShowsNearLines(lines: seq<string>, end: nat, pattern: string, icase: bool, c: nat)
    requires end <= |lines|
    ensures NearLines(Numbers(Expected(lines, end, pattern, icase, c)), lines, end, pattern, icase, c)
  {
    hide Near, Marked, Numbers, Expected, NearLines;
    if end == 0 {
      NoNumbers(lines, pattern, icase, c);
    } else {
      ShowsNearLines(lines, end - 1, pattern, icase, c);
      NumbersStep(lines, end - 1, pattern, icase, c);
      var s := Numbers(Expected(lines, end - 1, pattern, icase, c));
      assert s + [] == s;
      NearStep(s, lines, end - 1, pattern, icase, c);
    }
  }

  // Every line with its own text, and the marks where they belong: one before each marked line, and no others.
  ghost predicate WellShown(out: seq<Out>, k: nat, lines: seq<string>, end: nat, pattern: string, icase: bool, c: nat)
    requires k < |out|
  {
    match out[k]
    case Sep => k + 1 < |out| && out[k + 1].Shown? && Marked(lines, out[k + 1].lnum, pattern, icase, c)
    case Shown(n, text) =>
      0 <= n < end && n < |lines| && text == lines[n]
        && (Marked(lines, n, pattern, icase, c) ==> k > 0 && out[k - 1] == Sep)
  }

  lemma {:induction false} ShowsTexts(lines: seq<string>, end: nat, pattern: string, icase: bool, c: nat, k: nat)
    requires end <= |lines| && k < |Expected(lines, end, pattern, icase, c)|
    ensures WellShown(Expected(lines, end, pattern, icase, c), k, lines, end, pattern, icase, c)
  {
    hide Near, Marked;
    if end == 0 {
    } else {
      var front := Expected(lines, end - 1, pattern, icase, c);
      var out := Expected(lines, end, pattern, icase, c);
      assert front <= out;
      if k < |front| {
        ShowsTexts(lines, end - 1, pattern, icase, c, k);
        assert out[k] == front[k];
      }
    }
  }

  lemma NoNumbers(lines: seq<string>, pattern: string, icase: bool, c: nat)
    ensures NearLines(Numbers(Expected(lines, 0, pattern, icase, c)), lines, 0, pattern, icase, c)
  {
  }

  lemma NearStep(s: seq<int>, lines: seq<string>, n: nat, pattern: string, icase: bool, c: nat)
    requires NearLines(s, lines, n, pattern, icase, c)
    ensures Near(lines, n, pattern, icase, c) ==> NearLines(s + [n], lines, n + 1, pattern, icase, c)
    ensures !Near(lines, n, pattern, icase, c) ==> NearLines(s, lines, n + 1, pattern, icase, c)
  {
    hide Near;
    forall i | 0 <= i < |s| ensures s[i] < n { assert s[i] in s; }
  }

  lemma NumbersStep(lines: seq<string>, n: nat, pattern: string, icase: bool, c: nat)
    requires n < |lines|
    ensures Numbers(Expected(lines, n + 1, pattern, icase, c)) ==
            Numbers(Expected(lines, n, pattern, icase, c)) + if Near(lines, n, pattern, icase, c) then [n] else []
  {
    hide Near, Marked, Numbers;
    var mark := if Marked(lines, n, pattern, icase, c) then [Sep] else [];
    var shown := if Near(lines, n, pattern, icase, c) then mark + [Shown(n, lines[n])] else [];
    NumbersMore(Expected(lines, n, pattern, icase, c), shown);
    NumbersMore(mark, [Shown(n, lines[n])]);
    FewNumbers(n, lines[n]);
  }

  lemma FewNumbers(n: int, text: string)
    ensures Numbers([]) == [] && Numbers([Sep]) == [] && Numbers([Shown(n, text)]) == [n]
  {
  }
}
