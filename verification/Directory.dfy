/** Directories (usg_dir.c): a count, then one (sid, name offset) pair for each element, then the
    names, each closed by a zero byte. */
module Directory {
  import opened Layout

  datatype Element = Element(sid: word, name: seq<byte>)

  // The string that starts at o.
  function CString(s: seq<byte>, o: nat): seq<byte>
    requires o <= |s|
    decreases |s| - o
  {
    if o == |s| || s[o] == 0 then [] else [s[o]] + CString(s, o + 1)
  }

  ghost predicate Terminated(s: seq<byte>, o: nat) { exists k: nat :: o <= k < |s| && s[k] == 0 }

  predicate NulFree(name: seq<byte>) { forall i :: 0 <= i < |name| ==> name[i] != 0 }

  // Where the names start in a directory of n elements.
  function NamesAt(n: nat): nat { 4 + 8 * n }

  function NameAt(b: seq<byte>, i: nat): nat
    requires |b| >= 4 && i < Word(b, 0) && NamesAt(Word(b, 0)) <= |b|
  {
    NamesAt(Word(b, 0)) + Word(b, 8 + 8 * i)
  }

  ghost predicate WellFormed(b: seq<byte>) {
    && |b| >= 4 && NamesAt(Word(b, 0)) <= |b|
    && forall i: nat :: i < Word(b, 0) ==> NameAt(b, i) <= |b| && Terminated(b, NameAt(b, i))
  }

  function ElementAt(b: seq<byte>, i: nat): Element
    requires |b| >= 4 && i < Word(b, 0) && NamesAt(Word(b, 0)) <= |b| && NameAt(b, i) <= |b|
  {
    Element(Word(b, 4 + 8 * i), CString(b, NameAt(b, i)))
  }

  ghost function Decode(b: seq<byte>): (es: seq<Element>)
    requires WellFormed(b)
    ensures |es| == Word(b, 0)
    ensures forall i: nat :: i < |es| ==> es[i] == ElementAt(b, i)
  {
    seq(Word(b, 0), i requires 0 <= i < Word(b, 0) => ElementAt(b, i))
  }

  // ------------------------------------------------------------------- strings

  // Two places that agree up to a zero byte hold the same string.
  lemma {:induction false} CStringSame(s: seq<byte>, o: nat, t: seq<byte>, d: nat, k: nat)
    requires o <= k < |s| && k + d < |t| && s[k] == 0
    requires forall q :: o <= q <= k ==> s[q] == t[q + d]
    ensures CString(s, o) == CString(t, o + d)
    decreases k - o
  {
    if s[o] != 0 { CStringSame(s, o + 1, t, d, k); }
  }

  lemma {:induction false} CStringIs(s: seq<byte>, o: nat, name: seq<byte>)
    requires NulFree(name) && o + |name| < |s| && s[o + |name|] == 0
    requires forall q :: o <= q < o + |name| ==> s[q] == name[q - o]
    ensures CString(s, o) == name
    decreases |name|
  {
    if name == [] {
    } else {
      CStringIs(s, o + 1, name[1..]);
    }
  }

  // ------------------------------------------------------------ adding an element

  // What the code leaves in the buffer: one more pair, the names moved by the size of a pair, the
  // new name after them. Of an empty directory nothing is moved.
  ghost predicate Added(b: seq<byte>, b': seq<byte>, sid: word, name: seq<byte>) {
    && WellFormed(b) && |b'| == |b| + 8 + |name| + 1
    && var n: int := Word(b, 0);
    && Word(b', 0) == n + 1
    && (forall q :: 4 <= q < NamesAt(n) ==> b'[q] == b[q])
    && Word(b', 4 + 8 * n) == sid && Word(b', 8 + 8 * n) == |b| - NamesAt(n)
    && (n > 0 ==> forall q :: NamesAt(n) <= q < |b| ==> b'[q + 8] == b[q])
    && (n == 0 ==> forall q :: NamesAt(1) <= q < |b| ==> b'[q] == b[q])
    && (forall j :: 0 <= j < |name| ==> b'[|b| + 8 + j] == name[j])
    && b'[|b| + 8 + |name|] == 0
  }

  lemma PairKept(b: seq<byte>, b': seq<byte>, sid: word, name: seq<byte>, i: nat)
    requires Added(b, b', sid, name) && i < Word(b, 0)
    ensures Word(b', 4 + 8 * i) == Word(b, 4 + 8 * i) && Word(b', 8 + 8 * i) == Word(b, 8 + 8 * i)
  {
  }

  lemma SameWord(s: seq<byte>, t: seq<byte>, o: nat)
    requires o + 4 <= |s| && o + 4 <= |t| && forall q :: o <= q < o + 4 ==> t[q] == s[q]
    ensures Word(t, o) == Word(s, o)
  {
  }

  lemma OldElementKept(b: seq<byte>, b': seq<byte>, sid: word, name: seq<byte>, i: nat)
    requires Added(b, b', sid, name) && i < Word(b, 0)
    ensures NameAt(b', i) == NameAt(b, i) + 8 <= |b'| && Terminated(b', NameAt(b', i))
    ensures NameAt(b, i) <= |b| && ElementAt(b', i) == ElementAt(b, i)
  {
    hide Word;
    PairKept(b, b', sid, name, i);
    var o := NameAt(b, i);
    var k: nat :| o <= k < |b| && b[k] == 0;
    CStringSame(b, o, b', 8, k);
  }

  lemma NewElementThere(b: seq<byte>, b': seq<byte>, sid: word, name: seq<byte>)
    requires Added(b, b', sid, name) && NulFree(name)
    ensures var n := Word(b, 0);
            NameAt(b', n) == |b| + 8 && Terminated(b', |b| + 8) && ElementAt(b', n) == Element(sid, name)
  {
    hide WellFormed;
    CStringIs(b', |b| + 8, name);
  }

  // The new directory reads as the old one and the new element at its end.
  lemma AddDecodes(b: seq<byte>, b': seq<byte>, sid: word, name: seq<byte>)
    requires Added(b, b', sid, name) && NulFree(name)
    ensures WellFormed(b') && Decode(b') == Decode(b) + [Element(sid, name)]
  {
    hide Word, ElementAt, Terminated, NulFree;
    var n := Word(b, 0);
    forall i: nat | i < n
      ensures NameAt(b', i) <= |b'| && Terminated(b', NameAt(b', i)) && NameAt(b, i) <= |b|
              && ElementAt(b', i) == ElementAt(b, i)
    {
      OldElementKept(b, b', sid, name, i);
    }
    NewElementThere(b, b', sid, name);
  }
}
