/** What the keys of the editor do to the text (rim.c). */
module RimKeys {
  import opened RimText
  import opened RimTabs
  import opened RimFile
  import opened RimView

  datatype Key = Char(ch: byte) | Tab | Newline | Delete | Backspace | Left | Right | Home | End

  // A character key gives no tab and no byte beyond the sign bit.
  predicate Typable(key: Key) { key.Char? ==> 0 < key.ch < 128 && key.ch != TAB }

  function Press(t: Text, key: Key): Text {
    match key
    case Char(ch) => t.(left := t.left + [ch])
    case Tab => t.(left := t.left + [TAB])
    case Newline => Broken(t)
    case Delete => if t.right == [] then t else t.(right := t.right[1..])
    case Backspace => Erased(t)
    case Left =>
      if t.left == [] then t
      else t.(left := t.left[..|t.left| - 1], right := [t.left[|t.left| - 1]] + t.right)
    case Right => if t.right == [] then t else t.(left := t.left + [t.right[0]], right := t.right[1..])
    case Home => t.(left := [], right := t.left + t.right)
    case End => t.(left := t.left + t.right, right := [])
  }

  function PressAll(t: Text, keys: seq<Key>): Text
    decreases keys
  {
    if keys == [] then t else PressAll(Press(t, keys[0]), keys[1..])
  }

  lemma {:induction false} PressNext(t: Text, keys: seq<Key>, i: nat)
    requires i < |keys|
    ensures PressAll(t, keys[..i + 1]) == Press(PressAll(t, keys[..i]), keys[i])
    decreases i
  {
    hide Press;
    if i == 0 {
      assert keys[..1][1..] == [];
    } else {
      PressNext(Press(t, keys[0]), keys[1..], i - 1);
      assert keys[..i + 1][1..] == keys[1..][..i] && keys[..i][1..] == keys[1..][..i - 1];
    }
  }

  // Keys that move the cursor change no line, and this is where they leave it.
  lemma MovesKeepText(t: Text, key: Key)
    requires key in {Left, Right, Home, End}
    ensures var u := Press(t, key);
            && Lines(u) == Lines(t) && u.above == t.above && u.below == t.below
            && |u.left| == match key
                 case Left => if t.left == [] then 0 else |t.left| - 1
                 case Right => if t.right == [] then |t.left| else |t.left| + 1
                 case Home => 0
                 case _ => |t.left + t.right|
  {
    var u := Press(t, key);
    assert u.left + u.right == t.left + t.right;
  }

  // What one key does, another undoes.
  lemma KeysUndo(t: Text, ch: byte)
    ensures Press(Press(t, Char(ch)), Backspace) == Press(Press(t, Tab), Backspace) == t
    ensures Press(Press(t, Newline), Backspace) == t
    ensures t.left != [] ==> Press(Press(t, Left), Right) == t && Press(Press(t, Left), Delete) == Press(t, Backspace)
    ensures t.right != [] ==> Press(Press(t, Right), Left) == t && Press(Press(t, Right), Backspace) == Press(t, Delete)
  {
    assert t.above + [t.left] != [] && (t.above + [t.left])[..|t.above|] == t.above;
    if t.left != [] { assert t.left[..|t.left| - 1] + [t.left[|t.left| - 1]] == t.left; }
    if t.right != [] { assert [t.right[0]] + t.right[1..] == t.right; }
  }

  // The lines of a file.
  function LinesOf(bytes: seq<byte>): (r: seq<seq<byte>>)
    ensures r != []
  {
    if bytes == [] then [[]]
    else
      var rest := LinesOf(bytes[1..]);
      if bytes[0] == NEWLINE then [[]] + rest else [[bytes[0]] + rest[0]] + rest[1..]
  }

  // A file opened at a line, the last one if it has fewer.
  function Opened(bytes: seq<byte>, startLine: nat): Text
    requires startLine >= 1
  {
    var lines := LinesOf(bytes);
    var k := (if startLine < |lines| then startLine else |lines|) - 1;
    Text(lines[..k], [], lines[k], lines[k + 1..])
  }

  // The lines joined by line breaks are the file.
  lemma {:induction false} LinesJoined(bytes: seq<byte>)
    ensures Joined(LinesOf(bytes)) == bytes
  {
    if bytes == [] {
    } else {
      var rest := LinesOf(bytes[1..]);
      LinesJoined(bytes[1..]);
      assert [bytes[0]] + bytes[1..] == bytes;
    }
  }

  // What is loaded are those lines.
  lemma {:induction false} LoadedLines(bytes: seq<byte>, col: nat)
    ensures Sized(LoadRows(bytes, col)) && RowTexts(LoadRows(bytes, col)) == LinesOf(bytes)
    decreases bytes
  {
    hide Padded, SavedCells, RowText, RowTexts, Glue;
    EndText();
    if bytes == [] {
      FirstText([END], []);
    } else if bytes[0] == NEWLINE {
      LoadedLines(bytes[1..], 0);
      FirstText([BREAK], LoadRows(bytes[1..], 0));
    } else {
      var p := Padded(Read(bytes[0]), col);
      LoadedLines(bytes[1..], col + |p|);
      GluedText(p, LoadRows(bytes[1..], col + |p|));
      SavedPadded(Read(bytes[0]), col);
    }
  }

  lemma EndText()
    ensures RowText([END]) == [] && RowText([BREAK]) == []
  {
  }

  lemma FirstText(row: Row, rows: seq<Row>)
    requires |row| >= 1 && Sized(rows)
    ensures Sized([row] + rows) && RowTexts([row] + rows) == [RowText(row)] + RowTexts(rows)
    ensures [row] + [] == [row] && RowTexts([]) == [] && [RowText(row)] + [] == [RowText(row)]
  {
    hide RowText;
  }

  lemma GluedText(p: Line, rows: seq<Row>)
    requires rows != [] && Sized(rows)
    ensures Sized(Glue(p, rows))
    ensures RowTexts(Glue(p, rows)) == [SavedCells(p) + RowTexts(rows)[0]] + RowTexts(rows)[1..]
  {
    hide SavedCells, RowTexts;
    assert Body(p + rows[0]) == p + Body(rows[0]);
    SavedJoin(p, Body(rows[0]));
    FirstText(p + rows[0], rows[1..]);
    FirstText(rows[0], rows[1..]);
    assert [rows[0]] + rows[1..] == rows;
  }

  // Keys typed at the very start of a file.
  lemma TypedAhead(bytes: seq<byte>, keys: seq<byte>, typed: seq<Key>)
    requires typed == seq(|keys|, i requires 0 <= i < |keys| => Char(keys[i]))
    ensures Joined(Lines(PressAll(Opened(bytes, 1), typed))) == keys + bytes
  {
    hide Joined;
    var t := Opened(bytes, 1);
    PressTyped(t, keys, typed);
    LinesJoined(bytes);
    var lines := LinesOf(bytes);
    assert [] + lines[0] == lines[0] && lines == [] + [lines[0]] + lines[1..];
    JoinedAhead(t, keys);
    assert [] + keys == keys;
  }

  lemma {:induction false} PressTyped(t: Text, keys: seq<byte>, typed: seq<Key>)
    requires |typed| == |keys| && forall i :: 0 <= i < |keys| ==> typed[i] == Char(keys[i])
    ensures PressAll(t, typed) == t.(left := t.left + keys)
    decreases typed
  {
    if typed == [] {
      assert t.left + keys == t.left;
    } else {
      PressTyped(Press(t, typed[0]), keys[1..], typed[1..]);
      assert t.left + [keys[0]] + keys[1..] == t.left + keys;
    }
  }

  lemma JoinedAhead(t: Text, keys: seq<byte>)
    requires t.above == [] && t.left == []
    ensures Joined(Lines(t.(left := keys))) == keys + Joined(Lines(t))
  {
    var a, b := Lines(t.(left := keys)), Lines(t);
    assert a[1..] == b[1..] == t.below && a[0] == keys + b[0];
  }
}
