/** Path lookup (usg_ptsid.c): the recursive search, and the walk along path components it amounts to. */
module Paths {
  import opened Layout
  import opened Directory
  import opened Filesystem
  import opened DirectoryOps

  const SLASH: byte := 47

  // What a lookup sees: the containers' bytes and which ids name directories.
  datatype Tree = Tree(files: map<nat, seq<byte>>, dirs: set<word>)

  ghost predicate TreeOk(t: Tree) {
    forall d :: d in t.dirs ==> SidSector(d) in t.files && WellFormed(t.files[SidSector(d)])
  }

  ghost function Listing(t: Tree, sid: word): seq<Element>
    requires TreeOk(t)
  {
    if sid in t.dirs then Decode(t.files[SidSector(sid)]) else []
  }

  // A directory with something in it.
  ghost predicate Usable(t: Tree, sid: word)
    requires TreeOk(t)
  {
    sid in t.dirs && Listing(t, sid) != []
  }

  // ------------------------------------------------------------- the code's search

  // Where the first component ends ...
  function FirstSlash(path: seq<byte>): (i: nat)
    ensures i <= |path| && (i < |path| ==> path[i] == SLASH)
    ensures forall j :: 0 <= j < i ==> path[j] != SLASH
  {
    if path == [] || path[0] == SLASH then 0 else 1 + FirstSlash(path[1..])
  }

  // ... and where the slashes after it end.
  function SkipSlashes(path: seq<byte>, i: nat): (k: nat)
    requires i <= |path|
    ensures i <= k <= |path| && (i < |path| && path[i] == SLASH ==> k > i)
    ensures (forall j :: i <= j < k ==> path[j] == SLASH) && (k < |path| ==> path[k] != SLASH)
    decreases |path| - i
  {
    if i < |path| && path[i] == SLASH then SkipSlashes(path, i + 1) else i
  }

  // The entry the loop stops at.
  ghost predicate Stops(t: Tree, e: Element, path: seq<byte>)
    requires TreeOk(t)
  {
    e.name == path || (e.name == path[..FirstSlash(path)] && Usable(t, e.sid))
  }

  ghost function FirstStop(t: Tree, es: seq<Element>, path: seq<byte>): (j: nat)
    requires TreeOk(t)
    ensures j <= |es| && (j < |es| ==> Stops(t, es[j], path)) && forall k :: 0 <= k < j ==> !Stops(t, es[k], path)
  {
    if es == [] || Stops(t, es[0], path) then 0 else 1 + FirstStop(t, es[1..], path)
  }

  ghost function Lookup(t: Tree, parent: word, path: seq<byte>): word
    requires TreeOk(t)
    decreases |path|
  {
    var es := Listing(t, parent);
    var j := FirstStop(t, es, path);
    if j == |es| then SID_NULL
    else if es[j].name == path then es[j].sid
    else
      RestShorter(path, es[j].name);
      Lookup(t, es[j].sid, path[SkipSlashes(path, FirstSlash(path))..])
  }

  // The search goes on with a strictly shorter path, so it ends.
  lemma RestShorter(path: seq<byte>, name: seq<byte>)
    requires name == path[..FirstSlash(path)] && name != path
    ensures |path[SkipSlashes(path, FirstSlash(path))..]| < |path|
  {
  }

  // ----------------------------------------------------------------- the walk meant

  // Going down component by component: through the first usable entry of that name, and at the
  // last one to the first entry of that name.
  ghost predicate Takes(t: Tree, e: Element, name: seq<byte>, last: bool)
    requires TreeOk(t)
  {
    e.name == name && (last || Usable(t, e.sid))
  }

  ghost function FirstTaken(t: Tree, es: seq<Element>, name: seq<byte>, last: bool): (j: nat)
    requires TreeOk(t)
    ensures j <= |es| && (j < |es| ==> Takes(t, es[j], name, last))
    ensures forall k :: 0 <= k < j ==> !Takes(t, es[k], name, last)
  {
    if es == [] || Takes(t, es[0], name, last) then 0 else 1 + FirstTaken(t, es[1..], name, last)
  }

  ghost function Walk(t: Tree, sid: word, names: seq<seq<byte>>): word
    requires TreeOk(t) && names != []
    decreases |names|
  {
    var es := Listing(t, sid);
    var j := FirstTaken(t, es, names[0], |names| == 1);
    if j == |es| then SID_NULL
    else if |names| == 1 then es[j].sid
    else Walk(t, es[j].sid, names[1..])
  }

  predicate SlashFree(name: seq<byte>) { forall i :: 0 <= i < |name| ==> name[i] != SLASH }

  function Slashes(n: nat): seq<byte> { seq(n, _ => SLASH) }

  // names[0] / names[1] / ..., with gaps[i] + 1 slashes after the i-th name.
  function Joined(names: seq<seq<byte>>, gaps: seq<nat>): seq<byte>
    requires |names| == |gaps| + 1
  {
    if |names| == 1 then names[0] else names[0] + Slashes(gaps[0] + 1) + Joined(names[1..], gaps[1..])
  }

  // Names in directories have no slash and are not empty.
  ghost predicate PlainNames(t: Tree)
    requires TreeOk(t)
  {
    forall d: word, j: nat :: d in t.dirs && j < |Listing(t, d)| ==>
      SlashFree(Listing(t, d)[j].name) && Listing(t, d)[j].name != []
  }

  // Components without slashes; only the last may be empty, when the path ends in a slash.
  predicate PlainPath(names: seq<seq<byte>>) {
    names != [] && forall i :: 0 <= i < |names| ==> SlashFree(names[i]) && (i < |names| - 1 ==> names[i] != [])
  }

  lemma JoinedHead(names: seq<seq<byte>>, gaps: seq<nat>)
    requires |names| == |gaps| + 1 && PlainPath(names)
    ensures Joined(names, gaps) == [] || Joined(names, gaps)[0] != SLASH
  {
  }

  lemma JoinedParts(names: seq<seq<byte>>, gaps: seq<nat>)
    requires |names| == |gaps| + 1 && |names| > 1 && PlainPath(names)
    ensures var p := Joined(names, gaps);
            FirstSlash(p) == |names[0]| < |p| && p[..FirstSlash(p)] == names[0] && p[|names[0]|] == SLASH
            && p[SkipSlashes(p, FirstSlash(p))..] == Joined(names[1..], gaps[1..])
  {
    hide FirstSlash, SkipSlashes, SlashFree, Slashes;
    JoinedHead(names[1..], gaps[1..]);
    GluedParts(names[0], gaps[0] + 1, Joined(names[1..], gaps[1..]));
  }

  lemma GluedParts(name: seq<byte>, m: nat, rest: seq<byte>)
    requires SlashFree(name) && m > 0 && (rest == [] || rest[0] != SLASH)
    ensures var p := name + Slashes(m) + rest;
            FirstSlash(p) == |name| < |p| && p[..FirstSlash(p)] == name && p[|name|] == SLASH
            && p[SkipSlashes(p, FirstSlash(p))..] == rest
  {
    hide FirstSlash, SkipSlashes, SlashFree;
    var tail := Slashes(m) + rest;
    assert name + Slashes(m) + rest == name + tail;
    FirstSlashIs(name, tail);
    SkipIs(name, m, rest);
  }

  lemma {:induction false} FirstSlashIs(name: seq<byte>, tail: seq<byte>)
    requires SlashFree(name) && tail != [] && tail[0] == SLASH
    ensures FirstSlash(name + tail) == |name| && (name + tail)[..|name|] == name
  {
  }

  lemma SkipIs(name: seq<byte>, m: nat, rest: seq<byte>)
    requires rest == [] || rest[0] != SLASH
    ensures SkipSlashes(name + Slashes(m) + rest, |name|) == |name| + m
  {
    SkipTo(name + Slashes(m) + rest, |name|, |name| + m);
  }

  lemma {:induction false} SkipTo(p: seq<byte>, i: nat, k: nat)
    requires i <= k <= |p| && (forall j :: i <= j < k ==> p[j] == SLASH) && (k < |p| ==> p[k] != SLASH)
    ensures SkipSlashes(p, i) == k
    decreases k - i
  {
  }

  // Stopping and taking are the same thing where names are plain.
  lemma StopsTakes(t: Tree, e: Element, names: seq<seq<byte>>, gaps: seq<nat>)
    requires TreeOk(t) && |names| == |gaps| + 1 && PlainPath(names) && SlashFree(e.name)
    ensures Stops(t, e, Joined(names, gaps)) <==> Takes(t, e, names[0], |names| == 1)
    ensures |names| > 1 ==> e.name != Joined(names, gaps)
  {
    var p := Joined(names, gaps);
    if |names| == 1 {
      assert FirstSlash(p) == |p|;
      assert p[..|p|] == p;
    } else {
      JoinedParts(names, gaps);
    }
  }

  lemma {:induction false} SameStop(t: Tree, es: seq<Element>, names: seq<seq<byte>>, gaps: seq<nat>)
    requires TreeOk(t) && |names| == |gaps| + 1 && PlainPath(names)
    requires forall j :: 0 <= j < |es| ==> SlashFree(es[j].name)
    ensures FirstStop(t, es, Joined(names, gaps)) == FirstTaken(t, es, names[0], |names| == 1)
  {
    if es == [] {
    } else {
      StopsTakes(t, es[0], names, gaps);
      SameStop(t, es[1..], names, gaps);
    }
  }

  // For plain names the search is the walk along the components.
  lemma {:induction false} LookupIsWalk(t: Tree, sid: word, names: seq<seq<byte>>, gaps: seq<nat>)
    requires TreeOk(t) && PlainNames(t) && |names| == |gaps| + 1 && PlainPath(names)
    ensures Lookup(t, sid, Joined(names, gaps)) == Walk(t, sid, names)
    decreases |names|
  {
    hide PlainPath, Joined, Stops, Takes;
    var es, p := Listing(t, sid), Joined(names, gaps);
    SameStop(t, es, names, gaps);
    var j := FirstStop(t, es, p);
    if j < |es| {
      if |names| > 1 {
        JoinedParts(names, gaps);
        PlainTail(names);
        LookupIsWalk(t, es[j].sid, names[1..], gaps[1..]);
      } else {
        OneName(names, gaps, es[j], t);
      }
    }
  }

  lemma PlainTail(names: seq<seq<byte>>)
    requires PlainPath(names) && |names| > 1
    ensures PlainPath(names[1..])
  {
  }

  lemma OneName(names: seq<seq<byte>>, gaps: seq<nat>, e: Element, t: Tree)
    requires TreeOk(t) && |names| == 1 && gaps == [] && Takes(t, e, names[0], true)
    ensures e.name == Joined(names, gaps)
  {
  }

  // ---------------------------------------------------------------------- the code

  ghost function TreeOf(fs: Filesys): (t: Tree)
    requires fs.Valid() && DirsOk(fs)
    reads fs, fs.disk
    ensures TreeOk(t)
  {
    hide Filesys.Valid, Filesys.Files, Filesys.Metas, WellFormed;
    DirsAre(fs);
    Tree(fs.Files(), Dirs(fs.disk.id, fs.Metas()))
  }

  // The ids of directories.
  ghost function Dirs(id: nat, metas: map<nat, seq<byte>>): set<word> {
    if id >= 256 then {}
    else set h | h in metas && h < MAX_SECTORS && metas[h] != [] && metas[h][0] == DIR_MARK :: SidFormat(id, h)
  }

  lemma DirsAre(fs: Filesys)
    requires fs.Valid()
    ensures forall sid: word :: sid in Dirs(fs.disk.id, fs.Metas()) <==> IsDirectory(fs, sid)
  {
    hide Filesys.Valid, Filesys.Files;
    var metas := fs.Metas();
    forall sid: word ensures sid in Dirs(fs.disk.id, metas) <==> IsDirectory(fs, sid) {
      if IsDirectory(fs, sid) { DirectoryId(fs, sid); }
      if sid in Dirs(fs.disk.id, metas) {
        var h :| h in metas && h < MAX_SECTORS && metas[h] != [] && metas[h][0] == DIR_MARK
          && sid == SidFormat(fs.disk.id, h);
        SidRoundTrip(fs.disk.id, h);
      }
    }
  }

  lemma DirectoryId(fs: Filesys, sid: word)
    requires fs.Valid() && IsDirectory(fs, sid)
    ensures 0 < fs.disk.id < 256 && SidSector(sid) in fs.cnts && SidSector(sid) < MAX_SECTORS
    ensures sid == SidFormat(fs.disk.id, SidSector(sid))
  {
  }

  method CutName(path: seq<byte>) returns (end: nat, next: nat)
    ensures end == FirstSlash(path) && next == SkipSlashes(path, end)
  {
    var i := 0;
    while i < |path| && path[i] != SLASH
      invariant i <= |path| && forall j :: 0 <= j < i ==> path[j] != SLASH
    {
      i := i + 1;
    }
    end := i;
    while i < |path| && path[i] == SLASH
      invariant end <= i <= |path| && forall j :: end <= j < i ==> path[j] == SLASH
      invariant i > end ==> end < |path| && path[end] == SLASH
    {
      i := i + 1;
    }
    next := i;
  }

  // A directory that is read and found to have elements is usable.
  lemma UsableIs(fs: Filesys, sid: word)
    requires fs.Valid() && DirsOk(fs) && IsDirectory(fs, sid)
    ensures Listing(TreeOf(fs), sid) == Decode(fs.File(sid)) && SidSector(sid) < |fs.disk.used|
    ensures |fs.File(sid)| < 0xFFFF_FFFF && fs.IsFile(sid)
  {
    hide WellFormed, Decode, Filesys.Valid, Filesys.Files, Filesys.Metas, Dirs;
    FileWithin(fs, sid);
    DirsAre(fs);
  }

  lemma {:induction false} StopAt(t: Tree, es: seq<Element>, path: seq<byte>, j: nat)
    requires TreeOk(t) && j <= |es| && (forall k :: 0 <= k < j ==> !Stops(t, es[k], path))
             && (j < |es| ==> Stops(t, es[j], path))
    ensures FirstStop(t, es, path) == j
  {
  }

  // kfu_is_dir, then kfu_get_dir_content for the count alone.
  method CanEnter(fs: Filesys, sid: word, ghost t: Tree) returns (enter: bool)
    requires fs.Valid() && DirsOk(fs) && t == TreeOf(fs)
    modifies fs, fs.disk
    ensures fs.Valid() && fs.cnts == old(fs.cnts) && fs.Metas() == old(fs.Metas()) && fs.Files() == old(fs.Files())
            && fs.disk.View() == old(fs.disk.View())
    ensures DirsOk(fs) && (enter <==> Usable(t, sid)) && (enter ==> SidSector(sid) < |fs.disk.used|)
  {
    hide Filesys.Valid, Filesys.Files, Filesys.Metas, WellFormed, Decode;
    DirsAre(fs);
    var isDir := IsDir(fs, sid);
    if !isDir { return false; }
    if IsDirectory(fs, sid) { UsableIs(fs, sid); }
    var n, _ := GetDirContent(fs, sid, false);
    enter := n > 0;
  }

  method RecPathToSid(fs: Filesys, parent: word, path: seq<byte>) returns (ret: word)
    requires fs.Valid() && DirsOk(fs) && fs.disk.Within(parent)
    modifies fs, fs.disk
    ensures fs.Valid() && fs.cnts == old(fs.cnts) && fs.Metas() == old(fs.Metas()) && fs.Files() == old(fs.Files())
            && fs.disk.View() == old(fs.disk.View())
    ensures ret == Lookup(old(TreeOf(fs)), parent, path)
    decreases |path|, 1
  {
    hide Filesys.Valid, Filesys.Files, Filesys.Metas, WellFormed, Decode, FirstSlash, SkipSlashes, Stops, Lookup,
         FirstStop, Usable;
    ghost var t := TreeOf(fs);
    var size := fs.GetSize(parent);
    DirsAre(fs);
    if IsDirectory(fs, parent) { UsableIs(fs, parent); } else { LookupNothing(t, parent, [], path); }
    if size == 0xFFFF_FFFF { return SID_NULL; }
    var end, next := CutName(path);
    var count, es := GetDirContent(fs, parent, true);
    if count < 1 {
      LookupNothing(t, parent, [], path);
      return SID_NULL;
    }
    ret := SearchEntries(fs, parent, path, es, end, next, t);
  }

  // Its loop over the entries.
  method SearchEntries(fs: Filesys, ghost parent: word, path: seq<byte>, es: seq<Element>, end: nat,
                       next: nat, ghost t: Tree)
      returns (ret: word)
    requires fs.Valid() && DirsOk(fs) && t == TreeOf(fs)
    requires es == Listing(t, parent) && end == FirstSlash(path) && next == SkipSlashes(path, end)
    modifies fs, fs.disk
    ensures fs.Valid() && fs.cnts == old(fs.cnts) && fs.Metas() == old(fs.Metas()) && fs.Files() == old(fs.Files())
            && fs.disk.View() == old(fs.disk.View())
    ensures ret == Lookup(t, parent, path)
    decreases |path|, 0
  {
    hide Filesys.Valid, Filesys.Files, Filesys.Metas, WellFormed, Decode, FirstSlash, SkipSlashes, Stops, Lookup,
         FirstStop, Usable,
         Listing;
    var name := path[..end];
    var j := 0;
    while j < |es|
      invariant j <= |es| && fs.Valid() && fs.cnts == old(fs.cnts) && fs.Metas() == old(fs.Metas())
                && fs.Files() == old(fs.Files())
                && fs.disk.View() == old(fs.disk.View())
      invariant DirsOk(fs) && t == TreeOf(fs)
      invariant forall k :: 0 <= k < j ==> !Stops(t, es[k], path)
    {
      StopsIf(t, es[j], path);
      if path == es[j].name {
        LookupFound(t, parent, es, path, j);
        return es[j].sid;
      }
      if name == es[j].name {
        var enter := CanEnter(fs, es[j].sid, t);
        if enter {
          LookupDown(t, parent, es, path, j);
          ret := RecPathToSid(fs, es[j].sid, path[next..]);
          return;
        }
      }
      j := j + 1;
    }
    LookupNothing(t, parent, es, path);
    ret := SID_NULL;
  }

  lemma LookupNothing(t: Tree, parent: word, es: seq<Element>, path: seq<byte>)
    requires TreeOk(t) && es == Listing(t, parent) && forall k :: 0 <= k < |es| ==> !Stops(t, es[k], path)
    ensures Lookup(t, parent, path) == SID_NULL
  {
  }

  lemma LookupFound(t: Tree, parent: word, es: seq<Element>, path: seq<byte>, j: nat)
    requires TreeOk(t) && es == Listing(t, parent) && j < |es| && es[j].name == path
    requires forall k :: 0 <= k < j ==> !Stops(t, es[k], path)
    ensures Lookup(t, parent, path) == es[j].sid
  {
  }

  lemma LookupDown(t: Tree, parent: word, es: seq<Element>, path: seq<byte>, j: nat)
    requires TreeOk(t) && es == Listing(t, parent) && j < |es| && es[j].name != path && Stops(t, es[j], path)
    requires forall k :: 0 <= k < j ==> !Stops(t, es[k], path)
    ensures Lookup(t, parent, path) == Lookup(t, es[j].sid, path[SkipSlashes(path, FirstSlash(path))..])
  {
    hide Listing;
    StopAt(t, es, path, j);
  }

  lemma StopsIf(t: Tree, e: Element, path: seq<byte>)
    requires TreeOk(t)
    ensures Stops(t, e, path) <==> e.name == path || (e.name == path[..FirstSlash(path)] && Usable(t, e.sid))
  {
  }

  method PathToSid(fs: Filesys, from: word, path: seq<byte>) returns (ret: word)
    requires fs.Valid() && DirsOk(fs) && fs.disk.Within(from)
    modifies fs, fs.disk
    ensures fs.Valid() && fs.cnts == old(fs.cnts) && fs.Metas() == old(fs.Metas()) && fs.Files() == old(fs.Files())
            && fs.disk.View() == old(fs.disk.View())
    ensures ret == PathSid(old(TreeOf(fs)), from, path)
    ensures path == [SLASH] ==> SidDisk(ret) == 1 && SidSector(ret) == 0
  {
    hide Filesys.Valid, Filesys.Files, Filesys.Metas;
    if [SLASH] == path {
      ret := SidFormat(1, 0);
    } else if path != [] && path[0] == SLASH {
      ret := RecPathToSid(fs, from, path[1..]);
    } else {
      ret := RecPathToSid(fs, from, path);
    }
  }

  // "/" is the root; one leading slash is dropped, and the search starts where it was asked to.
  ghost function PathSid(t: Tree, from: word, path: seq<byte>): word
    requires TreeOk(t)
  {
    if path == [SLASH] then SidFormat(1, 0)
    else if path != [] && path[0] == SLASH then Lookup(t, from, path[1..])
    else Lookup(t, from, path)
  }

  // Absolute or relative, the lookup of a joined path is the walk from the directory given.
  lemma PathIsWalk(t: Tree, from: word, names: seq<seq<byte>>, gaps: seq<nat>)
    requires TreeOk(t) && PlainNames(t) && |names| == |gaps| + 1 && PlainPath(names) && names[0] != []
    ensures PathSid(t, from, Joined(names, gaps)) == Walk(t, from, names)
    ensures PathSid(t, from, [SLASH] + Joined(names, gaps)) == Walk(t, from, names)
  {
    hide Lookup, Walk;
    LookupIsWalk(t, from, names, gaps);
    JoinedHead(names, gaps);
    var p := Joined(names, gaps);
    assert p != [] by { if |names| > 1 { JoinedParts(names, gaps); } }
  }
}
