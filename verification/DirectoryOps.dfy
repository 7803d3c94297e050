/** Reading and extending directories through the file system (usg_dir.c). */
module DirectoryOps {
  import opened Layout
  import opened VirtualDisk
  import opened Directory
  import opened Filesystem
  import opened Containers
  import CtrSize

  const DIR_MARK: byte := 68   // 'D'

  // A container whose header says so.
  ghost predicate IsDirectory(fs: Filesys, sid: word)
    requires fs.Valid()
    reads fs, fs.disk
  {
    fs.IsFile(sid) && fs.Metas()[SidSector(sid)][0] == DIR_MARK
  }

  // kfu_is_dir, which looks at the sector whatever it is.
  method IsDir(fs: Filesys, sid: word) returns (yes: bool)
    requires fs.Valid()
    ensures yes <==> fs.disk.Holds(sid) && Meta(fs.disk.sectors[SidSector(sid)])[0] == DIR_MARK
    ensures fs.IsFile(sid) ==> (yes <==> IsDirectory(fs, sid))
  {
    hide DiskOk, FsOk, Meta;
    if sid == SID_NULL { return false; }
    var found, meta := fs.GetMeta(sid);
    if !found { return false; }
    yes := meta[0] == DIR_MARK;
  }

  // mem_copy of a word
  method PutWord(buf: array<byte>, o: nat, v: word)
    requires o + 4 <= buf.Length
    modifies buf
    ensures buf[..] == SetWord(old(buf[..]), o, v)
  {
    var bs := Bytes4(v);
    buf[o], buf[o + 1], buf[o + 2], buf[o + 3] := bs[0], bs[1], bs[2], bs[3];
  }

  // The overlapping shift of the name area by the size of one pair, from its end.
  method MoveNames(buf: array<byte>, size: nat, from: nat)
    requires 1 <= from <= size && size + 8 <= buf.Length
    modifies buf
    ensures forall q :: 0 <= q < from ==> buf[q] == old(buf[q])
    ensures forall q :: from <= q < size ==> buf[q + 8] == old(buf[q])
  {
    var i: int := size - 1;
    while i >= from
      invariant from - 1 <= i < size
      invariant forall q :: 0 <= q <= i ==> buf[q] == old(buf[q])
      invariant forall q :: i < q < size ==> buf[q + 8] == old(buf[q])
    {
      buf[i + 8] := buf[i];
      i := i - 1;
    }
  }

  // str_cpy
  method PutName(buf: array<byte>, o: nat, name: seq<byte>)
    requires o + |name| + 1 <= buf.Length
    modifies buf
    ensures buf[..] == Put(old(buf[..]), o, name + [0])
  {
    var i := 0;
    while i < |name|
      invariant i <= |name|
      invariant forall q :: 0 <= q < buf.Length ==> buf[q] == if o <= q < o + i then name[q - o] else old(buf[q])
    {
      buf[o + i] := name[i];
      i := i + 1;
    }
    buf[o + i] := 0;
  }

  lemma Assembled(b: seq<byte>, b1: seq<byte>, b': seq<byte>, sid: word, name: seq<byte>)
    requires WellFormed(b) && |b1| == |b| + 8 + |name| + 1 && |b1| < 0x1_0000_0000
    requires forall q :: 0 <= q < NamesAt(Word(b, 0)) ==> b1[q] == b[q]
    requires Word(b, 0) > 0 ==> forall q :: NamesAt(Word(b, 0)) <= q < |b| ==> b1[q + 8] == b[q]
    requires Word(b, 0) == 0 ==> forall q :: 0 <= q < |b| ==> b1[q] == b[q]
    requires var n: int := Word(b, 0);
             b' == Put(SetWord(SetWord(SetWord(b1, 4 + 8 * n, sid), 8 + 8 * n, |b| - NamesAt(n)), 0, n + 1), |b| + 8,
                       name + [0])
    ensures Added(b, b', sid, name)
  {
    hide WellFormed, Word, Bytes4;
    CountBounded(b);
    var n: int := Word(b, 0);
    var b4 := SetWord(SetWord(SetWord(b1, 4 + 8 * n, sid), 8 + 8 * n, |b| - NamesAt(n)), 0, n + 1);
    ThreeWords(b1, n, sid, |b| - NamesAt(n));
    SameWord(b4, b', 0);
    SameWord(b4, b', 4 + 8 * n);
    SameWord(b4, b', 8 + 8 * n);
  }

  // The count, and the new pair's id and name offset.
  lemma ThreeWords(b1: seq<byte>, n: nat, sid: word, offset: word)
    requires 12 + 8 * n <= |b1| && n + 1 < 0x1_0000_0000
    ensures var b4 := SetWord(SetWord(SetWord(b1, 4 + 8 * n, sid), 8 + 8 * n, offset), 0, n + 1);
            Word(b4, 0) == n + 1 && Word(b4, 4 + 8 * n) == sid && Word(b4, 8 + 8 * n) == offset
  {
    hide Word, Bytes4;
    var b2 := SetWord(b1, 4 + 8 * n, sid);
    var b3 := SetWord(b2, 8 + 8 * n, offset);
    SetWordSame(b1, 4 + 8 * n, sid);
    SetWordOther(b2, 8 + 8 * n, offset, 4 + 8 * n);
    SetWordOther(b3, 0, n + 1, 4 + 8 * n);
    SetWordSame(b2, 8 + 8 * n, offset);
    SetWordOther(b3, 0, n + 1, 8 + 8 * n);
    SetWordSame(b3, 0, n + 1);
  }

  // The part of kfu_add_element_to_dir that works on the buffer.
  method AddPair(buf: array<byte>, size: nat, sid: word, name: seq<byte>)
    requires size <= buf.Length && WellFormed(buf[..size]) && buf.Length == size + 8 + |name| + 1 < 0x1_0000_0000
    modifies buf
    ensures Added(old(buf[..size]), buf[..], sid, name)
  {
    hide WellFormed, Added, Bytes4, Word, SetWord, Put;
    ghost var b := buf[..size];
    CountBounded(b);
    SameWord(b, buf[..], 0);
    var count: int := Word(buf[..], 0);
    if count > 0 {
      MoveNames(buf, size, NamesAt(count));
    }
    ghost var b1 := buf[..];
    PutWord(buf, 4 + 8 * count, sid);
    var nameOffset := size - NamesAt(count);
    PutWord(buf, 8 + 8 * count, nameOffset);
    PutWord(buf, 0, count + 1);
    PutName(buf, NamesAt(count + 1) + nameOffset, name);
    Assembled(b, b1, buf[..], sid, name);
  }

  lemma CountBounded(b: seq<byte>)
    requires WellFormed(b)
    ensures |b| >= 4 && 4 <= NamesAt(Word(b, 0)) <= |b|
  {
  }

  lemma FileWithin(fs: Filesys, sid: word)
    requires fs.Valid() && fs.IsFile(sid)
    ensures fs.disk.Within(sid) && SidSector(sid) < |fs.disk.used|
  {
    hide DiskOk, ContainerOk, FsOk;
    HeadOf(fs.disk.View(), fs.disk.id, fs.cnts, SidSector(sid));
  }

  lemma WholePut(f: seq<byte>, b: seq<byte>)
    requires |b| == |f|
    ensures Put(f, 0, b) == b
  {
  }

  // The disk has room for a directory of `size` bytes that gets a name of this length.
  ghost predicate CanGrow(d: Disk, size: nat, len: nat) {
    size + 8 + len + 1 < 0xFFFF_FFFF && HasRoom(d, 2 * CtrSize.WantedCores(size + 8 + len + 1))
  }

  // The old elements, then the new one.
  ghost predicate ElementAdded(b: seq<byte>, b': seq<byte>, e: Element) {
    WellFormed(b) && WellFormed(b') && Decode(b') == Decode(b) + [e] && |b'| == |b| + 8 + |e.name| + 1
  }

  // What is called a directory holds a well-formed one.
  ghost predicate AllWellFormed(metas: map<nat, seq<byte>>, files: map<nat, seq<byte>>) {
    forall h :: h in metas && h in files && metas[h] != [] && metas[h][0] == DIR_MARK ==>
      WellFormed(files[h]) && |files[h]| < 0xFFFF_FFFF
  }

  ghost predicate DirsOk(fs: Filesys)
    requires fs.Valid()
    reads fs, fs.disk
  {
    AllWellFormed(fs.Metas(), fs.Files())
  }

  // kfu_add_element_to_dir
  method AddElement(fs: Filesys, dirSid: word, elementSid: word, name: seq<byte>) returns (ret: int)
    requires fs.Valid() && NulFree(name)
    requires IsDirectory(fs, dirSid) ==>
             WellFormed(fs.File(dirSid)) && CanGrow(fs.disk.View(), |fs.File(dirSid)|, |name|)
    modifies fs, fs.disk
    ensures fs.Valid() && fs.Metas() == old(fs.Metas())
    ensures ret == if elementSid == SID_NULL || !old(IsDirectory(fs, dirSid)) then 1 else 0
    ensures ret == 1 ==> fs.Files() == old(fs.Files())
    ensures ret == 0 ==> fs.IsFile(dirSid) && fs.Files() == old(fs.Files())[SidSector(dirSid) := fs.File(dirSid)]
    ensures ret == 0 ==> ElementAdded(old(fs.File(dirSid)), fs.File(dirSid), Element(elementSid, name))
    ensures old(DirsOk(fs)) ==> DirsOk(fs)
  {
    hide AllWellFormed, DiskOk, FsOk, Abs, WellFormed, CanGrow, ElementAdded, NulFree, Filesys.Valid, Filesys.Files,
         Filesys.Metas,
      Filesys.IsFile;
    if elementSid == SID_NULL { return 1; }
    var isDir := IsDir(fs, dirSid);
    if !isDir { return 1; }
    var size := fs.GetSize(dirSid);
    if IsDirectory(fs, dirSid) { GrowBound(fs.disk.View(), |fs.File(dirSid)|, |name|); }
    if size == 0xFFFF_FFFF { return 1; }
    ghost var metas, files := fs.Metas(), fs.Files();
    AppendElement(fs, dirSid, elementSid, name);
    if AllWellFormed(metas, files) {
      StillWellFormed(metas, files, fs.Files(), SidSector(dirSid), Element(elementSid, name));
    }
    return 0;
  }

  // So directories stay well formed.
  lemma StillWellFormed(metas: map<nat, seq<byte>>, files: map<nat, seq<byte>>, files': map<nat, seq<byte>>, h: nat,
                        e: Element)
    requires AllWellFormed(metas, files) && h in files && h in files' && files' == files[h := files'[h]]
    requires ElementAdded(files[h], files'[h], e) && |files[h]| + 8 + |e.name| + 1 < 0xFFFF_FFFF
    ensures AllWellFormed(metas, files')
  {
    hide WellFormed, Decode;
  }

  // The rest of it, once its arguments are accepted.
  method AppendElement(fs: Filesys, dirSid: word, elementSid: word, name: seq<byte>)
    requires fs.Valid() && NulFree(name) && fs.IsFile(dirSid)
    requires WellFormed(fs.File(dirSid)) && CanGrow(fs.disk.View(), |fs.File(dirSid)|, |name|)
    modifies fs, fs.disk
    ensures fs.Valid() && fs.IsFile(dirSid) && fs.Metas() == old(fs.Metas())
            && fs.Files() == old(fs.Files())[SidSector(dirSid) := fs.File(dirSid)]
    ensures ElementAdded(old(fs.File(dirSid)), fs.File(dirSid), Element(elementSid, name))
  {
    hide DiskOk, FsOk, Abs, WellFormed, NulFree, CanGrow, ElementAdded, SidSector, SidDisk, Word;
    ghost var files0 := fs.Files();
    var buf := NewContents(fs, dirSid, elementSid, name);
    ghost var files := fs.Files();
    Rewrite(fs, dirSid, buf);
    PutTwice(files0, files, fs.Files(), SidSector(dirSid), buf[..]);
  }

  // The bytes of the directory with one element more; its container already has their size.
  method NewContents(fs: Filesys, dirSid: word, elementSid: word, name: seq<byte>) returns (buf: array<byte>)
    requires fs.Valid() && NulFree(name) && fs.IsFile(dirSid)
    requires WellFormed(fs.File(dirSid)) && CanGrow(fs.disk.View(), |fs.File(dirSid)|, |name|)
    modifies fs, fs.disk
    ensures fs.Valid() && fs.IsFile(dirSid) && fs.Metas() == old(fs.Metas())
            && fs.Files() == old(fs.Files())[SidSector(dirSid) := fs.File(dirSid)]
    ensures fresh(buf) && buf.Length == |fs.File(dirSid)|
            && ElementAdded(old(fs.File(dirSid)), buf[..], Element(elementSid, name))
  {
    hide Filesys.Valid, Filesys.Files, Filesys.Metas, WellFormed, Added, NulFree, CanGrow, ElementAdded, Word;
    ghost var was := fs.File(dirSid);
    var size := SizeOf(fs, dirSid);
    buf := Regrow(fs, dirSid, size, |name|);
    AddPair(buf, size, elementSid, name);
    PairAdded(was, buf[..], elementSid, name);
  }

  lemma GrowBound(d: Disk, size: nat, len: nat)
    requires CanGrow(d, size, len)
    ensures size + 8 + len + 1 < 0xFFFF_FFFF
  {
  }

  lemma RoomAt(d: Disk, size: nat, len: nat, n: nat)
    requires CanGrow(d, size, len) && n == size + 8 + len + 1
    ensures n < 0xFFFF_FFFF && HasRoom(d, 2 * CtrSize.WantedCores(n))
  {
  }

  lemma PairAdded(b: seq<byte>, b': seq<byte>, sid: word, name: seq<byte>)
    requires Added(b, b', sid, name) && NulFree(name)
    ensures ElementAdded(b, b', Element(sid, name))
  {
    hide Decode, NulFree;
    AddDecodes(b, b', sid, name);
  }

  lemma PutTwice(m0: map<nat, seq<byte>>, m1: map<nat, seq<byte>>, m: map<nat, seq<byte>>, h: nat, b: seq<byte>)
    requires h in m1 && m1 == m0[h := m1[h]] && m == m1[h := b]
    ensures h in m && m[h] == b && m == m0[h := m[h]]
  {
  }

  lemma Prefix(f: seq<byte>, was: seq<byte>)
    requires |was| <= |f| && forall q :: 0 <= q < |was| ==> f[q] == was[q]
    ensures f[..|was|] == was
  {
  }

  method SizeOf(fs: Filesys, sid: word) returns (size: nat)
    requires fs.Valid() && fs.IsFile(sid)
    ensures size == |fs.File(sid)|
  {
    size := fs.GetSize(sid);
  }

  // The directory is extended, then read back into a buffer of its new size.
  method Regrow(fs: Filesys, sid: word, size: nat, len: nat) returns (buf: array<byte>)
    requires fs.Valid() && fs.IsFile(sid) && size == |fs.File(sid)| && CanGrow(fs.disk.View(), size, len)
    modifies fs, fs.disk
    ensures fs.Valid() && fs.IsFile(sid) && fs.Metas() == old(fs.Metas())
            && fs.Files() == old(fs.Files())[SidSector(sid) := fs.File(sid)]
    ensures fresh(buf) && buf.Length == size + 8 + len + 1 == |fs.File(sid)| < 0xFFFF_FFFF
            && buf[..size] == old(fs.File(sid))
  {
    hide DiskOk, FsOk, Abs, HasRoom, CtrSize.WantedCores, CanGrow;
    ghost var was := fs.File(sid);
    var n := size + 8 + len + 1;
    RoomAt(fs.disk.View(), size, len, n);
    Extend(fs, sid, n);
    Prefix(fs.File(sid), was);
    buf := ReadInto(fs, sid, size, n);
  }

  // A container made larger keeps its bytes.
  method Extend(fs: Filesys, sid: word, n: word)
    requires fs.Valid() && fs.IsFile(sid) && |fs.File(sid)| <= n && HasRoom(fs.disk.View(), 2 * CtrSize.WantedCores(n))
    modifies fs, fs.disk
    ensures fs.Valid() && fs.IsFile(sid) && fs.Metas() == old(fs.Metas())
            && fs.Files() == old(fs.Files())[SidSector(sid) := fs.File(sid)]
    ensures |fs.File(sid)| == n && forall q :: 0 <= q < |old(fs.File(sid))| ==> fs.File(sid)[q] == old(fs.File(sid))[q]
  {
    hide DiskOk, FsOk, Abs, HasRoom, CtrSize.WantedCores;
    FileWithin(fs, sid);
    var ret := fs.SetSize(sid, n);
  }

  // The first bytes of a container, in a new buffer.
  method ReadInto(fs: Filesys, sid: word, size: nat, n: nat) returns (buf: array<byte>)
    requires fs.Valid() && fs.IsFile(sid) && size <= |fs.File(sid)| && size <= n
    modifies fs, fs.disk
    ensures fs.Valid() && fs.cnts == old(fs.cnts) && fs.Metas() == old(fs.Metas()) && fs.Files() == old(fs.Files())
            && fs.disk.View() == old(fs.disk.View())
    ensures fresh(buf) && buf.Length == n && buf[..size] == old(fs.File(sid))[..size]
  {
    hide Filesys.Valid, Filesys.Files, Filesys.Metas, Filesys.IsFile, Vdisk.Within;
    FileWithin(fs, sid);
    buf := new byte[n];
    var ret := fs.Read(sid, buf, 0, size);
  }

  // A container's bytes are all replaced.
  method Rewrite(fs: Filesys, sid: word, buf: array<byte>)
    requires fs.Valid() && fs.IsFile(sid) && buf.Length == |fs.File(sid)|
    modifies fs, fs.disk, buf
    ensures fs.Valid() && fs.IsFile(sid) && buf[..] == old(buf[..])
    ensures fs.Metas() == old(fs.Metas()) && fs.Files() == old(fs.Files())[SidSector(sid) := buf[..]]
  {
    hide DiskOk, FsOk, Abs;
    FileWithin(fs, sid);
    WholePut(fs.File(sid), buf[..]);
    var ret := fs.Write(sid, buf, 0, buf.Length);
    assert old(buf[..buf.Length]) == old(buf[..]);
  }

  // kfu_get_dir_content; without `wanted` only the count is asked for.
  method GetDirContent(fs: Filesys, sid: word, wanted: bool) returns (count: int, es: seq<Element>)
    requires fs.Valid() && DirsOk(fs)
    modifies fs, fs.disk
    ensures fs.Valid() && fs.cnts == old(fs.cnts) && fs.Metas() == old(fs.Metas()) && fs.Files() == old(fs.Files())
            && fs.disk.View() == old(fs.disk.View())
    ensures !old(IsDirectory(fs, sid)) ==> count == -1 && es == []
    ensures old(IsDirectory(fs, sid)) ==>
              count == |old(Decode(fs.File(sid)))| && es == if wanted then old(Decode(fs.File(sid))) else []
  {
    hide Filesys.Valid, Filesys.Files, Filesys.Metas, WellFormed, Word, CString, Decode;
    es := [];
    var isDir := IsDir(fs, sid);
    if !isDir { return -1, es; }
    var size: nat := fs.GetSize(sid);
    if size == 0xFFFF_FFFF { return -1, es; }
    assert IsDirectory(fs, sid);
    ghost var b := fs.File(sid);
    var buf := ReadInto(fs, sid, size, size);
    assert buf[..] == buf[..size] == b[..size] == b;
    count, es := Elements(buf, wanted);
  }

  // The rest of it works on the bytes read.
  method Elements(buf: array<byte>, wanted: bool) returns (count: int, es: seq<Element>)
    requires WellFormed(buf[..])
    ensures count == |Decode(buf[..])| && es == if wanted then Decode(buf[..]) else []
  {
    hide WellFormed, Word, CString;
    ghost var b := buf[..];
    es := [];
    CountBounded(b);
    count := Word(buf[..], 0);
    if count == 0 || !wanted { return; }
    var i := 0;
    while i < count
      invariant i <= count && es == Decode(b)[..i]
    {
      NameInside(b, i);
      var id := Word(buf[..], 4 + 8 * i);
      var nameOffset := Word(buf[..], 8 + 8 * i);
      es := es + [Element(id, CString(buf[..], NamesAt(count) + nameOffset))];
      i := i + 1;
    }
  }

  lemma NameInside(b: seq<byte>, i: nat)
    requires WellFormed(b) && i < Word(b, 0)
    ensures NamesAt(Word(b, 0)) <= |b| && NameAt(b, i) <= |b| && Decode(b)[i] == ElementAt(b, i)
  {
  }
}
