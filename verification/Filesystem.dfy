/** The mounted file system: one virtual disk holding many containers, seen as a map from
    container heads to byte arrays. */
module Filesystem {
  import opened Lists
  import opened Layout
  import opened VirtualDisk
  import opened Containers
  import opened Metadata
  import CtrInit
  import CtrSize
  import CtrDelete
  import CtrRw

  // ------------------------------------------------------ heads and container ids

  // The checks at the start of every operation accept exactly the heads of containers.
  lemma HeadsAreContainers(d: Disk, id: nat, cs: map<nat, Container>, sid: word)
    requires FsOk(d, id, cs) && 0 < id < 256
    ensures CtrSize.NamesHead(d, id, sid) <==> SidDisk(sid) == id && SidSector(sid) in cs
  {
    hide DiskOk;
    var s := SidSector(sid);
    if CtrSize.NamesHead(d, id, sid) {
      OwnerOf(d, cs, s);
      var h :| h in cs && Owns(cs[h], s);
      TagOfOwned(d, id, cs[h], s);
    }
  }

  lemma OwnerOf(d: Disk, cs: map<nat, Container>, s: nat)
    requires NoLeak(d, cs) && InUse(d, s)
    ensures exists h :: h in cs && Owns(cs[h], s)
  {
    assert Owned(cs, s);
  }

  lemma TagOfOwned(d: Disk, id: nat, c: Container, s: nat)
    requires ContainerOk(d, id, c) && Owns(c, s)
    ensures InUse(d, s)
    ensures Tag(d.sectors[s]) == SF_HEAD <==> s == c.head
  {
  }

  lemma HeadOf(d: Disk, id: nat, cs: map<nat, Container>, h: nat)
    requires FsOk(d, id, cs) && h in cs
    ensures ContainerOk(d, id, cs[h]) && cs[h].head == h && InUse(d, h)
    ensures SizeField(d.sectors[h]) == cs[h].size
  {
  }

  // ------------------------------------------------------------- the abstraction

  ghost function Abs(d: Disk, id: nat, cs: map<nat, Container>): (m: map<nat, seq<byte>>)
    requires FsOk(d, id, cs)
    ensures m.Keys == cs.Keys
    ensures forall h :: h in cs ==> ContainerOk(d, id, cs[h]) && m[h] == Content(d, id, cs[h])
  {
    map h | h in cs :: Content(d, id, cs[h])
  }

  lemma AbsPut(d: Disk, e: Disk, id: nat, cs: map<nat, Container>, c': Container)
    requires FsOk(d, id, cs) && FsOk(e, id, cs[c'.head := c'])
    requires forall h :: h in cs && h != c'.head ==>
               ContainerOk(d, id, cs[h]) && ContainerOk(e, id, cs[h]) && Content(e, id, cs[h]) == Content(d, id, cs[h])
    requires ContainerOk(e, id, c')
    ensures Abs(e, id, cs[c'.head := c']) == Abs(d, id, cs)[c'.head := Content(e, id, c')]
  {
    hide FsOk, ContainerOk, Content;
  }

  lemma AbsRemove(d: Disk, e: Disk, id: nat, cs: map<nat, Container>, h0: nat)
    requires FsOk(d, id, cs) && FsOk(e, id, cs - {h0})
    requires forall h :: h in cs && h != h0 ==>
               ContainerOk(d, id, cs[h]) && ContainerOk(e, id, cs[h]) && Content(e, id, cs[h]) == Content(d, id, cs[h])
    ensures Abs(e, id, cs - {h0}) == Abs(d, id, cs) - {h0}
  {
    hide FsOk, ContainerOk, Content;
  }

  // ------------------------------------------------- one lemma per kind of operation

  lemma AfterReplace(d: Disk, e: Disk, id: nat, cs: map<nat, Container>, c': Container)
    requires FsOk(d, id, cs) && c'.head in cs
    requires ContainerOk(e, id, c') && OnlyTouches(d, e, cs[c'.head], c')
    ensures FsOk(e, id, cs[c'.head := c'])
    ensures Abs(e, id, cs[c'.head := c']) == Abs(d, id, cs)[c'.head := Content(e, id, c')]
  {
    hide FsOk, ContainerOk, Content, OnlyTouches;
    ReplaceContainer(d, e, id, cs, c');
  }

  lemma AllOk(d: Disk, id: nat, cs: map<nat, Container>)
    requires FsOk(d, id, cs)
    ensures forall h :: h in cs ==> ContainerOk(d, id, cs[h])
  {
  }

  lemma AfterInit(d: Disk, e: Disk, id: nat, cs: map<nat, Container>, c: Container)
    requires FsOk(d, id, cs) && ContainerOk(e, id, c) && c.size == 0 && c.cores == []
    requires CtrInit.Allocated(d, e, [c.head] + c.locas)
    ensures c.head !in cs && FsOk(e, id, cs[c.head := c])
    ensures Abs(e, id, cs[c.head := c]) == Abs(d, id, cs)[c.head := []]
  {
    hide FsOk, ContainerOk, DiskOk, NoLeak;
    AddContainer(d, e, id, cs, c);
    AllOk(d, id, cs);
    AbsPut(d, e, id, cs, c);
  }

  lemma AfterDelete(d: Disk, e: Disk, id: nat, cs: map<nat, Container>, h: nat)
    requires FsOk(d, id, cs) && h in cs && CtrDelete.Deleted(d, e, cs[h])
    ensures FsOk(e, id, cs - {h})
    ensures Abs(e, id, cs - {h}) == Abs(d, id, cs) - {h}
    ensures e.usedCount == d.usedCount - (1 + |cs[h].locas| + |cs[h].cores|)
  {
    hide FsOk, ContainerOk, Content, Owns, DiskOk;
    GetDiskOk(d, id, cs);
    AllOk(d, id, cs);
    RemoveContainer(d, e, id, cs, h);
    AbsRemove(d, e, id, cs, h);
    DeletedCount(d, e, id, cs[h]);
  }

  // Deleting a container gives back exactly one sector for its header and one for every
  // locator and core it holds, surplus cores included.
  lemma DeletedCount(d: Disk, e: Disk, id: nat, c: Container)
    requires DiskOk(d) && ContainerOk(d, id, c) && CtrDelete.Deleted(d, e, c)
    ensures e.usedCount == d.usedCount - (1 + |c.locas| + |c.cores|)
  {
    hide ContainerOk, DiskOk;
    ContainerDistinct(d, id, c);
    OwnsUsed(d, id, c);
    var all := [c.head] + c.locas + c.cores;
    ElemsSize(all);
    CountRest(d, e, Elems(all));
  }

  lemma CountRest(d: Disk, e: Disk, gone: set<nat>)
    requires DiskOk(d) && DiskOk(e)
    requires forall s: nat :: s in gone ==> InUse(d, s)
    requires forall s: nat :: InUse(e, s) <==> InUse(d, s) && s !in gone
    ensures e.usedCount == d.usedCount - |gone|
  {
    forall s | s in UsedSet(e) ensures s in UsedSet(d) - gone {}
    assert UsedSet(e) == UsedSet(d) - gone;
  }

  lemma ContainerDistinct(d: Disk, id: nat, c: Container)
    requires ContainerOk(d, id, c)
    ensures NoDup([c.head] + c.locas + c.cores)
  {
  }

  lemma AfterResize(d: Disk, e: Disk, id: nat, c: Container, c': Container)
    requires ContainerOk(d, id, c) && ContainerOk(e, id, c') && CtrSize.KeepsBytes(d, e, c.cores, c'.cores)
    ensures forall q: nat :: q < c.size && q < c'.size ==> Content(e, id, c')[q] == Content(d, id, c)[q]
    ensures forall q: nat :: BYTE_IN_CORE * |c.cores| <= q < c'.size ==> Content(e, id, c')[q] == 0
  {
  }

  // File h has `size` bytes now, its old ones as far as they go, and zeros in new cores; other files stay.
  ghost predicate FileResized(files: map<nat, seq<byte>>, files': map<nat, seq<byte>>, h: nat, size: nat,
                              cores: nat) {
    && h in files && h in files' && files' == files[h := files'[h]] && |files'[h]| == size
    && (forall q: nat :: q < |files[h]| && q < size ==> files'[h][q] == files[h][q])
    && (forall q: nat :: BYTE_IN_CORE * cores <= q < size ==> files'[h][q] == 0)
  }

  // What a resize is to the file system as a whole.
  lemma AfterSetSize(d: Disk, e: Disk, id: nat, cs: map<nat, Container>, c: Container, c': Container)
    requires FsOk(d, id, cs) && c.head in cs && c == cs[c.head] && c'.head == c.head
    requires ContainerOk(e, id, c') && OnlyTouches(d, e, c, c') && CtrSize.KeepsBytes(d, e, c.cores, c'.cores)
    requires c.head < |d.sectors| && c.head < |e.sectors| && SameButSize(d.sectors[c.head], e.sectors[c.head])
    ensures var cs' := cs[c'.head := c'];
            && FsOk(e, id, cs') && Metas(e, id, cs') == Metas(d, id, cs)
            && FileResized(Abs(d, id, cs), Abs(e, id, cs'), c.head, c'.size, |c.cores|)
  {
    hide DiskOk, FsOk, ContainerOk, OnlyTouches, CtrSize.KeepsBytes, Content, SameButSize, Layout.Meta;
    AllOk(d, id, cs);
    AfterReplace(d, e, id, cs, c');
    AfterResize(d, e, id, c, c');
    SameMeta(d.sectors[c.head], e.sectors[c.head]);
    MetasReplaced(d, e, id, cs, c');
  }

  lemma EmptyIsSound(d: Disk, id: nat)
    requires DiskOk(d) && UsedSet(d) == {}
    ensures FsOk(d, id, map[])
  {
    assert forall s: nat :: InUse(d, s) ==> s in UsedSet(d);
  }

  class Filesys {
    const disk: Vdisk
    ghost var cnts: map<nat, Container>

    ghost predicate Valid()
      reads this, disk
    {
      disk.Valid() && FsOk(disk.View(), disk.id, cnts)
    }

    // Every container's bytes, by the sector of its head.
    ghost function Files(): (m: map<nat, seq<byte>>)
      requires Valid()
      reads this, disk
      ensures m.Keys == cnts.Keys
    {
      Abs(disk.View(), disk.id, cnts)
    }

    // What their headers say, by the same sectors.
    ghost function Metas(): (m: map<nat, seq<byte>>)
      requires Valid()
      reads this, disk
      ensures m.Keys == cnts.Keys && forall h :: h in m ==> |m[h]| == META_MAXLEN - 1
    {
      Metadata.Metas(disk.View(), disk.id, cnts)
    }

    ghost predicate IsFile(sid: word)
      reads this, disk
    {
      SidDisk(sid) == disk.id && SidSector(sid) in cnts
    }

    constructor (disk: Vdisk)
      requires disk.Valid() && UsedSet(disk.View()) == {}
      ensures Valid() && this.disk == disk && Files() == Metas() == map[]
    {
      this.disk := disk;
      cnts := map[];
      new;
      EmptyIsSound(disk.View(), disk.id);
    }

    // fs_cnt_init
    method Init(deviceId: nat, meta: seq<byte>) returns (sid: word)
      requires Valid() && HasRoom(disk.View(), 2)
      modifies this, disk
      ensures Valid()
      ensures deviceId != disk.id ==> sid == SID_NULL && Files() == old(Files()) && Metas() == old(Metas())
      ensures deviceId == disk.id ==>
                && sid != SID_NULL && IsFile(sid) && SidSector(sid) !in old(cnts)
                && Files() == old(Files())[SidSector(sid) := []]
                && Metas() == old(Metas())[SidSector(sid) := Metas()[SidSector(sid)]]
                && CtrInit.Named(Metas()[SidSector(sid)], meta)
    {
      hide DiskOk, FsOk, ContainerOk, CtrInit.Allocated, Abs, CtrInit.Named;
      ghost var d := disk.View();
      ghost var c;
      sid, c := CtrInit.Init(disk, deviceId, meta);
      if deviceId == disk.id {
        AfterInit(d, disk.View(), disk.id, cnts, c);
        MetasAdded(d, disk.View(), disk.id, cnts, c);
        cnts := cnts[c.head := c];
      }
    }

    // The sector of the header.
    ghost function Header(sid: word): Sector
      requires Valid() && IsFile(sid)
      reads this, disk
    {
      HeadOf(disk.View(), disk.id, cnts, SidSector(sid));
      disk.sectors[SidSector(sid)]
    }

    // fs_cnt_meta for reading: the name field of any sector there is.
    method GetMeta(sid: word) returns (found: bool, meta: seq<byte>)
      requires Valid()
      ensures found <==> disk.Holds(sid)
      ensures found ==> meta == Meta(disk.sectors[SidSector(sid)])
      ensures IsFile(sid) ==> found && meta == Metas()[SidSector(sid)]
    {
      hide DiskOk, FsOk, Meta;
      found, meta := false, [];
      if IsFile(sid) { HeadOf(disk.View(), disk.id, cnts, SidSector(sid)); }
      SizesOf(disk.View());
      if SidDisk(sid) != disk.id || SidSector(sid) >= |disk.used| { return; }
      var ok, data := disk.LoadSector(sid);
      found, meta := true, Meta(data);
    }

    // fs_cnt_set_size
    method SetSize(sid: word, size: word) returns (ret: int)
      requires Valid() && disk.Within(sid)
      requires HasRoom(disk.View(), 2 * CtrSize.WantedCores(size))
      modifies this, disk
      ensures Valid() && Metas() == old(Metas())
      ensures ret == if old(IsFile(sid)) then 0 else 1
      ensures ret == 1 ==> Files() == old(Files()) && cnts == old(cnts)
      ensures ret == 0 ==> SameButSize(old(Header(sid)), Header(sid))
      ensures ret == 0 ==>
                var h := SidSector(sid);
                && FileResized(old(Files()), Files(), h, size, |old(cnts[h]).cores|)
                && cnts.Keys == old(cnts.Keys) && cnts[h].size == size
                && |cnts[h].cores| == CtrSize.CoresAfter(|old(cnts[h]).cores|, |old(Files()[h])|, size)
    {
      hide DiskOk, FsOk, ContainerOk, OnlyTouches, CtrSize.KeepsBytes, CtrSize.NamesHead, Content, SameButSize,
        Layout.Meta, Word, CtrSize.CoresAfter, CtrSize.WantedCores, Abs, Metadata.Metas, HasRoom, FileResized;
      ghost var d := disk.View();
      HeadsAreContainers(d, disk.id, cnts, sid);
      ghost var c, c' := Container(SidSector(sid), [], [], 0), Container(0, [], [], 0);
      if SidSector(sid) in cnts {
        c := cnts[SidSector(sid)];
        HeadOf(d, disk.id, cnts, SidSector(sid));
      }
      ret, c' := CtrSize.SetSize(disk, sid, size, c);
      if ret == 0 {
        AfterSetSize(d, disk.View(), disk.id, cnts, c, c');
        cnts := cnts[c'.head := c'];
      }
    }

    // fs_cnt_get_size
    method GetSize(sid: word) returns (size: word)
      requires Valid() && disk.Within(sid)
      ensures size == if IsFile(sid) then |Files()[SidSector(sid)]| else 0xFFFF_FFFF
    {
      hide DiskOk, FsOk, ContainerOk, Content, Word;
      HeadsAreContainers(disk.View(), disk.id, cnts, sid);
      if SidSector(sid) in cnts {
        HeadOf(disk.View(), disk.id, cnts, SidSector(sid));
      }
      size := CtrSize.GetSize(disk, sid);
    }

    ghost predicate InBounds(sid: word, offset: nat, size: nat)
      requires Valid()
      reads this, disk
    {
      IsFile(sid) && offset + size <= |Files()[SidSector(sid)]|
    }

    ghost function File(sid: word): seq<byte>
      requires Valid() && IsFile(sid)
      reads this, disk
    {
      Files()[SidSector(sid)]
    }

    // fs_cnt_read
    method Read(sid: word, buf: array<byte>, offset: nat, size: nat) returns (ret: int)
      requires Valid() && disk.Within(sid) && size <= buf.Length
      modifies this, disk, buf
      ensures Valid() && cnts == old(cnts) && Files() == old(Files()) && disk.View() == old(disk.View())
              && Metas() == old(Metas())
      ensures ret == if old(InBounds(sid, offset, size)) then 0 else 1
      ensures ret == 0 ==> buf[..] == Put(old(buf[..]), 0, old(File(sid))[offset..offset + size])
      ensures ret != 0 ==> buf[..] == old(buf[..])
    {
      hide DiskOk, FsOk, ContainerOk, OnlyTouches, CtrSize.NamesHead, Content, CtrRw.RwDone;
      ghost var d := disk.View();
      ghost var b0 := buf[..];
      ghost var h := SidSector(sid);
      HeadsAreContainers(d, disk.id, cnts, sid);
      ghost var c := Container(h, [], [], 0);
      if h in cnts {
        c := cnts[h];
        HeadOf(d, disk.id, cnts, h);
      }
      ret := CtrRw.Rw(disk, sid, buf, offset, size, true, c);
      if ret == 0 {
        CtrRw.RwContent(d, disk.View(), disk.id, c, b0, buf[..], offset, size, true);
        CtrRw.ReadLeavesDisk(d, disk.View(), c.cores, b0, buf[..], offset, size);
      }
    }

    // fs_cnt_write
    method Write(sid: word, buf: array<byte>, offset: nat, size: nat) returns (ret: int)
      requires Valid() && disk.Within(sid) && size <= buf.Length
      modifies this, disk, buf
      ensures Valid() && cnts == old(cnts) && buf[..] == old(buf[..]) && Metas() == old(Metas())
      ensures ret == if old(InBounds(sid, offset, size)) then 0 else 1
      ensures ret == 0 ==> Files() == old(Files())[SidSector(sid) := Put(old(File(sid)), offset, old(buf[..size]))]
      ensures ret != 0 ==> Files() == old(Files())
    {
      hide DiskOk, FsOk, ContainerOk, OnlyTouches, CtrSize.NamesHead, Content, CtrRw.RwDone;
      ghost var d := disk.View();
      ghost var b0 := buf[..];
      ghost var h := SidSector(sid);
      HeadsAreContainers(d, disk.id, cnts, sid);
      ghost var c := Container(h, [], [], 0);
      if h in cnts {
        c := cnts[h];
        HeadOf(d, disk.id, cnts, h);
      }
      ret := CtrRw.Rw(disk, sid, buf, offset, size, false, c);
      if ret == 0 {
        CtrRw.RwContent(d, disk.View(), disk.id, c, b0, buf[..], offset, size, false);
        AfterReplace(d, disk.View(), disk.id, cnts, c);
        assert cnts == cnts[h := c];
        HeadWritten(d, disk.View(), disk.id, c, b0, buf[..], offset, size);
        MetasReplaced(d, disk.View(), disk.id, cnts, c);
      }
    }

    // fs_cnt_delete
    method Delete(sid: word) returns (ret: int)
      requires Valid() && disk.Within(sid)
      modifies this, disk
      ensures Valid()
      ensures ret == if old(IsFile(sid)) then 0 else 1
      ensures ret == 1 ==> Files() == old(Files()) && Metas() == old(Metas())
      ensures ret == 0 ==>
                var h := SidSector(sid);
                && Files() == old(Files()) - {h} && Metas() == old(Metas()) - {h}
                && disk.usedCount == old(disk.usedCount) - (1 + |old(cnts[h]).locas| + |old(cnts[h]).cores|)
                && (forall s: nat :: InUse(disk.View(), s) <==> old(InUse(disk.View(), s)) && !Owns(old(cnts[h]), s))
    {
      hide DiskOk, FsOk, ContainerOk, CtrSize.NamesHead, Content;
      ghost var d := disk.View();
      HeadsAreContainers(d, disk.id, cnts, sid);
      ghost var c := Container(SidSector(sid), [], [], 0);
      if SidSector(sid) in cnts {
        c := cnts[SidSector(sid)];
        HeadOf(d, disk.id, cnts, SidSector(sid));
      }
      ret := CtrDelete.Delete(disk, sid, c);
      if ret == 0 {
        AfterDelete(d, disk.View(), disk.id, cnts, SidSector(sid));
        MetasRemoved(d, disk.View(), disk.id, cnts, SidSector(sid));
        cnts := cnts - {SidSector(sid)};
      }
    }
  }

  // Bytes are written to cores and not to the header.
  lemma HeadWritten(d: Disk, e: Disk, id: nat, c: Container, b0: seq<byte>, b: seq<byte>, off: nat, n: nat)
    requires ContainerOk(d, id, c) && CtrRw.RwDone(d, e, c.cores, b0, b, off, n, false)
    ensures c.head < |d.sectors| && c.head < |e.sectors| && e.sectors[c.head] == d.sectors[c.head]
  {
  }

  lemma SizesOf(d: Disk)
    requires DiskOk(d)
    ensures |d.used| == |d.sectors|
  {
  }

  lemma GetDiskOk(d: Disk, id: nat, cs: map<nat, Container>)
    requires FsOk(d, id, cs)
    ensures DiskOk(d)
  {
  }
}
