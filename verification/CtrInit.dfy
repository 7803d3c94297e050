/** Initialising sectors and containers (ctr_init.c). */
module CtrInit {
  import opened Lists
  import opened Layout
  import opened VirtualDisk
  import opened Containers

  // e is d with the unused sectors `taken` put in use and nothing else changed.
  ghost predicate Allocated(d: Disk, e: Disk, taken: seq<nat>) {
    && DiskOk(e) && |d.used| == |d.sectors| <= |e.used| == |e.sectors|
    && e.usedCount == d.usedCount + |taken|
    && NoDup(taken)
    && (forall s: nat :: s in taken ==> InUse(e, s) && !InUse(d, s))
    && (forall s: nat :: InUse(e, s) ==> InUse(d, s) || s in taken)
    && (forall s: nat :: InUse(d, s) ==> InUse(e, s) && e.sectors[s] == d.sectors[s])
  }

  lemma AllocatedThen(d: Disk, e: Disk, f: Disk, taken: seq<nat>, more: seq<nat>)
    requires Allocated(d, e, taken) && Allocated(e, f, more)
    ensures Allocated(d, f, taken + more)
    ensures forall s: nat :: s in taken ==> InUse(e, s) && f.sectors[s] == e.sectors[s]
  {
    var all := taken + more;
    forall i, j | 0 <= i < j < |all| ensures all[i] != all[j] {
      if i < |taken| <= j {
        assert all[i] in taken && all[j] in more;
      }
    }
  }

  lemma AllocatedNone(d: Disk)
    requires DiskOk(d)
    ensures Allocated(d, d, [])
  {
  }

  method InitSector(disk: Vdisk, sid: word, tag: byte) returns (ret: int)
    requires disk.Valid() && SidSector(sid) < |disk.used|
    requires disk.used[SidSector(sid)] || IsNextFree(disk.View(), SidSector(sid))
    modifies disk
    ensures disk.Valid()
    ensures ret == (if old(disk.used[SidSector(sid)]) then 1 else 0)
    ensures ret == 1 ==> disk.View() == old(disk.View())
    ensures ret == 0 ==>
              disk.View() == Written(MarkUsed(old(disk.View()), SidSector(sid)), SidSector(sid), Blank(tag))
  {
    var inUse := disk.IsSectorUsed(sid);
    if inUse {
      return 1;
    }
    var _ := disk.NoteSectorUsed(sid);
    var data := Blank(tag);
    var _ := disk.WriteSector(sid, data);
    return 0;
  }

  lemma ExtendedFrame(d: Disk, e: Disk)
    requires DiskOk(d) && MaybeExtended(d, e)
    ensures DiskOk(e) && e.usedCount == d.usedCount
    ensures |d.used| == |d.sectors| <= |e.used| == |e.sectors|
    ensures forall t: nat :: InUse(e, t) <==> InUse(d, t)
    ensures forall t: nat :: InUse(d, t) ==> e.sectors[t] == d.sectors[t]
  {
    if e != d {
      ExtendedOk(d, |d.used| + 1000);
    }
  }

  lemma TakenOne(d: Disk, e: Disk, f: Disk, s: nat, data: Sector)
    requires DiskOk(d) && MaybeExtended(d, e)
    requires DiskOk(e) && IsNextFree(e, s) && f == Written(MarkUsed(e, s), s, data)
    ensures Allocated(d, f, [s]) && InUse(f, s) && f.sectors[s] == data
  {
    hide DiskOk, MaybeExtended;
    ExtendedFrame(d, e);
    MarkUsedOk(e, s);
    WrittenOk(MarkUsed(e, s), s, data);
  }

  // The steps "get an unused sector, initialise it" used wherever a container gains a sector.
  method TakeSector(disk: Vdisk, tag: byte) returns (sid: word, ret: int, ghost s: nat)
    requires disk.Valid() && HasRoom(disk.View(), 1)
    modifies disk
    ensures disk.Valid() && ret == 0
    ensures s < MAX_SECTORS && sid == SidFormat(disk.id, s) && sid != SID_NULL
    ensures Allocated(old(disk.View()), disk.View(), [s]) && InUse(disk.View(), s) && disk.sectors[s] == Blank(tag)
  {
    hide Allocated;
    ghost var d := disk.View();
    var sector := disk.GetUnusedSector();
    s := sector;
    ghost var e := disk.View();
    sid := SidFormat(disk.id, sector);
    SidRoundTrip(disk.id, sector);
    ret := InitSector(disk, sid, tag);
    TakenOne(d, e, disk.View(), s, Blank(tag));
  }

  function HeaderData(meta: seq<byte>, loca: word): Sector
    requires |meta| < META_MAXLEN
  {
    SetLast(Put(Blank(SF_HEAD), 1, meta), loca)
  }

  lemma HeaderFields(meta: seq<byte>, loca: word)
    requires |meta| < META_MAXLEN
    ensures var h := HeaderData(meta, loca);
            && Tag(h) == SF_HEAD && Last(h) == loca && SizeField(h) == 0
            && Named(Meta(h), meta) && forall q :: META_MAXLEN <= q < LAST_SID_OFFSET ==> h[q] == 0
  {
    var p: Sector := Put(Blank(SF_HEAD), 1, meta);
    SetLastFields(p, loca);
  }

  // A name that is cut where the field ends, and filled up with zeros.
  ghost predicate Named(field: seq<byte>, meta: seq<byte>) {
    forall i :: 0 <= i < |field| ==> field[i] == if i < |meta| then meta[i] else 0
  }

  lemma InitDone(d: Disk, e: Disk, id: nat, c: Container, data: Sector)
    requires |c.locas| == 1 && c.cores == [] && c.size == 0
    requires Allocated(d, e, [c.head] + c.locas)
    requires InUse(e, c.head) && InUse(e, c.locas[0]) && e.sectors[c.locas[0]] == Blank(SF_LOCA)
    requires Tag(data) == SF_HEAD && SizeField(data) == 0 && LinkTo(Last(data), id, c.locas, 0)
    ensures var f := Written(e, c.head, data); ContainerOk(f, id, c) && Allocated(d, f, [c.head] + c.locas)
  {
    WrittenOk(e, c.head, data);
    BlankFields(SF_LOCA);
    assert ([c.head] + c.locas)[0] != ([c.head] + c.locas)[1];
  }

  lemma NextFreeFits(d: Disk, s: nat)
    requires DiskOk(d) && IsNextFree(d, s)
    ensures s < MAX_SECTORS && s < |d.sectors|
  {
  }

  // fs_cnt_init: a header and one empty locator; returns the header's sid, or null
  // when the disk is not mounted.
  method Init(disk: Vdisk, deviceId: nat, meta: seq<byte>) returns (sid: word, ghost c: Container)
    requires disk.Valid() && HasRoom(disk.View(), 2)
    modifies disk
    ensures disk.Valid()
    ensures deviceId != disk.id ==> sid == SID_NULL && disk.View() == old(disk.View())
    ensures deviceId == disk.id ==>
              && sid != SID_NULL && c.head < MAX_SECTORS && sid == SidFormat(disk.id, c.head)
              && c.cores == [] && c.size == 0 && |c.locas| == 1
              && ContainerOk(disk.View(), disk.id, c)
              && Allocated(old(disk.View()), disk.View(), [c.head] + c.locas)
              && c.head < |disk.sectors| && Named(Meta(disk.sectors[c.head]), meta)
  {
    hide Allocated, ContainerOk, DiskOk;
    c := Container(0, [], [], 0);
    if deviceId != disk.id {
      return SID_NULL, c;
    }
    ghost var d := disk.View();
    var sector := disk.GetUnusedSector();
    ghost var e := disk.View();
    NextFreeFits(e, sector);
    sid := SidFormat(deviceId, sector);
    SidRoundTrip(deviceId, sector);
    var _ := disk.NoteSectorUsed(sid);
    ghost var d1 := disk.View();
    TakenOne(d, e, d1, sector, d1.sectors[sector]);

    var locaSid, ret;
    ghost var l;
    locaSid, ret, l := TakeSector(disk, SF_LOCA);
    ghost var d2 := disk.View();
    AllocatedThen(d, d1, d2, [sector], [l]);

    var metaLen := if |meta| < META_MAXLEN - 1 then |meta| else META_MAXLEN - 1;
    var data := HeaderData(meta[..metaLen], locaSid);
    HeaderFields(meta[..metaLen], locaSid);
    var _ := disk.WriteSector(sid, data);
    c := Container(sector, [l], [], 0);
    InitDone(d, d2, disk.id, c, data);
  }
}
