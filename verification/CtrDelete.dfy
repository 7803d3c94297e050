/** Deleting a container (ctr_del.c). */
module CtrDelete {
  import opened Lists
  import opened Layout
  import opened VirtualDisk
  import opened Containers
  import opened CtrGrow
  import opened CtrShrink
  import opened CtrSize

  method DeleteCore(disk: Vdisk, coreSid: word) returns (ret: int)
    requires disk.Valid() && disk.Within(coreSid)
    modifies disk
    ensures disk.Valid()
    ensures var d := old(disk.View());
            var s := SidSector(coreSid);
            if SidDisk(coreSid) == disk.id && InUse(d, s) && Tag(d.sectors[s]) == SF_CORE
            then ret == 0 && 0 < d.usedCount && disk.View() == MarkUnused(d, s)
            else ret == 1 && disk.View() == d
  {
    if SidDisk(coreSid) != disk.id {
      return 1;
    }
    var inUse := disk.IsSectorUsed(coreSid);
    if !inUse {
      return 1;
    }
    var ok, data := disk.LoadSector(coreSid);
    if Tag(data) != SF_CORE {
      return 1;
    }
    var _ := disk.NoteSectorUnused(coreSid);
    var _ := disk.WriteSector(coreSid, data);
    return 0;
  }

  // The cores linked from locator k.
  ghost function CoresOf(cores: seq<nat>, k: nat): seq<nat>
    requires LINKS_IN_LOCA * k <= |cores|
  {
    if |cores| <= LINKS_IN_LOCA * (k + 1) then cores[LINKS_IN_LOCA * k..]
    else cores[LINKS_IN_LOCA * k..LINKS_IN_LOCA * (k + 1)]
  }

  ghost function CoreAt(cores: seq<nat>, k: nat, i: nat): nat
    requires LINKS_IN_LOCA * k + i < |cores|
  {
    cores[LINKS_IN_LOCA * k + i]
  }

  // Freeing core i of locator k after those before it.
  lemma DeleteOne(d: Disk, e: Disk, id: nat, locas: seq<nat>, cores: seq<nat>, k: nat, i: nat)
    requires LINKS_IN_LOCA * k + i < |cores| && i < LINKS_IN_LOCA && ChainOk(d, id, locas, cores, k)
    requires Freed(d, e, CoresOf(cores, k)[..i])
    ensures i < |CoresOf(cores, k)|
    ensures var s := CoreAt(cores, k, i);
            && InUse(e, s) && Tag(e.sectors[s]) == SF_CORE && 0 < e.usedCount <= |e.free|
            && Freed(d, MarkUnused(e, s), CoresOf(cores, k)[..i + 1])
  {
    hide DiskOk, ChainOk, Freed, CoresOf;
    CoreUsed(d, id, locas, cores, k, i);
    var list := CoresOf(cores, k);
    var s := CoreAt(cores, k, i);
    FreshInPrefix(cores, k, i);
    StillInUse(d, e, list[..i], s);
    FreedOne(d, e, list[..i], s);
    FreedSame(d, MarkUnused(e, s), [s] + list[..i], list[..i + 1]);
  }

  lemma CoreUsed(d: Disk, id: nat, locas: seq<nat>, cores: seq<nat>, k: nat, i: nat)
    requires LINKS_IN_LOCA * k + i < |cores| && ChainOk(d, id, locas, cores, k)
    ensures InUse(d, CoreAt(cores, k, i)) && Tag(d.sectors[CoreAt(cores, k, i)]) == SF_CORE
    ensures NoDup(cores)
  {
  }

  lemma StillInUse(d: Disk, e: Disk, gone: seq<nat>, s: nat)
    requires Freed(d, e, gone) && InUse(d, s) && s !in gone
    ensures InUse(e, s) && e.sectors == d.sectors
  {
  }

  lemma FreshInPrefix(cores: seq<nat>, k: nat, i: nat)
    requires LINKS_IN_LOCA * k + i < |cores| && i < LINKS_IN_LOCA && NoDup(cores)
    ensures i < |CoresOf(cores, k)| && CoreAt(cores, k, i) !in CoresOf(cores, k)[..i]
    ensures forall t: nat :: t in [CoreAt(cores, k, i)] + CoresOf(cores, k)[..i] <==> t in CoresOf(cores, k)[..i + 1]
  {
  }

  lemma FreedSame(d: Disk, e: Disk, gone: seq<nat>, gone': seq<nat>)
    requires Freed(d, e, gone) && forall s: nat :: s in gone <==> s in gone'
    ensures Freed(d, e, gone')
  {
  }

  // The loop over a locator's links, up to the first null one.
  method DeleteCores(disk: Vdisk, data: Sector, ghost locas: seq<nat>, ghost cores: seq<nat>, ghost k: nat)
      returns (ret: int)
    requires disk.Valid() && k < |locas| && ChainOk(disk.View(), disk.id, locas, cores, k)
    requires LINKS_IN_LOCA * k <= |cores| && LocaOk(data, disk.id, locas, cores, k)
    modifies disk
    ensures disk.Valid() && ret == 0
    ensures Freed(old(disk.View()), disk.View(), CoresOf(cores, k))
  {
    hide ChainOk, LocaOk, DiskOk, Freed, CoresOf;
    ghost var d := disk.View();
    FreedNone(d);
    CoresOfLength(cores, k);
    var i := 0;
    while i < LINKS_IN_LOCA
      invariant 0 <= i <= LINKS_IN_LOCA && LINKS_IN_LOCA * k + i <= |cores| && i <= |CoresOf(cores, k)|
      invariant disk.Valid() && Freed(d, disk.View(), CoresOf(cores, k)[..i])
    {
      var coreSid := Link(data, i);
      CountLinks(data, disk.id, locas, cores, k, i);
      if coreSid == SID_NULL {
        break;
      }
      DeleteOne(d, disk.View(), disk.id, locas, cores, k, i);
      ret := DeleteCore(disk, coreSid);
      if ret != 0 {
        return 1;
      }
      i := i + 1;
    }
    assert i == |CoresOf(cores, k)| && CoresOf(cores, k)[..i] == CoresOf(cores, k);
    return 0;
  }

  lemma CoresOfLength(cores: seq<nat>, k: nat)
    requires LINKS_IN_LOCA * k <= |cores|
    ensures |CoresOf(cores, k)| == if |cores| <= LINKS_IN_LOCA * (k + 1) then |cores| - LINKS_IN_LOCA * k
            else LINKS_IN_LOCA
  {
  }

  // Locators k onwards and their cores were given back; no sector was rewritten.
  ghost predicate DeletedFrom(d: Disk, e: Disk, locas: seq<nat>, cores: seq<nat>, k: nat)
    requires k <= |locas| && LINKS_IN_LOCA * k <= |cores|
  {
    && DiskOk(e) && |e.used| == |d.used| && e.sectors == d.sectors
    && (forall s: nat :: InUse(e, s) <==> InUse(d, s) && s !in locas[k..] && s !in cores[LINKS_IN_LOCA * k..])
  }

  lemma ChainBeyond(d: Disk, e: Disk, id: nat, locas: seq<nat>, cores: seq<nat>, k: nat)
    requires ChainOk(d, id, locas, cores, k) && LINKS_IN_LOCA * k <= |cores| && Freed(d, e, CoresOf(cores, k))
    ensures k < |locas| ==> InUse(e, locas[k])
    ensures k + 1 < |locas| ==> ChainOk(e, id, locas, cores, k + 1) && LINKS_IN_LOCA * (k + 1) <= |cores|
  {
    hide DiskOk, LocaOk;
    var list := CoresOf(cores, k);
  }

  lemma DeletedHere(d: Disk, e: Disk, f: Disk, id: nat, locas: seq<nat>, cores: seq<nat>, k: nat)
    requires ChainOk(d, id, locas, cores, k) && k < |locas| && LINKS_IN_LOCA * k <= |cores|
    requires Freed(d, e, CoresOf(cores, k))
    requires if k + 1 < |locas| then LINKS_IN_LOCA * (k + 1) <= |cores| && DeletedFrom(e, f, locas, cores, k + 1)
             else f == e
    ensures InUse(f, locas[k]) && 0 < f.usedCount <= |f.free|
    ensures DeletedFrom(d, MarkUnused(f, locas[k]), locas, cores, k)
  {
    hide DiskOk, LocaOk;
    InSuffix(locas, k);
    CoresSplit(cores, k);
    MarkUnusedOkLocal(f, locas[k]);
  }

  lemma MarkUnusedOkLocal(d: Disk, s: nat)
    requires DiskOk(d) && InUse(d, s)
    ensures 0 < d.usedCount <= |d.free|
    ensures var e := MarkUnused(d, s); DiskOk(e) && forall t: nat :: InUse(e, t) <==> InUse(d, t) && t != s
  {
    MarkUnusedOk(d, s);
  }

  lemma CoresSplit(cores: seq<nat>, k: nat)
    requires LINKS_IN_LOCA * k <= |cores|
    ensures forall s: nat :: s in cores[LINKS_IN_LOCA * k..] <==>
              s in CoresOf(cores, k) || (LINKS_IN_LOCA * (k + 1) < |cores| && s in cores[LINKS_IN_LOCA * (k + 1)..])
  {
  }

  method DeleteLocaRecur(disk: Vdisk, locaSid: word, ghost locas: seq<nat>, ghost cores: seq<nat>, ghost k: nat)
      returns (ret: int)
    requires disk.Valid() && k < |locas| && LINKS_IN_LOCA * k <= |cores|
    requires ChainOk(disk.View(), disk.id, locas, cores, k) && LinkTo(locaSid, disk.id, locas, k)
    modifies disk
    ensures disk.Valid() && ret == 0
    ensures DeletedFrom(old(disk.View()), disk.View(), locas, cores, k)
    decreases |locas| - k
  {
    hide ChainOk, LocaOk, DiskOk, Freed, DeletedFrom, CoresOf, LinkTo;
    ghost var d := disk.View();
    StoredLoca(d, disk.id, locas, cores, k, k);
    FollowLink(locaSid, disk.id, locas, k);
    if SidDisk(locaSid) != disk.id {
      return 1;
    }
    var inUse := disk.IsSectorUsed(locaSid);
    if !inUse {
      return 1;
    }
    var ok, data := disk.LoadSector(locaSid);
    if Tag(data) != SF_LOCA {
      return 1;
    }
    ret := DeleteCores(disk, data, locas, cores, k);
    if ret != 0 {
      return 1;
    }
    ghost var e := disk.View();
    ChainBeyond(d, e, disk.id, locas, cores, k);
    var nextSid := Last(data);
    FollowLink(nextSid, disk.id, locas, k + 1);
    if nextSid != SID_NULL {
      ret := DeleteLocaRecur(disk, nextSid, locas, cores, k + 1);
      if ret != 0 {
        return 1;
      }
    }
    DeletedHere(d, e, disk.View(), disk.id, locas, cores, k);
    var _ := disk.NoteSectorUnused(locaSid);
    return 0;
  }

  lemma StoredLoca(d: Disk, id: nat, locas: seq<nat>, cores: seq<nat>, from: nat, k: nat)
    requires ChainOk(d, id, locas, cores, from) && from <= k < |locas|
    ensures InUse(d, locas[k]) && LocaOk(d.sectors[locas[k]], id, locas, cores, k)
    ensures Tag(d.sectors[locas[k]]) == SF_LOCA && LinkTo(Last(d.sectors[locas[k]]), id, locas, k + 1)
  {
  }

  // e is d without the sectors of c.
  ghost predicate Deleted(d: Disk, e: Disk, c: Container) {
    && DiskOk(e) && |e.used| == |d.used| && e.sectors == d.sectors
    && (forall s: nat :: InUse(e, s) <==> InUse(d, s) && !Owns(c, s))
  }

  lemma DeletedAll(d: Disk, e: Disk, id: nat, c: Container)
    requires ContainerOk(d, id, c) && DeletedFrom(d, e, c.locas, c.cores, 0)
    ensures InUse(e, c.head) && 0 < e.usedCount <= |e.free|
    ensures Deleted(d, MarkUnused(e, c.head), c)
  {
    hide DiskOk, LocaOk;
    MarkUnusedOkLocal(e, c.head);
  }

  // fs_cnt_delete
  method Delete(disk: Vdisk, headSid: word, ghost c: Container) returns (ret: int)
    requires disk.Valid() && disk.Within(headSid)
    requires NamesHead(disk.View(), disk.id, headSid) ==>
               c.head == SidSector(headSid) && ContainerOk(disk.View(), disk.id, c)
    modifies disk
    ensures disk.Valid()
    ensures ret == if NamesHead(old(disk.View()), disk.id, headSid) then 0 else 1
    ensures ret == 1 ==> disk.View() == old(disk.View())
    ensures ret == 0 ==> Deleted(old(disk.View()), disk.View(), c)
  {
    hide DiskOk, ChainOk, DeletedFrom, Word;
    ghost var d := disk.View();
    if SidDisk(headSid) != disk.id {
      return 1;
    }
    var inUse := disk.IsSectorUsed(headSid);
    if !inUse {
      return 1;
    }
    var ok, data := disk.LoadSector(headSid);
    if Tag(data) != SF_HEAD {
      return 1;
    }
    ContainerParts(d, disk.id, c);
    var locaSid := Last(data);
    if locaSid != SID_NULL {
      ret := DeleteLocaRecur(disk, locaSid, c.locas, c.cores, 0);
      if ret != 0 {
        return 1;
      }
    }
    DeletedAll(d, disk.View(), disk.id, c);
    var _ := disk.NoteSectorUnused(headSid);
    return 0;
  }
}
