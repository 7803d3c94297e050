/** Shrinking a container (ctr_size.c, fs_cnt_shrink_size). */
module CtrShrink {
  import opened Lists
  import opened Layout
  import opened VirtualDisk
  import opened Containers
  import opened CtrGrow

  // The sectors listed in `gone` were given back to the disk and nothing else changed.
  ghost predicate Freed(d: Disk, e: Disk, gone: seq<nat>) {
    && DiskOk(e) && |e.used| == |d.used| && e.sectors == d.sectors
    && (forall s: nat :: InUse(e, s) <==> InUse(d, s) && s !in gone)
  }

  lemma FreedNone(d: Disk)
    requires DiskOk(d)
    ensures Freed(d, d, [])
  {
  }

  lemma FreedOne(d: Disk, e: Disk, gone: seq<nat>, s: nat)
    requires Freed(d, e, gone) && InUse(e, s)
    ensures 0 < e.usedCount <= |e.free| && Freed(d, MarkUnused(e, s), [s] + gone)
  {
    MarkUnusedOk(e, s);
  }

  // What is left when n cores are taken off the end of the chain seen from locator k on.
  function CoresLeft(count: nat, n: nat, k: nat): nat {
    if count - n < LINKS_IN_LOCA * k then LINKS_IN_LOCA * k else count - n
  }

  function LocasLeft(locas: nat, count: nat, n: nat, k: nat): nat {
    if count - n < LINKS_IN_LOCA * k then k
    else if locas <= (count - n) / LINKS_IN_LOCA + 1 then locas
    else (count - n) / LINKS_IN_LOCA + 1
  }

  // The return value: cores still to remove before locator k, or 0, or -2 when the chain
  // beyond locator k absorbed the whole request.
  function ShrinkRet(locas: nat, count: nat, n: nat, k: nat): int {
    if count - n < LINKS_IN_LOCA * k then LINKS_IN_LOCA * k - (count - n)
    else if k == locas - 1 || count - n < LINKS_IN_LOCA * (k + 1) then 0
    else -2
  }

  // How the results at locator k follow from those at locator k + 1.
  lemma ShrinkArith(locas: nat, count: nat, n: nat, k: nat)
    requires k < locas && LINKS_IN_LOCA * (locas - 1) <= count <= LINKS_IN_LOCA * locas
    ensures k < locas - 1 ==>
              var deeper := ShrinkRet(locas, count, n, k + 1);
              if deeper <= 0 then
                && ShrinkRet(locas, count, n, k) == -2
                && deeper in {0, -2}
                && LocasLeft(locas, count, n, k) == LocasLeft(locas, count, n, k + 1) > k + 1
                && CoresLeft(count, n, k) == CoresLeft(count, n, k + 1) >= LINKS_IN_LOCA * (k + 1)
              else
                && LocasLeft(locas, count, n, k + 1) == k + 1
                && CoresLeft(count, n, k + 1) == LINKS_IN_LOCA * (k + 1)
                && SameCut(locas, count, n, k, LINKS_IN_LOCA * (k + 1), deeper)
    ensures k == locas - 1 ==> SameCut(locas, count, n, k, count, n)
  {
  }

  // Cutting n cores of the whole chain comes to cutting todo of the nc cores up to locator k.
  predicate SameCut(locas: nat, count: nat, n: nat, k: nat, nc: nat, todo: nat) {
    && ShrinkRet(k + 1, nc, todo, k) == ShrinkRet(locas, count, n, k)
    && LocasLeft(k + 1, nc, todo, k) == LocasLeft(locas, count, n, k)
    && CoresLeft(nc, todo, k) == CoresLeft(count, n, k)
  }

  // From d to e the chain from locator k on was cut to nl locators and nc cores.
  ghost predicate Shrunk(d: Disk, e: Disk, id: nat, locas: seq<nat>, cores: seq<nat>, k: nat, nl: nat, nc: nat) {
    && DiskOk(e) && |e.used| == |d.used| == |d.sectors|
    && k <= nl <= |locas| && nc <= |cores|
    && (forall s: nat :: InUse(e, s) <==> InUse(d, s) && s !in locas[nl..] && s !in cores[nc..])
    && (forall s: nat :: InUse(d, s) && s !in locas[k..] ==> e.sectors[s] == d.sectors[s])
    && (nl > k ==> ChainOk(e, id, locas[..nl], cores[..nc], k))
  }

  lemma UnlinkOne(data: Sector, id: nat, locas: seq<nat>, cores: seq<nat>, k: nat, i: nat)
    requires LocaOk(data, id, locas, cores, k) && i < LINKS_IN_LOCA && |cores| == LINKS_IN_LOCA * k + i + 1
    ensures LocaOk(SetLink(data, i, 0), id, locas, cores[..|cores| - 1], k)
  {
    SetLinkFields(data, i, 0);
  }

  // Taking core nc - 1 off the disk and its link off the buffer.
  lemma RemoveOne(d: Disk, e: Disk, data: Sector, id: nat, locas: seq<nat>, cores: seq<nat>, k: nat, nc: nat, i: nat)
    requires LINKS_IN_LOCA * k <= LINKS_IN_LOCA * k + i == nc - 1 < |cores| && i < LINKS_IN_LOCA && NoDup(cores)
    requires Freed(d, e, cores[nc..]) && InUse(d, cores[nc - 1])
    requires LocaOk(data, id, locas, cores[..nc], k)
    ensures InUse(e, cores[nc - 1]) && 0 < e.usedCount <= |e.free|
    ensures Freed(d, MarkUnused(e, cores[nc - 1]), cores[nc - 1..])
    ensures LocaOk(SetLink(data, i, 0), id, locas, cores[..nc - 1], k)
  {
    hide Freed, LocaOk, DiskOk;
    StillThere(d, e, cores, nc);
    FreedOne(d, e, cores[nc..], cores[nc - 1]);
    SlicesMeet(cores, nc);
    UnlinkOne(data, id, locas, cores[..nc], k, i);
  }

  lemma StillThere(d: Disk, e: Disk, cores: seq<nat>, nc: nat)
    requires 0 < nc <= |cores| && NoDup(cores) && Freed(d, e, cores[nc..]) && InUse(d, cores[nc - 1])
    ensures InUse(e, cores[nc - 1])
  {
  }

  lemma SlicesMeet(list: seq<nat>, n: nat)
    requires 0 < n <= |list|
    ensures list[n - 1..] == [list[n - 1]] + list[n..]
    ensures list[..n][..n - 1] == list[..n - 1]
  {
  }

  // The "remove core sectors" loop on locator k: from the last slot down, skipping null slots.
  method RemoveCores(disk: Vdisk, data: Sector, toShrink: nat, ghost locas: seq<nat>, ghost cores: seq<nat>,
                     ghost k: nat)
    returns (data': Sector, toShrink': nat, ghost nc: nat)
    requires disk.Valid() && LINKS_IN_LOCA * k <= |cores| <= LINKS_IN_LOCA * (k + 1) && NoDup(cores)
    requires LocaOk(data, disk.id, locas, cores, k)
    requires forall j :: LINKS_IN_LOCA * k <= j < |cores| ==> InUse(disk.View(), cores[j])
    modifies disk
    ensures disk.Valid()
    ensures nc == CoresLeft(|cores|, toShrink, k) <= |cores| && toShrink' == toShrink - (|cores| - nc)
    ensures LocaOk(data', disk.id, locas, cores[..nc], k)
    ensures Freed(old(disk.View()), disk.View(), cores[nc..])
  {
    hide LocaOk, DiskOk, Freed;
    data', toShrink', nc := data, toShrink, |cores|;
    assert cores[..nc] == cores && cores[nc..] == [];
    FreedNone(disk.View());
    var i := LINKS_IN_LOCA;
    while toShrink' > 0 && i > 0
      invariant 0 <= i <= LINKS_IN_LOCA && LINKS_IN_LOCA * k <= nc <= |cores|
      invariant nc <= LINKS_IN_LOCA * k + i
      invariant toShrink' == toShrink - (|cores| - nc) >= 0
      invariant disk.Valid() && Freed(old(disk.View()), disk.View(), cores[nc..])
      invariant LocaOk(data', disk.id, locas, cores[..nc], k)
      invariant |disk.used| == old(|disk.used|)
      decreases i
    {
      i := i - 1;
      var coreSid := Link(data', i);
      CountLinks(data', disk.id, locas, cores[..nc], k, i);
      if coreSid == SID_NULL {
        continue;
      }
      RemoveOne(old(disk.View()), disk.View(), data', disk.id, locas, cores, k, nc, i);
      var _ := disk.NoteSectorUnused(coreSid);
      data' := SetLink(data', i, 0);
      nc := nc - 1;
      toShrink' := toShrink' - 1;
    }
  }

  // A locator stays stored when the chain is cut beyond it.
  lemma LocaKept(s: Sector, id: nat, locas: seq<nat>, cores: seq<nat>, k: nat, nl: nat, nc: nat)
    requires LocaOk(s, id, locas, cores, k)
    requires k + 1 < nl <= |locas| && LINKS_IN_LOCA * (k + 1) <= nc <= |cores|
    ensures LocaOk(s, id, locas[..nl], cores[..nc], k)
  {
  }

  // The recursive call did all the work: locator k is untouched and still right.
  lemma ShrunkBeyond(d: Disk, e: Disk, id: nat, locas: seq<nat>, cores: seq<nat>, k: nat, nl: nat, nc: nat)
    requires ChainOk(d, id, locas, cores, k) && Shrunk(d, e, id, locas, cores, k + 1, nl, nc)
    requires k + 1 < nl && LINKS_IN_LOCA * (k + 1) <= nc
    ensures Shrunk(d, e, id, locas, cores, k, nl, nc)
  {
    var ls, cs := locas[..nl], cores[..nc];
    assert locas[k] !in locas[k + 1..] && locas[k] !in locas[nl..] && locas[k] !in cores[nc..];
    LocaKept(d.sectors[locas[k]], id, locas, cores, k, nl, nc);
    forall j | LINKS_IN_LOCA * k <= j < |cs| ensures InUse(e, cs[j]) && Tag(e.sectors[cs[j]]) == SF_CORE {
      assert cores[j] !in locas[nl..] && cores[j] !in cores[nc..] && cores[j] !in locas[k + 1..];
    }
    forall j | k <= j < |ls| ensures InUse(e, ls[j]) && LocaOk(e.sectors[ls[j]], id, ls, cs, j) {}
    forall s: nat | InUse(d, s) && s !in locas[k..] ensures e.sectors[s] == d.sectors[s] {
    }
  }

  // The state when locator k's own links have been removed from its buffer: e is the
  // state after the recursive call (if any), f the one after freeing cores nc'..nc.
  ghost predicate CutHere(d: Disk, e: Disk, f: Disk, id: nat, locas: seq<nat>, cores: seq<nat>, k: nat, nc: nat,
                          nc': nat) {
    && DiskOk(d) && ChainOk(d, id, locas, cores, k) && k < |locas|
    && LINKS_IN_LOCA * k <= nc' <= nc <= |cores|
    && (if k == |locas| - 1 then e == d && nc == |cores|
        else nc == LINKS_IN_LOCA * (k + 1) && Shrunk(d, e, id, locas, cores, k + 1, k + 1, nc))
    && Freed(e, f, cores[..nc][nc'..])
  }

  lemma CutStart(d: Disk, e: Disk, id: nat, locas: seq<nat>, cores: seq<nat>, k: nat, nc: nat)
    requires DiskOk(d) && DiskOk(e) && ChainOk(d, id, locas, cores, k) && k < |locas|
    requires LINKS_IN_LOCA * k <= nc <= |cores|
    requires if k == |locas| - 1 then e == d && nc == |cores|
             else nc == LINKS_IN_LOCA * (k + 1) && Shrunk(d, e, id, locas, cores, k + 1, k + 1, nc)
    ensures CutHere(d, e, e, id, locas, cores, k, nc, nc)
  {
  }

  lemma CutMore(d: Disk, e: Disk, f: Disk, id: nat, locas: seq<nat>, cores: seq<nat>, k: nat, nc: nat, nc': nat)
    requires CutHere(d, e, e, id, locas, cores, k, nc, nc) && LINKS_IN_LOCA * k <= nc' <= nc <= |cores|
    requires Freed(e, f, cores[..nc][nc'..])
    ensures CutHere(d, e, f, id, locas, cores, k, nc, nc')
  {
  }

  lemma CutSoFar(d: Disk, e: Disk, f: Disk, id: nat, locas: seq<nat>, cores: seq<nat>, k: nat, nc: nat, nc': nat)
    requires CutHere(d, e, f, id, locas, cores, k, nc, nc')
    ensures DiskOk(f) && |f.used| == |d.used| == |d.sectors|
    ensures forall s: nat :: InUse(f, s) <==> InUse(d, s) && s !in locas[k + 1..] && s !in cores[nc'..]
    ensures forall s: nat :: InUse(d, s) && s !in locas[k + 1..] ==> f.sectors[s] == d.sectors[s]
    ensures k < |locas| && nc' <= |cores| && InUse(f, locas[k])
    ensures nc' <= LINKS_IN_LOCA * (k + 1) ==> ShapeOk(locas[..k + 1], cores[..nc'])
    ensures forall j :: LINKS_IN_LOCA * k <= j < nc' ==>
              InUse(f, cores[j]) && Tag(f.sectors[cores[j]]) == SF_CORE && cores[j] != locas[k]
  {
    hide LocaOk;
    assert cores[nc'..] == cores[..nc][nc'..] + cores[nc..];
    forall j | LINKS_IN_LOCA * k <= j < nc'
      ensures InUse(f, cores[j]) && Tag(f.sectors[cores[j]]) == SF_CORE && cores[j] != locas[k]
    {
      assert cores[j] !in locas[k + 1..] && cores[j] !in cores[nc'..];
    }
  }

  // Locator k became the last one: its buffer is stored after its surplus cores were freed.
  lemma ShrunkHere(d: Disk, e: Disk, f: Disk, id: nat, locas: seq<nat>, cores: seq<nat>, k: nat, nc: nat, nc': nat,
                   data: Sector)
    requires CutHere(d, e, f, id, locas, cores, k, nc, nc') && nc' <= LINKS_IN_LOCA * (k + 1)
    requires LocaOk(data, id, locas[..k + 1], cores[..nc'], k)
    ensures locas[k] < |f.sectors| && locas[k] < |f.used|
    ensures Shrunk(d, Written(f, locas[k], data), id, locas, cores, k, k + 1, nc')
  {
    hide LocaOk, DiskOk, Freed, Shrunk, CutHere;
    CutSoFar(d, e, f, id, locas, cores, k, nc, nc');
    var g := Written(f, locas[k], data);
    WrittenOk(f, locas[k], data);
    var ls, cs := locas[..k + 1], cores[..nc'];
    ShrunkIntro(d, g, id, locas, cores, k, k + 1, nc');
  }

  lemma ShrunkIntro(d: Disk, e: Disk, id: nat, locas: seq<nat>, cores: seq<nat>, k: nat, nl: nat, nc: nat)
    requires DiskOk(e) && |e.used| == |d.used| == |d.sectors|
    requires k <= nl <= |locas| && nc <= |cores|
    requires forall s: nat :: InUse(e, s) <==> InUse(d, s) && s !in locas[nl..] && s !in cores[nc..]
    requires forall s: nat :: InUse(d, s) && s !in locas[k..] ==> e.sectors[s] == d.sectors[s]
    requires nl > k ==> ChainOk(e, id, locas[..nl], cores[..nc], k)
    ensures Shrunk(d, e, id, locas, cores, k, nl, nc)
  {
  }

  // Locator k became empty before the request was met: it is given back as well.
  lemma ShrunkAway(d: Disk, e: Disk, f: Disk, id: nat, locas: seq<nat>, cores: seq<nat>, k: nat, nc: nat, data: Sector)
    requires CutHere(d, e, f, id, locas, cores, k, nc, LINKS_IN_LOCA * k)
    ensures InUse(f, locas[k]) && 0 < f.usedCount
    ensures Shrunk(d, Written(MarkUnused(f, locas[k]), locas[k], data), id, locas, cores, k, k, LINKS_IN_LOCA * k)
  {
    hide ChainOk, Freed, Shrunk, DiskOk, CutHere;
    CutSoFar(d, e, f, id, locas, cores, k, nc, LINKS_IN_LOCA * k);
    FreeAndWrite(f, locas[k], data);
    ShrunkIntro(d, Written(MarkUnused(f, locas[k]), locas[k], data), id, locas, cores, k, k, LINKS_IN_LOCA * k);
  }

  lemma InSuffix(list: seq<nat>, k: nat)
    requires k < |list|
    ensures forall s: nat :: s in list[k..] <==> s == list[k] || s in list[k + 1..]
  {
  }

  lemma FreeAndWrite(d: Disk, s: nat, data: Sector)
    requires DiskOk(d) && InUse(d, s)
    ensures 0 < d.usedCount <= |d.free|
    ensures var e := Written(MarkUnused(d, s), s, data);
            && DiskOk(e) && |e.used| == |d.used| == |e.sectors|
            && (forall t: nat :: InUse(e, t) <==> InUse(d, t) && t != s)
            && (forall t: nat :: InUse(d, t) && t != s ==> t < |d.sectors| && e.sectors[t] == d.sectors[t])
  {
    MarkUnusedOk(d, s);
    WrittenOk(MarkUnused(d, s), s, data);
  }

  lemma NextCut(data: Sector, id: nat, locas: seq<nat>, cores: seq<nat>, k: nat)
    requires LocaOk(data, id, locas, cores, k) && k < |locas|
    requires k < |locas| - 1 ==> |cores| >= LINKS_IN_LOCA * (k + 1)
    ensures k < |locas| - 1 ==>
              LocaOk(SetLast(data, 0), id, locas[..k + 1], cores[..LINKS_IN_LOCA * (k + 1)], k)
    ensures k == |locas| - 1 ==> LocaOk(data, id, locas[..k + 1], cores, k)
  {
    SetLastFields(data, 0);
  }

  // The checks at the head of fs_cnt_shrink_size, and what the loaded locator says.
  method LoadLocator(disk: Vdisk, locaSid: word, ghost locas: seq<nat>, ghost cores: seq<nat>, ghost k: nat)
    returns (ret: int, data: Sector)
    requires disk.Valid() && k < |locas|
    requires ChainOk(disk.View(), disk.id, locas, cores, k) && LinkTo(locaSid, disk.id, locas, k)
    ensures ret == 0 && SidSector(locaSid) == locas[k] && InUse(disk.View(), locas[k])
    ensures LINKS_IN_LOCA * (|locas| - 1) <= |cores| <= LINKS_IN_LOCA * |locas|
    ensures k == |locas| - 1 ==> Last(data) == SID_NULL && LocaOk(data, disk.id, locas[..k + 1], cores[..|cores|], k)
    ensures k < |locas| - 1 ==>
              && Last(data) != SID_NULL && LinkTo(Last(data), disk.id, locas, k + 1)
              && ChainOk(disk.View(), disk.id, locas, cores, k + 1)
              && LocaOk(SetLast(data, 0), disk.id, locas[..k + 1], cores[..LINKS_IN_LOCA * (k + 1)], k)
  {
    FollowLink(locaSid, disk.id, locas, k);
    data := Blank(0);
    if SidDisk(locaSid) != disk.id {
      return -1, data;
    }
    var inUse := disk.IsSectorUsed(locaSid);
    if !inUse {
      return -1, data;
    }
    ret, data := disk.LoadSector(locaSid);
    if Tag(data) != SF_LOCA {
      return -1, data;
    }
    NextCut(data, disk.id, locas, cores, k);
  }

  // fs_cnt_shrink_size on a well-formed chain.
  method ShrinkSize(disk: Vdisk, locaSid: word, toShrink: nat, ghost locas: seq<nat>, ghost cores: seq<nat>,
                    ghost k: nat)
    returns (ret: int)
    requires disk.Valid() && k < |locas|
    requires ChainOk(disk.View(), disk.id, locas, cores, k) && LinkTo(locaSid, disk.id, locas, k)
    modifies disk
    ensures disk.Valid()
    ensures ret == ShrinkRet(|locas|, |cores|, toShrink, k)
    ensures Shrunk(old(disk.View()), disk.View(), disk.id, locas, cores, k,
                   LocasLeft(|locas|, |cores|, toShrink, k), CoresLeft(|cores|, toShrink, k))
    decreases |locas| - k
  {
    hide ChainOk, LocaOk, DiskOk, Shrunk, Freed, CutHere, LinkTo, ShrinkRet, LocasLeft, CoresLeft;
    ghost var d := disk.View();
    var ok, data := LoadLocator(disk, locaSid, locas, cores, k);
    if ok != 0 {
      return -1;
    }
    var nextSid := Last(data);
    ShrinkArith(|locas|, |cores|, toShrink, k);
    var todo := toShrink;
    ghost var nc := |cores|;
    if nextSid != SID_NULL {
      ret := ShrinkSize(disk, nextSid, todo, locas, cores, k + 1);
      if ret <= 0 {
        ShrunkBeyond(d, disk.View(), disk.id, locas, cores, k,
                     LocasLeft(|locas|, |cores|, toShrink, k), CoresLeft(|cores|, toShrink, k));
        return if ret == 0 then -2 else ret;
      }
      data := SetLast(data, 0);
      todo := ret;
      nc := LINKS_IN_LOCA * (k + 1);
    }
    ghost var e := disk.View();
    CutStart(d, e, disk.id, locas, cores, k, nc);
    ret := FinishShrink(disk, locaSid, data, todo, locas, cores, k, nc, d);
  }

  // What happens at locator k itself, once the chain beyond it is gone.
  method FinishShrink(disk: Vdisk, locaSid: word, data: Sector, toShrink: nat,
                      ghost locas: seq<nat>, ghost cores: seq<nat>, ghost k: nat, ghost nc: nat, ghost d: Disk)
    returns (ret: nat)
    requires disk.Valid() && CutHere(d, disk.View(), disk.View(), disk.id, locas, cores, k, nc, nc)
    requires nc <= LINKS_IN_LOCA * (k + 1) && LocaOk(data, disk.id, locas[..k + 1], cores[..nc], k)
    requires SidSector(locaSid) == locas[k]
    modifies disk
    ensures disk.Valid()
    ensures ret == ShrinkRet(k + 1, nc, toShrink, k)
    ensures Shrunk(d, disk.View(), disk.id, locas, cores, k, LocasLeft(k + 1, nc, toShrink, k),
                   CoresLeft(nc, toShrink, k))
  {
    hide ChainOk, LocaOk, DiskOk, Shrunk, Freed, CutHere;
    ghost var e := disk.View();
    CutSoFar(d, e, e, disk.id, locas, cores, k, nc, nc);
    var todo, data';
    ghost var nc';
    data', todo, nc' := RemoveCores(disk, data, toShrink, locas[..k + 1], cores[..nc], k);
    ghost var f := disk.View();
    CutMore(d, e, f, disk.id, locas, cores, k, nc, nc');
    assert cores[..nc][..nc'] == cores[..nc'];
    if todo > 0 {
      ShrunkAway(d, e, f, disk.id, locas, cores, k, nc, data');
      var _ := disk.NoteSectorUnused(locaSid);
    } else {
      ShrunkHere(d, e, f, disk.id, locas, cores, k, nc, nc', data');
    }
    var _ := disk.WriteSector(locaSid, data');
    return todo;
  }
}
