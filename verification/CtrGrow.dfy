/** Growing a container (ctr_size.c, fs_cnt_grow_size). */
module CtrGrow {
  import opened Layout
  import opened VirtualDisk
  import opened Containers
  import opened CtrInit

  // The chain is stored except for the link words of its last locator, still held in a buffer.
  ghost predicate ChainButLast(d: Disk, id: nat, locas: seq<nat>, cores: seq<nat>) {
    && |d.used| == |d.sectors|
    && ShapeOk(locas, cores)
    && (forall k :: 0 <= k < |locas| ==> InUse(d, locas[k]))
    && (forall k :: 0 <= k < |locas| - 1 ==> LocaOk(d.sectors[locas[k]], id, locas, cores, k))
    && (forall j :: 0 <= j < |cores| ==> InUse(d, cores[j]) && Tag(d.sectors[cores[j]]) == SF_CORE)
  }

  // From d to e a container grew from (locas, cores) to (ls, cs): the added sectors were
  // unused, added cores are blank, and of the sectors in use before, only `touched` was rewritten.
  ghost predicate Grown(d: Disk, e: Disk, locas: seq<nat>, cores: seq<nat>, ls: seq<nat>, cs: seq<nat>, touched: nat) {
    && DiskOk(e) && |d.used| == |d.sectors| <= |e.used| == |e.sectors|
    && locas <= ls && cores <= cs
    && (forall k :: |locas| <= k < |ls| ==> InUse(e, ls[k]) && !InUse(d, ls[k]))
    && (forall j :: |cores| <= j < |cs| ==> InUse(e, cs[j]) && !InUse(d, cs[j]) && e.sectors[cs[j]] == Blank(SF_CORE))
    && (forall s: nat :: InUse(e, s) ==> InUse(d, s) || s in ls || s in cs)
    && (forall s: nat :: InUse(d, s) ==> InUse(e, s) && (s != touched ==> e.sectors[s] == d.sectors[s]))
  }

  lemma StoreLast(d: Disk, id: nat, locas: seq<nat>, cores: seq<nat>, data: Sector)
    requires ChainButLast(d, id, locas, cores) && LocaOk(data, id, locas, cores, |locas| - 1)
    ensures ChainOk(Written(d, locas[|locas| - 1], data), id, locas, cores, 0)
  {
  }

  lemma AddCores(d: Disk, e: Disk, id: nat, locas: seq<nat>, cores: seq<nat>, taken: seq<nat>)
    requires ChainButLast(d, id, locas, cores) && Allocated(d, e, taken)
    requires |cores| + |taken| <= LINKS_IN_LOCA * |locas|
    requires forall i :: 0 <= i < |taken| ==> InUse(e, taken[i]) && Tag(e.sectors[taken[i]]) == SF_CORE
    ensures ChainButLast(e, id, locas, cores + taken)
  {
  }

  lemma GrownByCores(d: Disk, e: Disk, f: Disk, locas: seq<nat>, cores: seq<nat>, ls: seq<nat>, cs: seq<nat>,
                     touched: nat, taken: seq<nat>)
    requires Grown(d, e, locas, cores, ls, cs, touched) && Allocated(e, f, taken)
    requires forall i :: 0 <= i < |taken| ==> InUse(f, taken[i]) && f.sectors[taken[i]] == Blank(SF_CORE)
    ensures Grown(d, f, locas, cores, ls, cs + taken, touched)
  {
  }

  lemma GrownByLoca(d: Disk, e: Disk, f: Disk, locas: seq<nat>, cores: seq<nat>, ls: seq<nat>, cs: seq<nat>,
                    touched: nat, n: nat)
    requires Grown(d, e, locas, cores, ls, cs, touched) && Allocated(e, f, [n]) && InUse(f, n)
    ensures Grown(d, f, locas, cores, ls + [n], cs, touched)
  {
  }

  lemma GrownByWrite(d: Disk, e: Disk, locas: seq<nat>, cores: seq<nat>, ls: seq<nat>, cs: seq<nat>,
                     touched: nat, s: nat, data: Sector)
    requires Grown(d, e, locas, cores, ls, cs, touched) && s < |e.sectors|
    requires s == touched || !InUse(d, s)
    requires s !in cs
    ensures Grown(d, Written(e, s, data), locas, cores, ls, cs, touched)
  {
    hide DiskOk;
    var f := Written(e, s, data);
    WrittenOk(e, s, data);
    forall t: nat ensures InUse(f, t) <==> InUse(e, t) {}
  }

  // A full last locator, linked to a new blank one.
  lemma AddLoca(d: Disk, e: Disk, id: nat, locas: seq<nat>, cores: seq<nat>, n: nat, data: Sector, nsid: word)
    requires ChainButLast(d, id, locas, cores) && Allocated(d, e, [n]) && InUse(e, n)
    requires |cores| == LINKS_IN_LOCA * |locas|
    requires LocaOk(data, id, locas, cores, |locas| - 1)
    requires n < MAX_SECTORS && id < 256 && nsid == SidFormat(id, n)
    ensures var last := locas[|locas| - 1];
            last < |e.sectors| && ChainButLast(Written(e, last, SetLast(data, nsid)), id, locas + [n], cores)
  {
    var last := locas[|locas| - 1];
    var ls := locas + [n];
    var f := Written(e, last, SetLast(data, nsid));
    SetLastFields(data, nsid);
    forall k | 0 <= k < |ls| - 1 ensures LocaOk(f.sectors[ls[k]], id, ls, cores, k) {
    }
  }

  lemma BlankLoca(id: nat, locas: seq<nat>, cores: seq<nat>)
    requires |locas| >= 1 && |cores| == LINKS_IN_LOCA * (|locas| - 1)
    ensures LocaOk(Blank(SF_LOCA), id, locas, cores, |locas| - 1)
  {
  }

  lemma FillOne(data: Sector, id: nat, locas: seq<nat>, cores: seq<nat>, k: nat, s: nat, sid: word)
    requires LocaOk(data, id, locas, cores, k)
    requires LINKS_IN_LOCA * k <= |cores| < LINKS_IN_LOCA * (k + 1)
    requires s < MAX_SECTORS && id < 256 && sid == SidFormat(id, s)
    ensures LocaOk(SetLink(data, |cores| - LINKS_IN_LOCA * k, sid), id, locas, cores + [s], k)
  {
    var n := |cores| - LINKS_IN_LOCA * k;
    SetLinkFields(data, n, sid);
  }

  lemma FillNext(data: Sector, id: nat, locas: seq<nat>, cores: seq<nat>, taken: seq<nat>, k: nat, s: nat, sid: word)
    requires LocaOk(data, id, locas, cores + taken, k)
    requires LINKS_IN_LOCA * k <= |cores| + |taken| < LINKS_IN_LOCA * (k + 1)
    requires s < MAX_SECTORS && id < 256 && sid == SidFormat(id, s)
    ensures LocaOk(SetLink(data, |cores| + |taken| - LINKS_IN_LOCA * k, sid), id, locas, cores + (taken + [s]), k)
  {
    FillOne(data, id, locas, cores + taken, k, s, sid);
  }

  // The "fill loca" loop, run on the old last locator and on every new one.
  method FillLoca(disk: Vdisk, data: Sector, count: nat, toGrow: nat, ghost locas: seq<nat>, ghost cores: seq<nat>)
    returns (data': Sector, toGrow': nat, ghost taken: seq<nat>)
    requires disk.Valid() && HasRoom(disk.View(), toGrow)
    requires |locas| >= 1 && count <= LINKS_IN_LOCA && |cores| == LINKS_IN_LOCA * (|locas| - 1) + count
    requires LocaOk(data, disk.id, locas, cores, |locas| - 1)
    modifies disk
    ensures disk.Valid() && Allocated(old(disk.View()), disk.View(), taken)
    ensures |taken| == (if toGrow <= LINKS_IN_LOCA - count then toGrow else LINKS_IN_LOCA - count)
    ensures toGrow' == toGrow - |taken|
    ensures forall i :: 0 <= i < |taken| ==>
              InUse(disk.View(), taken[i]) && disk.sectors[taken[i]] == Blank(SF_CORE)
    ensures LocaOk(data', disk.id, locas, cores + taken, |locas| - 1)
  {
    hide DiskOk, Allocated, LocaOk, Blank;
    data', toGrow', taken := data, toGrow, [];
    var coreCount := count;
    assert cores + taken == cores;
    AllocatedNone(disk.View());
    while coreCount < LINKS_IN_LOCA && toGrow' > 0
      invariant disk.Valid() && HasRoom(disk.View(), toGrow')
      invariant |taken| == coreCount - count == toGrow - toGrow' && coreCount <= LINKS_IN_LOCA
      invariant Allocated(old(disk.View()), disk.View(), taken)
      invariant forall i :: 0 <= i < |taken| ==>
                  InUse(disk.View(), taken[i]) && disk.sectors[taken[i]] == Blank(SF_CORE)
      invariant LocaOk(data', disk.id, locas, cores + taken, |locas| - 1)
    {
      ghost var before := disk.View();
      var coreSid, ret;
      ghost var s;
      coreSid, ret, s := TakeSector(disk, SF_CORE);
      AllocatedThen(old(disk.View()), before, disk.View(), taken, [s]);
      FillNext(data', disk.id, locas, cores, taken, |locas| - 1, s, coreSid);
      coreCount := coreCount + 1;
      data' := SetWord(data', 4 * coreCount, coreSid);
      taken := taken + [s];
      toGrow' := toGrow' - 1;
    }
  }

  lemma CountLinks(s: Sector, id: nat, locas: seq<nat>, cores: seq<nat>, k: nat, i: nat)
    requires LocaOk(s, id, locas, cores, k) && i < LINKS_IN_LOCA && 0 < id < 256
    ensures Link(s, i) == SID_NULL <==> LINKS_IN_LOCA * k + i >= |cores|
    ensures LINKS_IN_LOCA * k + i < |cores| ==>
              SidSector(Link(s, i)) == cores[LINKS_IN_LOCA * k + i] && SidDisk(Link(s, i)) == id
  {
    var j := LINKS_IN_LOCA * k + i;
  }

  lemma FollowLink(w: word, id: nat, list: seq<nat>, j: nat)
    requires LinkTo(w, id, list, j) && 0 < id < 256
    ensures w == SID_NULL <==> j >= |list|
    ensures j < |list| ==> SidDisk(w) == id && SidSector(w) == list[j]
  {
  }

  // The do-while walk to the locator whose next link is null.
  method WalkToLast(disk: Vdisk, locaSid: word, ghost locas: seq<nat>, ghost cores: seq<nat>)
      returns (ret: int, loca: word)
    requires disk.Valid() && ChainOk(disk.View(), disk.id, locas, cores, 0) && LinkTo(locaSid, disk.id, locas, 0)
    ensures ret == 0 && LinkTo(loca, disk.id, locas, |locas| - 1)
  {
    loca := locaSid;
    ghost var k := 0;
    while true
      invariant 0 <= k < |locas| && LinkTo(loca, disk.id, locas, k)
      decreases |locas| - k
    {
      FollowLink(loca, disk.id, locas, k);
      assert InUse(disk.View(), locas[k]) && LocaOk(disk.sectors[locas[k]], disk.id, locas, cores, k);
      var inUse := disk.IsSectorUsed(loca);
      if !inUse {
        return -1, loca;
      }
      var _, data := disk.LoadSector(loca);
      if Tag(data) != SF_LOCA {
        return -1, loca;
      }
      var nextSid := Last(data);
      if nextSid == SID_NULL {
        return 0, loca;
      }
      loca := nextSid;
      k := k + 1;
    }
  }

  // The "check if loca is full" loop.
  method UsedLinks(data: Sector, ghost id: nat, ghost locas: seq<nat>, ghost cores: seq<nat>, ghost k: nat)
    returns (coreCount: nat)
    requires 0 < id < 256 && LocaOk(data, id, locas, cores, k)
    requires LINKS_IN_LOCA * k <= |cores| <= LINKS_IN_LOCA * (k + 1)
    ensures |cores| == LINKS_IN_LOCA * k + coreCount
  {
    coreCount := 0;
    while coreCount < LINKS_IN_LOCA
      invariant coreCount <= LINKS_IN_LOCA && LINKS_IN_LOCA * k + coreCount <= |cores|
    {
      if Link(data, coreCount) == SID_NULL {
        break;
      }
      coreCount := coreCount + 1;
    }
  }

  // What the loops of GrowSize keep: `data` is the pending last locator of the chain (ls, cs).
  ghost predicate Growing(d: Disk, e: Disk, id: nat, locas: seq<nat>, cores: seq<nat>,
                          ls: seq<nat>, cs: seq<nat>, loca: word, data: Sector)
  {
    && |locas| >= 1
    && ChainButLast(e, id, ls, cs) && LocaOk(data, id, ls, cs, |ls| - 1)
    && Grown(d, e, locas, cores, ls, cs, locas[|locas| - 1])
    && LinkTo(loca, id, ls, |ls| - 1)
    && (forall k :: 0 <= k < |locas| ==> InUse(d, locas[k]))
  }

  lemma LastOfGrowing(d: Disk, e: Disk, id: nat, locas: seq<nat>, cores: seq<nat>,
                      ls: seq<nat>, cs: seq<nat>, loca: word, data: Sector)
    requires Growing(d, e, id, locas, cores, ls, cs, loca, data) && 0 < id < 256
    ensures |ls| >= 1
    ensures var n := ls[|ls| - 1];
            && InUse(e, n) && n !in cs && (n == locas[|locas| - 1] || !InUse(d, n))
            && SidDisk(loca) == id && SidSector(loca) == n
  {
  }

  // One round of the "create new locator" loop, up to the new locator being loaded.
  method LinkNewLocator(disk: Vdisk, loca: word, data: Sector, ghost d: Disk,
                        ghost locas: seq<nat>, ghost cores: seq<nat>, ghost ls: seq<nat>, ghost cs: seq<nat>)
    returns (loca': word, data': Sector, ghost ls': seq<nat>)
    requires disk.Valid() && HasRoom(disk.View(), 1)
    requires Growing(d, disk.View(), disk.id, locas, cores, ls, cs, loca, data)
    requires |cs| == LINKS_IN_LOCA * |ls|
    modifies disk
    ensures disk.Valid() && disk.usedCount == old(disk.usedCount) + 1
    ensures |ls'| == |ls| + 1 && Growing(d, disk.View(), disk.id, locas, cores, ls', cs, loca', data')
  {
    ghost var id := disk.id;
    ghost var e := disk.View();
    LastOfGrowing(d, e, id, locas, cores, ls, cs, loca, data);
    var newSid, ret;
    ghost var n;
    newSid, ret, n := TakeSector(disk, SF_LOCA);
    ghost var f := disk.View();
    AddLoca(e, f, id, ls, cs, n, data, newSid);
    GrownByLoca(d, e, f, locas, cores, ls, cs, locas[|locas| - 1], n);
    ghost var last := ls[|ls| - 1];
    GrownByWrite(d, f, locas, cores, ls + [n], cs, locas[|locas| - 1], last, SetLast(data, newSid));
    assert InUse(f, last);
    var _ := disk.WriteSector(loca, SetLast(data, newSid));
    ls' := ls + [n];
    loca' := newSid;
    FollowLink(loca', id, ls', |ls'| - 1);
    BlankLoca(id, ls', cs);
    assert n in [n] && n != last;
    var ok;
    ok, data' := disk.LoadSector(loca');
  }

  method FillLast(disk: Vdisk, loca: word, data: Sector, count: nat, toGrow: nat, ghost d: Disk,
                  ghost locas: seq<nat>, ghost cores: seq<nat>, ghost ls: seq<nat>, ghost cs: seq<nat>)
    returns (data': Sector, toGrow': nat, ghost cs': seq<nat>)
    requires disk.Valid() && HasRoom(disk.View(), toGrow)
    requires Growing(d, disk.View(), disk.id, locas, cores, ls, cs, loca, data)
    requires |cs| == LINKS_IN_LOCA * (|ls| - 1) + count
    modifies disk
    ensures disk.Valid() && disk.usedCount == old(disk.usedCount) + toGrow - toGrow'
    ensures Growing(d, disk.View(), disk.id, locas, cores, ls, cs', loca, data')
    ensures |cs'| - |cs| == toGrow - toGrow' >= 0
    ensures toGrow' > 0 ==> |cs'| == LINKS_IN_LOCA * |ls|
    ensures count < LINKS_IN_LOCA && toGrow > 0 ==> toGrow' < toGrow
  {
    ghost var e := disk.View();
    ghost var taken;
    data', toGrow', taken := FillLoca(disk, data, count, toGrow, ls, cs);
    AddCores(e, disk.View(), disk.id, ls, cs, taken);
    GrownByCores(d, e, disk.View(), locas, cores, ls, cs, locas[|locas| - 1], taken);
    cs' := cs + taken;
  }

  lemma ChainEnds(d: Disk, id: nat, locas: seq<nat>, cores: seq<nat>)
    requires ChainOk(d, id, locas, cores, 0)
    ensures |locas| >= 1 && LINKS_IN_LOCA * (|locas| - 1) <= |cores| <= LINKS_IN_LOCA * |locas|
    ensures var last := locas[|locas| - 1];
            InUse(d, last) && |d.used| == |d.sectors| && LocaOk(d.sectors[last], id, locas, cores, |locas| - 1)
  {
  }

  lemma GrowingStart(d: Disk, id: nat, locas: seq<nat>, cores: seq<nat>, loca: word)
    requires DiskOk(d) && ChainOk(d, id, locas, cores, 0) && LinkTo(loca, id, locas, |locas| - 1)
    ensures locas[|locas| - 1] < |d.sectors|
    ensures Growing(d, d, id, locas, cores, locas, cores, loca, d.sectors[locas[|locas| - 1]])
  {
  }

  // fs_cnt_grow_size on a well-formed chain: toGrow blank cores are appended.
  method GrowSize(disk: Vdisk, locaSid: word, toGrow: nat, ghost locas: seq<nat>, ghost cores: seq<nat>)
    returns (ret: int, ghost ls: seq<nat>, ghost cs: seq<nat>)
    requires disk.Valid() && HasRoom(disk.View(), 2 * toGrow)
    requires ChainOk(disk.View(), disk.id, locas, cores, 0) && LinkTo(locaSid, disk.id, locas, 0)
    modifies disk
    ensures disk.Valid() && ret == 0
    ensures |cs| == |cores| + toGrow && |locas| >= 1
    ensures ChainOk(disk.View(), disk.id, ls, cs, 0)
    ensures Grown(old(disk.View()), disk.View(), locas, cores, ls, cs, locas[|locas| - 1])
  {
    hide ChainButLast, LocaOk, Grown, ChainOk, DiskOk, LinkTo;
    ghost var d := disk.View();
    ChainEnds(d, disk.id, locas, cores);
    FollowLink(locaSid, disk.id, locas, 0);
    if SidDisk(locaSid) != disk.id {
      return -1, locas, cores;
    }
    var loca;
    ret, loca := WalkToLast(disk, locaSid, locas, cores);
    if ret != 0 {
      return ret, locas, cores;
    }
    FollowLink(loca, disk.id, locas, |locas| - 1);
    var _, data := disk.LoadSector(loca);
    var coreCount := UsedLinks(data, disk.id, locas, cores, |locas| - 1);
    GrowingStart(d, disk.id, locas, cores, loca);

    var todo := toGrow;
    ls := locas;
    data, todo, cs := FillLast(disk, loca, data, coreCount, todo, d, locas, cores, ls, cores);
    while todo > 0
      invariant disk.Valid() && HasRoom(disk.View(), 2 * todo)
      invariant |cs| == |cores| + toGrow - todo && (todo > 0 ==> |cs| == LINKS_IN_LOCA * |ls|)
      invariant Growing(d, disk.View(), disk.id, locas, cores, ls, cs, loca, data)
      decreases todo
    {
      loca, data, ls := LinkNewLocator(disk, loca, data, d, locas, cores, ls, cs);
      data, todo, cs := FillLast(disk, loca, data, 0, todo, d, locas, cores, ls, cs);
    }
    LastOfGrowing(d, disk.View(), disk.id, locas, cores, ls, cs, loca, data);
    StoreLast(disk.View(), disk.id, ls, cs, data);
    GrownByWrite(d, disk.View(), locas, cores, ls, cs, locas[|locas| - 1], ls[|ls| - 1], data);
    var _ := disk.WriteSector(loca, data);
    return 0, ls, cs;
  }
}
