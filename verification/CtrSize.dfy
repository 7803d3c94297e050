/** Setting and reading the size of a container (ctr_size.c). */
module CtrSize {
  import opened Layout
  import opened VirtualDisk
  import opened Containers
  import opened CtrGrow
  import opened CtrShrink

  // The checks every container operation starts with.
  ghost predicate NamesHead(d: Disk, id: nat, sid: word) {
    && SidDisk(sid) == id && InUse(d, SidSector(sid))
    && SidSector(sid) < |d.sectors| && Tag(d.sectors[SidSector(sid)]) == SF_HEAD
  }

  function CeilCores(size: nat): nat { size / BYTE_IN_CORE + if size % BYTE_IN_CORE != 0 then 1 else 0 }

  // The new size is rounded differently from the old one.
  function WantedCores(size: nat): nat { size / BYTE_IN_CORE + if size != 0 then 1 else 0 }

  function CoresAfter(cores: nat, oldSize: nat, newSize: nat): int {
    cores + WantedCores(newSize) - CeilCores(oldSize)
  }

  lemma CeilIsCeil(size: nat, n: nat)
    ensures size <= BYTE_IN_CORE * n <==> CeilCores(size) <= n
  {
  }

  lemma WantedIsEnough(size: nat)
    ensures size <= BYTE_IN_CORE * WantedCores(size)
    ensures CeilCores(size) <= WantedCores(size)
  {
  }

  lemma ContainerParts(d: Disk, id: nat, c: Container)
    requires ContainerOk(d, id, c)
    ensures |c.locas| >= 1 && ChainOk(d, id, c.locas, c.cores, 0) && c.size <= BYTE_IN_CORE * |c.cores|
  {
  }

  // ------------------------------------------------------- the slack law, over any run

  // Cores beyond those the size needs.
  function Surplus(cores: int, size: nat): int { cores - CeilCores(size) }

  function CoresAfterAll(cores: int, size: nat, sizes: seq<nat>): int
    decreases |sizes|
  {
    if sizes == [] then cores
    else CoresAfterAll(cores + WantedCores(sizes[0]) - CeilCores(size), sizes[0], sizes[1..])
  }

  function LastSize(size: nat, sizes: seq<nat>): nat {
    if sizes == [] then size else sizes[|sizes| - 1]
  }

  function FullMultiples(sizes: seq<nat>): nat {
    if sizes == [] then 0
    else (if sizes[0] != 0 && sizes[0] % BYTE_IN_CORE == 0 then 1 else 0) + FullMultiples(sizes[1..])
  }

  // Over any run of fs_cnt_set_size calls the surplus rises by exactly one on each call that
  // lands on a nonzero multiple of the core payload, and is otherwise unchanged.
  lemma {:induction false} SlackLaw(cores: int, size: nat, sizes: seq<nat>)
    ensures Surplus(CoresAfterAll(cores, size, sizes), LastSize(size, sizes)) == Surplus(cores, size)
            + FullMultiples(sizes)
    decreases |sizes|
  {
    if sizes == [] {
    } else {
      SlackLaw(cores + WantedCores(sizes[0]) - CeilCores(size), sizes[0], sizes[1..]);
    }
  }

  // Hence a container that starts with enough cores always has enough, at every point of the
  // run, and shrinking never asks for more cores than there are.
  lemma {:induction false} NeverShort(cores: int, size: nat, sizes: seq<nat>)
    requires size <= BYTE_IN_CORE * cores
    ensures forall i :: 0 <= i <= |sizes| ==>
              && LastSize(size, sizes[..i]) <= BYTE_IN_CORE * CoresAfterAll(cores, size, sizes[..i])
              && CoresAfterAll(cores, size, sizes[..i]) - CeilCores(LastSize(size, sizes[..i])) >= 0
  {
    forall i | 0 <= i <= |sizes|
      ensures LastSize(size, sizes[..i]) <= BYTE_IN_CORE * CoresAfterAll(cores, size, sizes[..i])
    {
      SlackLaw(cores, size, sizes[..i]);
      CeilIsCeil(size, cores);
    }
  }

  // --------------------------------------------------------------- the operation

  // Payload bytes kept by a change of the core list, and blank new cores.
  ghost predicate KeepsBytes(d: Disk, e: Disk, cores: seq<nat>, cs: seq<nat>) {
    && CoresIn(d, cores) && CoresIn(e, cs)
    && (forall j :: 0 <= j < |cores| && j < |cs| ==> cs[j] == cores[j] && e.sectors[cs[j]] == d.sectors[cores[j]])
    && (forall j :: |cores| <= j < |cs| ==> e.sectors[cs[j]] == Blank(SF_CORE))
  }

  lemma KeptBytes(d: Disk, e: Disk, cores: seq<nat>, cs: seq<nat>, q: nat)
    requires KeepsBytes(d, e, cores, cs) && q < BYTE_IN_CORE * |cs|
    ensures ByteAt(e, cs, q) == if q < BYTE_IN_CORE * |cores| then ByteAt(d, cores, q) else 0
  {
  }

  // Writing outside a chain leaves the chain stored.
  lemma ChainAfterWrite(d: Disk, id: nat, locas: seq<nat>, cores: seq<nat>, s: nat, data: Sector)
    requires ChainOk(d, id, locas, cores, 0) && InUse(d, s) && s !in locas && s !in cores
    ensures ChainOk(Written(d, s, data), id, locas, cores, 0)
  {
  }

  // A header rewritten with a new size over a chain (ls, cs) at e.
  lemma Resized(d: Disk, e: Disk, id: nat, c: Container, c': Container, data: Sector)
    requires DiskOk(d) && DiskOk(e) && ContainerOk(d, id, c)
    requires c'.head == c.head && c'.size <= BYTE_IN_CORE * |c'.cores| && |c'.locas| >= 1 && c'.locas[0] == c.locas[0]
    requires ChainOk(e, id, c'.locas, c'.cores, 0)
    requires OnlyTouches(d, e, c, c') && KeepsBytes(d, e, c.cores, c'.cores)
    requires c.head !in c'.locas && c.head !in c'.cores && c'.size < 0x1_0000_0000
    requires data == SetSizeField(d.sectors[c.head], c'.size)
    ensures c.head < |e.used| && c.head < |e.sectors|
    ensures var f := Written(e, c.head, data);
            ContainerOk(f, id, c') && OnlyTouches(d, f, c, c') && KeepsBytes(d, f, c.cores, c'.cores)
            && SameButSize(d.sectors[c.head], f.sectors[c.head])
  {
    hide ChainOk, OnlyTouches, KeepsBytes, Word, SameButSize;
    ContainerParts(d, id, c);
    HeadStays(d, e, c, c');
    SetSizeFields(d.sectors[c.head], c'.size);
    ChainAfterWrite(e, id, c'.locas, c'.cores, c.head, data);
    TouchesAfterWrite(d, e, c, c', data);
    KeepsAfterWrite(d, e, c.cores, c'.cores, c.head, data);
  }

  lemma HeadStays(d: Disk, e: Disk, c: Container, c': Container)
    requires OnlyTouches(d, e, c, c') && c'.head == c.head
    ensures InUse(e, c.head) && |e.used| == |e.sectors|
  {
  }

  lemma TouchesAfterWrite(d: Disk, e: Disk, c: Container, c': Container, data: Sector)
    requires OnlyTouches(d, e, c, c') && c'.head == c.head && InUse(e, c.head) && |e.used| == |e.sectors|
    ensures OnlyTouches(d, Written(e, c.head, data), c, c')
  {
    hide DiskOk;
    WrittenOk(e, c.head, data);
  }

  lemma KeepsAfterWrite(d: Disk, e: Disk, cores: seq<nat>, cs: seq<nat>, s: nat, data: Sector)
    requires KeepsBytes(d, e, cores, cs) && s !in cs && s < |e.sectors|
    ensures KeepsBytes(d, Written(e, s, data), cores, cs)
  {
  }

  lemma GrownTouches(d: Disk, e: Disk, id: nat, c: Container, c': Container)
    requires DiskOk(d) && ContainerOk(d, id, c)
    requires Grown(d, e, c.locas, c.cores, c'.locas, c'.cores, c.locas[|c.locas| - 1]) && c'.head == c.head
    ensures OnlyTouches(d, e, c, c') && KeepsBytes(d, e, c.cores, c'.cores)
    ensures c.head !in c'.locas && c.head !in c'.cores && |c'.locas| >= 1 && c'.locas[0] == c.locas[0]
  {
    hide LocaOk, DiskOk;
    var ls, cs := c'.locas, c'.cores;
  }

  lemma ShrunkTouches(d: Disk, e: Disk, id: nat, c: Container, c': Container, nl: nat, nc: nat)
    requires DiskOk(d) && ContainerOk(d, id, c)
    requires 0 < nl && Shrunk(d, e, id, c.locas, c.cores, 0, nl, nc)
    requires c'.head == c.head && c'.locas == c.locas[..nl] && c'.cores == c.cores[..nc]
    ensures OnlyTouches(d, e, c, c') && KeepsBytes(d, e, c.cores, c'.cores)
    ensures c.head !in c'.locas && c.head !in c'.cores && |c'.locas| >= 1 && c'.locas[0] == c.locas[0]
    ensures ChainOk(e, id, c'.locas, c'.cores, 0)
  {
    hide LocaOk, DiskOk;
    assert c.locas == c'.locas + c.locas[nl..] && c.cores == c'.cores + c.cores[nc..];
    assert c.locas[0..] == c.locas;
    forall j | 0 <= j < |c'.cores| ensures e.sectors[c'.cores[j]] == d.sectors[c.cores[j]] {
      assert c.cores[j] !in c.locas;
    }
  }

  // The middle of fs_cnt_set_size: the chain is grown, shrunk or left alone; the header still
  // holds the old size.
  method ResizeChain(disk: Vdisk, locaSid: word, oldCount: nat, newCount: nat, size: word, ghost c: Container)
    returns (ret: int, ghost c': Container)
    requires disk.Valid() && HasRoom(disk.View(), 2 * newCount)
    requires ContainerOk(disk.View(), disk.id, c) && LinkTo(locaSid, disk.id, c.locas, 0)
    requires oldCount == CeilCores(c.size) && newCount == WantedCores(size)
    modifies disk
    ensures disk.Valid() && ret == 0
    ensures c'.head == c.head && c'.size == size && |c'.cores| == CoresAfter(|c.cores|, c.size, size)
    ensures size <= BYTE_IN_CORE * |c'.cores| && |c'.locas| >= 1 && c'.locas[0] == c.locas[0]
    ensures c.head !in c'.locas && c.head !in c'.cores
    ensures ChainOk(disk.View(), disk.id, c'.locas, c'.cores, 0)
    ensures OnlyTouches(old(disk.View()), disk.View(), c, c')
    ensures KeepsBytes(old(disk.View()), disk.View(), c.cores, c'.cores)
  {
    hide LocaOk, DiskOk, OnlyTouches, KeepsBytes, Shrunk, Grown, ChainOk, ContainerOk, CeilCores, WantedCores;
    ghost var d := disk.View();
    ret := 0;
    ContainerParts(d, disk.id, c);
    CeilIsCeil(c.size, |c.cores|);
    WantedIsEnough(size);
    if oldCount < newCount {
      ghost var ls, cs;
      ret, ls, cs := GrowSize(disk, locaSid, newCount - oldCount, c.locas, c.cores);
      c' := Container(c.head, ls, cs, size);
      GrownTouches(d, disk.View(), disk.id, c, c');
    } else if oldCount > newCount {
      ghost var nl := LocasLeft(|c.locas|, |c.cores|, oldCount - newCount, 0);
      ghost var nc := CoresLeft(|c.cores|, oldCount - newCount, 0);
      ret := ShrinkSize(disk, locaSid, oldCount - newCount, c.locas, c.cores, 0);
      if ret == -2 {
        ret := 0;
      }
      c' := Container(c.head, c.locas[..nl], c.cores[..nc], size);
      ShrunkTouches(d, disk.View(), disk.id, c, c', nl, nc);
    } else {
      c' := c.(size := size);
      SameTouches(d, disk.id, c, c');
    }
  }

  lemma SameTouches(d: Disk, id: nat, c: Container, c': Container)
    requires DiskOk(d) && ContainerOk(d, id, c) && c' == c.(size := c'.size)
    ensures OnlyTouches(d, d, c, c') && KeepsBytes(d, d, c.cores, c'.cores)
    ensures c.head !in c'.locas && c.head !in c'.cores
  {
    OwnsUsed(d, id, c);
  }

  // fs_cnt_set_size
  method SetSize(disk: Vdisk, headSid: word, size: word, ghost c: Container) returns (ret: int, ghost c': Container)
    requires disk.Valid() && disk.Within(headSid)
    requires HasRoom(disk.View(), 2 * WantedCores(size))
    requires NamesHead(disk.View(), disk.id, headSid) ==>
               c.head == SidSector(headSid) && ContainerOk(disk.View(), disk.id, c)
    modifies disk
    ensures disk.Valid()
    ensures ret == if NamesHead(old(disk.View()), disk.id, headSid) then 0 else 1
    ensures ret == 1 ==> disk.View() == old(disk.View())
    ensures ret == 0 ==>
              && c'.head == c.head && c'.size == size
              && |c'.cores| == CoresAfter(|c.cores|, c.size, size)
              && ContainerOk(disk.View(), disk.id, c')
              && OnlyTouches(old(disk.View()), disk.View(), c, c')
              && KeepsBytes(old(disk.View()), disk.View(), c.cores, c'.cores)
              && c.head < |old(disk.sectors)| && c.head < |disk.sectors|
              && SameButSize(old(disk.sectors)[c.head], disk.sectors[c.head])
  {
    hide DiskOk, ChainOk, OnlyTouches, KeepsBytes, Word, SameButSize;
    ghost var d := disk.View();
    if SidDisk(headSid) != disk.id {
      return 1, c;
    }
    var inUse := disk.IsSectorUsed(headSid);
    if !inUse {
      return 1, c;
    }
    var ok, data := disk.LoadSector(headSid);
    if Tag(data) != SF_HEAD {
      return 1, c;
    }
    var oldCount := SizeField(data);
    var newCount := size / BYTE_IN_CORE;
    oldCount := oldCount / BYTE_IN_CORE + if oldCount % BYTE_IN_CORE != 0 then 1 else 0;
    if size != 0 {
      newCount := newCount + 1;
    }
    var locaSid := Last(data);
    ret, c' := ResizeChain(disk, locaSid, oldCount, newCount, size, c);
    if ret != 0 {
      return 1, c;
    }
    Resized(d, disk.View(), disk.id, c, c', SetSizeField(data, size));
    data := SetSizeField(data, size);
    var _ := disk.WriteSector(headSid, data);
    return 0, c';
  }

  // fs_cnt_get_size
  method GetSize(disk: Vdisk, headSid: word) returns (size: word)
    requires disk.Valid() && disk.Within(headSid)
    ensures size == if NamesHead(disk.View(), disk.id, headSid) then SizeField(disk.sectors[SidSector(headSid)])
                    else 0xFFFF_FFFF
  {
    if SidDisk(headSid) != disk.id {
      return 0xFFFF_FFFF;
    }
    var inUse := disk.IsSectorUsed(headSid);
    if !inUse {
      return 0xFFFF_FFFF;
    }
    var ok, data := disk.LoadSector(headSid);
    if Tag(data) != SF_HEAD {
      return 0xFFFF_FFFF;
    }
    return SizeField(data);
  }
}
