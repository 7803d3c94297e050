/** The virtual disk (vdisk.c): sectors, their used flags, and the stack of free sector ids. */
module VirtualDisk {
  import opened Layout

  // The value of a virtual disk. Entries of `free` below `usedCount` mean nothing.
  datatype Disk = Disk(used: seq<bool>, free: seq<nat>, usedCount: nat, sectors: seq<Sector>)

  ghost predicate InUse(d: Disk, s: nat) { s < |d.used| && s < |d.sectors| && d.used[s] }

  ghost function UsedSet(d: Disk): set<nat> { set s: nat | s < |d.used| && InUse(d, s) }

  // The stack above usedCount is a permutation of the unused sectors, and usedCount counts the used ones.
  ghost predicate DiskOk(d: Disk) {
    && |d.free| == |d.used| == |d.sectors| <= MAX_SECTORS
    && d.usedCount == |UsedSet(d)|
    && d.usedCount <= |d.free|
    && (forall i :: d.usedCount <= i < |d.free| ==> d.free[i] < |d.used| && !InUse(d, d.free[i]))
    && (forall i, j :: d.usedCount <= i < j < |d.free| ==> d.free[i] != d.free[j])
    && (forall s: nat :: s < |d.used| && !InUse(d, s) ==> s in d.free[d.usedCount..])
  }

  // n more sectors can be taken without a sector number outgrowing the 24 bits of a sector id
  ghost predicate HasRoom(d: Disk, n: nat) {
    d.usedCount + n + 1000 <= MAX_SECTORS
  }

  // ------------------------------------------------------ what each operation does

  function Create(n: nat): Disk {
    Disk(seq(n, _ => false), seq(n, i => i), 0, seq(n, _ => Blank(0)))
  }

  ghost predicate IsNextFree(d: Disk, s: nat) {
    s < |d.used| && !d.used[s] && d.usedCount < |d.free| && d.free[d.usedCount] == s
  }

  function MarkUsed(d: Disk, s: nat): Disk
    requires s < |d.used| && d.usedCount < |d.free|
  {
    d.(free := d.free[d.usedCount := 42], used := d.used[s := true], usedCount := d.usedCount + 1)
  }

  function MarkUnused(d: Disk, s: nat): Disk
    requires s < |d.used| && 0 < d.usedCount <= |d.free|
  {
    d.(usedCount := d.usedCount - 1, free := d.free[d.usedCount - 1 := s], used := d.used[s := false])
  }

  function Extended(d: Disk, n: nat): Disk
    requires |d.used| == |d.free| == |d.sectors| <= n
  {
    var k := |d.used|;
    d.(used := d.used + seq(n - k, _ => false),
       free := d.free + seq(n - k, i requires 0 <= i => k + i),
       sectors := d.sectors + seq(n - k, _ => Blank(0)))
  }

  // e is d, or d extended because it was full.
  ghost predicate MaybeExtended(d: Disk, e: Disk) {
    e == d || (|d.used| == |d.free| == |d.sectors| <= MAX_SECTORS - 1000 && e == Extended(d, |d.used| + 1000))
  }

  function Written(d: Disk, s: nat, data: Sector): Disk
    requires s < |d.sectors|
  {
    d.(sectors := d.sectors[s := data])
  }

  // --------------------------------------------- every operation keeps the disk sound

  lemma CreateOk(n: nat)
    requires n <= MAX_SECTORS
    ensures DiskOk(Create(n)) && UsedSet(Create(n)) == {}
  {
    var d := Create(n);
    forall s: nat | s < |d.used| ensures s in d.free[0..] {
      assert d.free[0..][s] == s;
    }
  }

  lemma MarkUsedOk(d: Disk, s: nat)
    requires DiskOk(d) && IsNextFree(d, s)
    ensures DiskOk(MarkUsed(d, s))
    ensures UsedSet(MarkUsed(d, s)) == UsedSet(d) + {s}
    ensures forall t: nat :: InUse(MarkUsed(d, s), t) <==> InUse(d, t) || t == s
  {
    hide UsedSet;
    MarkUsedSet(d, s);
    StackPopped(d.free, MarkUsed(d, s).free, d.usedCount);
  }

  lemma MarkUsedSet(d: Disk, s: nat)
    requires |d.used| == |d.sectors| && IsNextFree(d, s)
    ensures forall t: nat :: InUse(MarkUsed(d, s), t) <==> InUse(d, t) || t == s
    ensures UsedSet(MarkUsed(d, s)) == UsedSet(d) + {s}
    ensures |UsedSet(MarkUsed(d, s))| == |UsedSet(d)| + 1
  {
  }

  lemma StackPopped(free: seq<nat>, free': seq<nat>, n: nat)
    requires n < |free| && free' == free[n := 42]
    ensures forall s: nat :: s in free[n..] <==> s == free[n] || s in free'[n + 1..]
  {
  }

  lemma MarkUnusedOk(d: Disk, s: nat)
    requires DiskOk(d) && InUse(d, s)
    ensures 0 < d.usedCount && DiskOk(MarkUnused(d, s))
    ensures UsedSet(MarkUnused(d, s)) == UsedSet(d) - {s}
    ensures forall t: nat :: InUse(MarkUnused(d, s), t) <==> InUse(d, t) && t != s
  {
    assert s in UsedSet(d);
    var e := MarkUnused(d, s);
    assert UsedSet(e) == UsedSet(d) - {s};
    assert e.free[e.usedCount..] == [s] + d.free[d.usedCount..];
  }

  lemma ExtendedOk(d: Disk, n: nat)
    requires DiskOk(d) && |d.used| <= n <= MAX_SECTORS
    ensures DiskOk(Extended(d, n)) && UsedSet(Extended(d, n)) == UsedSet(d)
    ensures forall s: nat :: InUse(Extended(d, n), s) <==> InUse(d, s)
    ensures forall s: nat :: InUse(d, s) ==> s < n && Extended(d, n).sectors[s] == d.sectors[s]
  {
    var e := Extended(d, n);
    var k := |d.used|;
    forall t: nat ensures InUse(e, t) <==> InUse(d, t) {}
    assert UsedSet(e) == UsedSet(d);
    var added := seq(n - k, i requires 0 <= i => k + i);
    assert e.free[e.usedCount..] == d.free[d.usedCount..] + added;
    forall s: nat | s < n && !InUse(e, s) ensures s in e.free[e.usedCount..] {
      if s >= k {
        assert added[s - k] == s;
      }
    }
  }

  lemma WrittenOk(d: Disk, s: nat, data: Sector)
    requires DiskOk(d) && s < |d.sectors|
    ensures DiskOk(Written(d, s, data)) && UsedSet(Written(d, s, data)) == UsedSet(d)
    ensures forall t: nat :: InUse(Written(d, s, data), t) <==> InUse(d, t)
  {
    forall t: nat ensures InUse(Written(d, s, data), t) <==> InUse(d, t) {}
    assert UsedSet(Written(d, s, data)) == UsedSet(d);
  }

  // A disk is full exactly when every sector is used: the test in GetUnusedSector
  // never hands out a used sector and never extends too early.
  lemma FullIffAllUsed(d: Disk)
    requires DiskOk(d)
    ensures d.usedCount >= |d.used| <==> forall s: nat :: s < |d.used| ==> InUse(d, s)
    ensures d.usedCount < |d.used| ==> IsNextFree(d, d.free[d.usedCount])
  {
  }

  class Vdisk {
    const id: nat
    var used: seq<bool>
    var free: seq<nat>
    var usedCount: nat
    var sectors: seq<Sector>

    ghost function View(): Disk
      reads this
    {
      Disk(used, free, usedCount, sectors)
    }

    ghost predicate Valid()
      reads this
    {
      DiskOk(View()) && 0 < id < 256
    }

    // The id names a sector of this disk.
    predicate Holds(sid: word)
      reads this
    {
      SidDisk(sid) == id && SidSector(sid) < |used| && SidSector(sid) < |sectors|
    }

    // If the id names this disk, its sector is on it: the source looks up the used flag unchecked.
    predicate Within(sid: word)
      reads this
    {
      SidDisk(sid) == id ==> SidSector(sid) < |used|
    }

    constructor (id: nat, initsize: nat)
      requires 0 < id < 256 && initsize <= MAX_SECTORS
      ensures Valid() && this.id == id && View() == Create(initsize)
    {
      this.id := id;
      usedCount := 0;
      used := seq(initsize, _ => false);
      free := seq(initsize, i => i);
      sectors := seq(initsize, _ => Blank(0));
      new;
      assert View() == Create(initsize);
      CreateOk(initsize);
    }

    // A free sector that is not the top of the stack would be fatal.
    method NoteSectorUsed(sid: word) returns (ret: int)
      requires Valid() && SidSector(sid) < |used|
      requires used[SidSector(sid)] || IsNextFree(View(), SidSector(sid))
      modifies this
      ensures Valid()
      ensures ret == (if old(used[SidSector(sid)]) then 1 else 0)
      ensures View() == if ret == 1 then old(View()) else MarkUsed(old(View()), SidSector(sid))
    {
      if used[SidSector(sid)] {
        return 1;
      }
      MarkUsedOk(View(), SidSector(sid));
      free := free[usedCount := 42];
      used := used[SidSector(sid) := true];
      usedCount := usedCount + 1;
      return 0;
    }

    method NoteSectorUnused(sid: word) returns (ret: int)
      requires Valid() && SidSector(sid) < |used|
      modifies this
      ensures Valid()
      ensures ret == (if old(used[SidSector(sid)]) then 0 else 1)
      ensures ret == 0 ==> 0 < old(usedCount) && View() == MarkUnused(old(View()), SidSector(sid))
      ensures ret == 1 ==> View() == old(View())
    {
      if !used[SidSector(sid)] {
        return 1;
      }
      MarkUnusedOk(View(), SidSector(sid));
      usedCount := usedCount - 1;
      free := free[usedCount := SidSector(sid)];
      used := used[SidSector(sid) := false];
      return 0;
    }

    method IsSectorUsed(sid: word) returns (r: bool)
      requires Valid() && SidSector(sid) < |used|
      ensures r == InUse(View(), SidSector(sid))
    {
      return used[SidSector(sid)];
    }

    method Extend(newsize: nat) returns (ret: int)
      requires Valid() && newsize <= MAX_SECTORS
      modifies this
      ensures Valid()
      ensures ret == (if newsize <= old(|used|) then 1 else 0)
      ensures View() == if ret == 1 then old(View()) else Extended(old(View()), newsize)
    {
      if newsize <= |used| {
        return 1;
      }
      ExtendedOk(View(), newsize);
      var size := |used|;
      free := free + seq(newsize - size, i requires 0 <= i => size + i);
      used := used + seq(newsize - size, _ => false);
      sectors := sectors + seq(newsize - size, _ => Blank(0));
      return 0;
    }

    method GetUnusedSector() returns (s: nat)
      requires Valid() && HasRoom(View(), 1)
      modifies this
      ensures Valid() && IsNextFree(View(), s) && MaybeExtended(old(View()), View())
      ensures View() == if old(usedCount < |used|) then old(View())
                        else Extended(old(View()), old(|used|) + 1000)
    {
      if usedCount >= |used| {
        var _ := Extend(|used| + 1000);
      }
      FullIffAllUsed(View());
      return free[usedCount];
    }

    method WriteSector(sid: word, data: Sector) returns (ret: int)
      requires Valid()
      modifies this
      ensures Valid()
      ensures ret == (if SidSector(sid) >= old(|used|) then 1 else 0)
      ensures View() == if ret == 1 then old(View()) else Written(old(View()), SidSector(sid), data)
    {
      if SidSector(sid) >= |used| {
        return 1;
      }
      WrittenOk(View(), SidSector(sid), data);
      sectors := sectors[SidSector(sid) := data];
      return 0;
    }

    // vdisk_read_sector and vdisk_load_sector: `data` is meaningful only when ret is 0
    method LoadSector(sid: word) returns (ret: int, data: Sector)
      requires Valid()
      ensures ret == (if SidSector(sid) >= |used| then 1 else 0)
      ensures ret == 0 ==> data == sectors[SidSector(sid)]
    {
      if SidSector(sid) >= |used| {
        return 1, Blank(0);
      }
      return 0, sectors[SidSector(sid)];
    }
  }
}
