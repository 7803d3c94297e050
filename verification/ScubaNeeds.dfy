/** Which memory each call of the memory manager asks for, in order: told from the state it starts in. */
module ScubaNeeds {
  import opened SnowState
  import opened Snowflake
  import opened ScubaState
  import opened ScubaRoom
  import opened ScubaMap
  import opened ScubaFork

  // Whatever is served in the end was served on the way.
  lemma ServesFront(h: Heap, a: seq<nat>, b: seq<nat>)
    requires Serves(h, a + b)
    ensures Serves(h, a)
  {
    RunJoin(h, a, b);
  }

  // After the requests a, those of b decide.
  lemma NeedsNext(h0: Heap, h: Heap, a: seq<nat>, b: seq<nat>)
    requires Serves(h0, a) && h == Run(h0, a)
    ensures Serves(h0, a + b) <==> Serves(h, b)
    ensures Run(h0, a + b) == Run(h, b)
  {
    RunJoin(h0, a, b);
  }

  // One frame, or none.
  function FrameNeed(needed: bool): seq<nat> { if needed then [FRAME_SIZE] else [] }

  lemma FrameServed(h: Heap, needed: bool)
    ensures Serves(h, FrameNeed(needed)) <==> (needed ==> CanServe(h, FRAME_SIZE))
    ensures Run(h, FrameNeed(needed)) == if needed then After(h, FRAME_SIZE) else h
  {
    RunOne(h, FRAME_SIZE);
  }

  // ---------------------------------------------------------------------------- map

  // A missing table is made, unless the kernel's is used.
  function MapNeeds(s: Space, dir: nat, v: FrameNo, mode: int): seq<nat>
    requires dir in s.dirs
  {
    FrameNeed(EntryAt(s, dir, v).frame == 0 && mode != 1)
  }

  // ------------------------------------------------------------------ create_virtual

  // The k-th page from v on is the first under a table that is missing.
  predicate NeedsTable(s: Space, dir: nat, v: FrameNo, k: nat)
    requires dir in s.dirs && v + k < FRAME_COUNT
  {
    EntryAt(s, dir, v + k).frame == 0 && (k == 0 || (v + k) % SLOTS == 0)
  }

  function PagesNeeds(s: Space, dir: nat, v: FrameNo, i: nat): seq<nat>
    requires dir in s.dirs && v + i <= FRAME_COUNT
  {
    if i == 0 then [] else PagesNeeds(s, dir, v, i - 1) + FrameNeed(NeedsTable(s, dir, v, i - 1))
  }

  // How many pages are mapped before one under a kernel table, from the i-th on.
  ghost function Stop(s: Space, dir: nat, v: FrameNo, count: nat, i: nat): (n: nat)
    requires dir in s.dirs && v + count <= FRAME_COUNT && i <= count
    ensures i <= n <= count
    ensures n < count ==> KernelEntry(s, dir, v + n)
    ensures forall q: FrameNo :: v + i <= q < v + n ==> !KernelEntry(s, dir, q)
    decreases count - i
  {
    if i == count || KernelEntry(s, dir, v + i) then i else Stop(s, dir, v, count, i + 1)
  }

  ghost function CreateNeeds(s: Space, dir: nat, virt: nat, count: nat): seq<nat>
    requires dir in s.dirs && virt < ADDRESSES && PageAddr(virt, count) <= ADDRESSES
  {
    if count == 0 || AlreadyMapped(s, dir, virt, count) then []
    else
      PageStep(virt, 0, count);
      [FRAME_SIZE * count] + PagesNeeds(s, dir, VirtPage(virt), Stop(s, dir, VirtPage(virt), count, 0))
  }

  lemma PagesNeedsLast(s: Space, dir: nat, v: FrameNo, n: nat)
    requires dir in s.dirs && n > 0 && v + n <= FRAME_COUNT
    ensures PagesNeeds(s, dir, v, n) == PagesNeeds(s, dir, v, n - 1) + FrameNeed(NeedsTable(s, dir, v, n - 1))
  {
  }

  lemma {:induction false} PagesNeedsFront(h: Heap, s: Space, dir: nat, v: FrameNo, i: nat, n: nat)
    requires dir in s.dirs && i <= n && v + n <= FRAME_COUNT && Serves(h, PagesNeeds(s, dir, v, n))
    ensures Serves(h, PagesNeeds(s, dir, v, i))
    decreases n
  {
    hide Serves, Run, PagesNeeds, NeedsTable, FrameNeed;
    if i < n {
      PagesNeedsLast(s, dir, v, n);
      ServesFront(h, PagesNeeds(s, dir, v, n - 1), FrameNeed(NeedsTable(s, dir, v, n - 1)));
      PagesNeedsFront(h, s, dir, v, i, n - 1);
    }
  }

  // Which tables are missing after i pages.
  ghost predicate TablesMade(s0: Space, s: Space, dir: nat, v: FrameNo, i: nat) {
    && dir in s0.dirs && dir in s.dirs
    && forall q: FrameNo ::
         EntryAt(s, dir, q).frame == 0 <==>
         EntryAt(s0, dir, q).frame == 0 && !(i > 0 && v / SLOTS <= q / SLOTS <= (v + i - 1) / SLOTS)
  }

  lemma TablesNext(s0: Space, s: Space, s': Space, bs: seq<Block>, bs': seq<Block>, dir: nat, v: FrameNo, i: nat,
                   p: FrameNo,
                   f: FrameNo)
    requires TablesMade(s0, s, dir, v, i) && p == v + i && MapDone(s, s', bs, bs', dir, p, f, 0, 0)
    ensures TablesMade(s0, s', dir, v, i + 1)
  {
    hide PageOf, PageMapped, DataKept;
    assert MaybeGave(s, s', bs, bs', dir, p, 0);
    var last := (v + i) / SLOTS;
    forall q: FrameNo
      ensures EntryAt(s', dir, q).frame == 0 <==>
              EntryAt(s0, dir, q).frame == 0 && !(v / SLOTS <= q / SLOTS <= last)
    {
      assert i > 0 ==> v / SLOTS <= (v + i - 1) / SLOTS <= last <= (v + i - 1) / SLOTS + 1;
    }
  }

  lemma TableMissing(s0: Space, s: Space, dir: nat, v: FrameNo, i: nat)
    requires TablesMade(s0, s, dir, v, i) && v + i < FRAME_COUNT
    ensures NeedsTable(s0, dir, v, i) <==> EntryAt(s, dir, v + i).frame == 0
  {
    if i > 0 {
      if (v + i) % SLOTS == 0 {
        assert (v + i) / SLOTS == (v + i - 1) / SLOTS + 1;
      } else {
        assert (v + i) / SLOTS == (v + i - 1) / SLOTS;
      }
    }
  }

  // One more page: what is asked for can be told from the state at the start.
  lemma PagesStep(h0: Heap, h: Heap, s0: Space, s: Space, dir: nat, v: FrameNo, i: nat, q: FrameNo)
    requires dir in s0.dirs && dir in s.dirs && TablesMade(s0, s, dir, v, i) && q == v + i
    requires Serves(h0, PagesNeeds(s0, dir, v, i)) && h == Run(h0, PagesNeeds(s0, dir, v, i))
    ensures Serves(h0, PagesNeeds(s0, dir, v, i + 1)) <==> Serves(h, MapNeeds(s, dir, q, 0))
    ensures Run(h0, PagesNeeds(s0, dir, v, i + 1)) == Run(h, MapNeeds(s, dir, q, 0))
  {
    hide Serves, Run, TablesMade, NeedsTable, FrameNeed;
    TableMissing(s0, s, dir, v, i);
    PagesNeedsLast(s0, dir, v, i + 1);
    NeedsNext(h0, h, PagesNeeds(s0, dir, v, i), FrameNeed(NeedsTable(s0, dir, v, i)));
  }

  // No page before the i-th is under a kernel table.
  ghost predicate NoneBefore(s: Space, dir: nat, v: FrameNo, i: nat)
    requires dir in s.dirs
  {
    forall q: FrameNo :: v <= q < v + i ==> !KernelEntry(s, dir, q)
  }

  lemma StopIs(s: Space, dir: nat, v: FrameNo, count: nat, i: nat)
    requires dir in s.dirs && v + count <= FRAME_COUNT && i <= count && NoneBefore(s, dir, v, i)
    requires i < count ==> KernelEntry(s, dir, v + i)
    ensures Stop(s, dir, v, count, 0) == i
  {
    hide KernelEntry;
  }

  // A page on the way that needs more memory than there is.
  lemma StopFails(h: Heap, s: Space, dir: nat, v: FrameNo, count: nat, i: nat)
    requires dir in s.dirs && v + count <= FRAME_COUNT && i < count && NoneBefore(s, dir, v, i)
    requires !KernelEntry(s, dir, v + i) && !Serves(h, PagesNeeds(s, dir, v, i + 1))
    ensures !Serves(h, PagesNeeds(s, dir, v, Stop(s, dir, v, count, 0)))
  {
    hide KernelEntry, Serves, PagesNeeds;
    var n := Stop(s, dir, v, count, 0);
    if Serves(h, PagesNeeds(s, dir, v, n)) { PagesNeedsFront(h, s, dir, v, i + 1, n); }
  }

  lemma NoneNext(s: Space, dir: nat, v: FrameNo, i: nat)
    requires dir in s.dirs && v + i < FRAME_COUNT && NoneBefore(s, dir, v, i) && !KernelEntry(s, dir, v + i)
    ensures NoneBefore(s, dir, v, i + 1)
  {
  }

  lemma NoNeeds(h: Heap)
    ensures Serves(h, []) && Run(h, []) == h
  {
  }

  lemma NoPagesNeeds(h: Heap, s: Space, dir: nat, v: FrameNo)
    requires dir in s.dirs
    ensures Serves(h, PagesNeeds(s, dir, v, 0)) && Run(h, PagesNeeds(s, dir, v, 0)) == h && NoneBefore(s, dir, v, 0)
  {
  }

  lemma NoTablesYet(s0: Space, s: Space, dir: nat, v: FrameNo)
    requires dir in s0.dirs && s.dirs == s0.dirs
    ensures TablesMade(s0, s, dir, v, 0)
  {
  }

  lemma KernelEntryStays(s0: Space, s: Space, bs: seq<Block>, dir: nat, v: FrameNo, f: FrameNo, i: nat, count: nat,
                         h: Heap,
                         q: FrameNo)
    requires Creating(s0, s, bs, dir, v, f, i, count) && q == v + i
    ensures dir in s0.dirs && dir in s.dirs && NoneBefore(s0, dir, v, i)
    ensures KernelEntry(s0, dir, q) ==> MapNeeds(s, dir, q, 0) == []
    ensures KernelEntry(s0, dir, q) ==> Serves(h, MapNeeds(s, dir, q, 0)) && Run(h, MapNeeds(s, dir, q, 0)) == h
  {
  }

  // ------------------------------------------------------------------------- copying

  // A table, and a frame for each deepcopy page among the first j.
  function TableNeeds(pages: Pages, j: nat): seq<nat>
    requires j <= SLOTS
  {
    if j == 0 then [FRAME_SIZE] else TableNeeds(pages, j - 1) + FrameNeed(Deep(pages[j - 1]))
  }

  function EntryNeeds(s: Space, e: Entry): seq<nat> {
    if e.frame != 0 && !e.fkernel && s.mem[e.frame].Table? then TableNeeds(s.mem[e.frame].pages, SLOTS) else []
  }

  // The new directory, and what each of its first i tables takes.
  function CopyNeeds(s: Space, dir: nat, i: nat): seq<nat>
    requires dir in s.dirs && i <= SLOTS
  {
    if i == 0 then [DIR_BYTES] else CopyNeeds(s, dir, i - 1) + EntryNeeds(s, s.dirs[dir].entries[i - 1])
  }

  lemma TableNeedsLast(pages: Pages, j: nat)
    requires 0 < j <= SLOTS
    ensures TableNeeds(pages, j) == TableNeeds(pages, j - 1) + FrameNeed(Deep(pages[j - 1]))
  {
  }

  lemma {:induction false} TableNeedsFront(h: Heap, pages: Pages, i: nat, j: nat)
    requires i <= j <= SLOTS && Serves(h, TableNeeds(pages, j))
    ensures Serves(h, TableNeeds(pages, i))
    decreases j
  {
    hide Serves, Run, TableNeeds, Deep, FrameNeed;
    if i < j {
      TableNeedsLast(pages, j);
      ServesFront(h, TableNeeds(pages, j - 1), FrameNeed(Deep(pages[j - 1])));
      TableNeedsFront(h, pages, i, j - 1);
    }
  }

  lemma CopyNeedsLast(s: Space, dir: nat, i: nat)
    requires dir in s.dirs && i < SLOTS
    ensures CopyNeeds(s, dir, i + 1) == CopyNeeds(s, dir, i) + EntryNeeds(s, s.dirs[dir].entries[i])
  {
  }

  lemma {:induction false} CopyNeedsFront(h: Heap, s: Space, dir: nat, i: nat, j: nat)
    requires dir in s.dirs && i <= j <= SLOTS && Serves(h, CopyNeeds(s, dir, j))
    ensures Serves(h, CopyNeeds(s, dir, i))
    decreases j
  {
    hide Serves, Run, CopyNeeds, EntryNeeds;
    if i < j {
      CopyNeedsLast(s, dir, j - 1);
      ServesFront(h, CopyNeeds(s, dir, j - 1), EntryNeeds(s, s.dirs[dir].entries[j - 1]));
      CopyNeedsFront(h, s, dir, i, j - 1);
    }
  }

  lemma TableFirst(h: Heap, pages: Pages)
    ensures Serves(h, TableNeeds(pages, 0)) <==> CanServe(h, FRAME_SIZE)
    ensures Run(h, TableNeeds(pages, 0)) == After(h, FRAME_SIZE)
  {
    RunOne(h, FRAME_SIZE);
  }

  lemma TableStep(h0: Heap, h: Heap, pages: Pages, j: nat)
    requires j < SLOTS && Serves(h0, TableNeeds(pages, j)) && h == Run(h0, TableNeeds(pages, j))
    ensures Serves(h0, TableNeeds(pages, j + 1)) <==> Serves(h, FrameNeed(Deep(pages[j])))
    ensures Run(h0, TableNeeds(pages, j + 1)) == Run(h, FrameNeed(Deep(pages[j])))
  {
    hide Serves, Run, TableNeeds, FrameNeed, Deep;
    TableNeedsLast(pages, j + 1);
    NeedsNext(h0, h, TableNeeds(pages, j), FrameNeed(Deep(pages[j])));
  }

  lemma TableFails(h: Heap, pages: Pages, j: nat)
    requires j <= SLOTS && !Serves(h, TableNeeds(pages, j))
    ensures !Serves(h, TableNeeds(pages, SLOTS))
  {
    hide Serves, TableNeeds;
    if Serves(h, TableNeeds(pages, SLOTS)) { TableNeedsFront(h, pages, j, SLOTS); }
  }

  lemma CopyFirst(h: Heap, s: Space, dir: nat)
    requires dir in s.dirs
    ensures Serves(h, CopyNeeds(s, dir, 0)) <==> CanServe(h, DIR_BYTES)
    ensures Run(h, CopyNeeds(s, dir, 0)) == After(h, DIR_BYTES)
  {
    RunOne(h, DIR_BYTES);
  }

  lemma CopyStep(h0: Heap, h: Heap, s: Space, dir: nat, i: nat)
    requires dir in s.dirs && i < SLOTS && Serves(h0, CopyNeeds(s, dir, i)) && h == Run(h0, CopyNeeds(s, dir, i))
    ensures Serves(h0, CopyNeeds(s, dir, i + 1)) <==> Serves(h, EntryNeeds(s, s.dirs[dir].entries[i]))
    ensures Run(h0, CopyNeeds(s, dir, i + 1)) == Run(h, EntryNeeds(s, s.dirs[dir].entries[i]))
  {
    hide Serves, Run, CopyNeeds, EntryNeeds;
    CopyNeedsLast(s, dir, i);
    NeedsNext(h0, h, CopyNeeds(s, dir, i), EntryNeeds(s, s.dirs[dir].entries[i]));
  }

  lemma CopyFails(h: Heap, s: Space, dir: nat, i: nat)
    requires dir in s.dirs && i <= SLOTS && !Serves(h, CopyNeeds(s, dir, i))
    ensures !Serves(h, CopyNeeds(s, dir, SLOTS))
  {
    hide Serves, CopyNeeds;
    if Serves(h, CopyNeeds(s, dir, SLOTS)) { CopyNeedsFront(h, s, dir, i, SLOTS); }
  }

  // The tables copied so far leave what the next one takes as it was.
  lemma EntryNeedsKept(s0: Space, s: Space, bs0: seq<Block>, bs: seq<Block>, dir: nat, nd: nat, i: nat,
                       n: set<FrameNo>, h: Heap)
    requires Forking(s0, s, bs0, bs, dir, nd, i, n) && Ok(s0, bs0) && i < SLOTS
    ensures s.dirs[dir] == s0.dirs[dir]
    ensures EntryNeeds(s, s.dirs[dir].entries[i]) == EntryNeeds(s0, s0.dirs[dir].entries[i])
    ensures s.dirs[dir].entries[i].frame == 0 || s.dirs[dir].entries[i].fkernel ==>
              && Serves(h, EntryNeeds(s0, s0.dirs[dir].entries[i]))
              && Run(h, EntryNeeds(s0, s0.dirs[dir].entries[i])) == h
  {
    hide Ok, TableNeeds, Stable, SamePages, NewData, ForkBlocks, PageCopied, EntryCopied;
    if s0.dirs[dir].entries[i].frame != 0 { TableStable(s0, bs0, dir, i); }
  }

  // ------------------------------------------------------------------------ starting

  // The kernel directory, and a table for every 1024 pages below k.
  function InitNeeds(k: nat): seq<nat>
  {
    if k <= 1 then [DIR_BYTES] else InitNeeds(k - 1) + FrameNeed(k == 2 || (k - 1) % SLOTS == 0)
  }

  lemma {:induction false} InitNeedsFront(h: Heap, i: nat, k: nat)
    requires i <= k && Serves(h, InitNeeds(k))
    ensures Serves(h, InitNeeds(i))
    decreases k
  {
    hide Serves, Run;
    if i < k && k > 1 {
      ServesFront(h, InitNeeds(k - 1), FrameNeed(k == 2 || (k - 1) % SLOTS == 0));
      InitNeedsFront(h, i, k - 1);
    }
  }

  // Which tables the kernel has once the pages below k are mapped.
  ghost predicate KernelTables(s: Space, k: nat) {
    s.kernel in s.dirs && forall q: FrameNo :: EntryAt(s, s.kernel, q).frame == 0 <==>
                            k <= 1 || q / SLOTS > (k - 1) / SLOTS
  }

  lemma KernelTablesNext(s: Space, s': Space, bs: seq<Block>, bs': seq<Block>, v: FrameNo)
    requires v >= 1 && KernelTables(s, v) && MapDone(s, s', bs, bs', s.kernel, v, v, 2, 0) && s'.kernel == s.kernel
    ensures KernelTables(s', v + 1)
    ensures EntryAt(s, s.kernel, v).frame == 0 <==> v == 1 || v % SLOTS == 0
  {
    hide PageOf, PageMapped, DataKept;
    assert MaybeGave(s, s', bs, bs', s.kernel, v, 2);
    if v > 1 {
      if v % SLOTS == 0 { assert v / SLOTS == (v - 1) / SLOTS + 1; } else { assert v / SLOTS == (v - 1) / SLOTS; }
    }
    var last := v / SLOTS;
    forall q: FrameNo ensures EntryAt(s', s.kernel, q).frame == 0 <==> q / SLOTS > last {
      if q / SLOTS == last {
        assert EntryAt(s', s.kernel, q) == EntryAt(s', s.kernel, v);
      } else {
        assert EntryAt(s', s.kernel, q) == EntryAt(s, s.kernel, q);
      }
    }
  }

  lemma InitFirst(h: Heap)
    ensures Serves(h, InitNeeds(1)) <==> CanServe(h, DIR_BYTES)
    ensures Run(h, InitNeeds(1)) == After(h, DIR_BYTES) && InitNeeds(0) == InitNeeds(1)
  {
    RunOne(h, DIR_BYTES);
  }

  lemma NoKernelTables(mem: Memory, k: nat)
    ensures KernelTables(Space(mem, map[k := NewDir(0)], k), 1)
  {
  }

  lemma InitNeedsLast(v: nat)
    requires v >= 1
    ensures InitNeeds(v + 1) == InitNeeds(v) + FrameNeed(v == 1 || v % SLOTS == 0)
  {
  }

  lemma KernelTableMissing(s: Space, v: FrameNo)
    requires v >= 1 && KernelTables(s, v)
    ensures EntryAt(s, s.kernel, v).frame == 0 <==> v == 1 || v % SLOTS == 0
  {
    if v > 1 {
      if v % SLOTS == 0 { assert v / SLOTS == (v - 1) / SLOTS + 1; } else { assert v / SLOTS == (v - 1) / SLOTS; }
    }
  }

  lemma InitStep(h0: Heap, h: Heap, s: Space, v: FrameNo)
    requires s.kernel in s.dirs && v >= 1 && KernelTables(s, v)
    requires Serves(h0, InitNeeds(v)) && h == Run(h0, InitNeeds(v))
    ensures Serves(h0, InitNeeds(v + 1)) <==> Serves(h, MapNeeds(s, s.kernel, v, 2))
    ensures Run(h0, InitNeeds(v + 1)) == Run(h, MapNeeds(s, s.kernel, v, 2))
  {
    hide Serves, Run, InitNeeds, FrameNeed, KernelTables;
    InitNeedsLast(v);
    KernelTableMissing(s, v);
    NeedsNext(h0, h, InitNeeds(v), FrameNeed(v == 1 || v % SLOTS == 0));
  }

  lemma InitFails(h: Heap, i: nat, k: nat)
    requires (i <= k || i == 1) && !Serves(h, InitNeeds(i))
    ensures !Serves(h, InitNeeds(k))
  {
    hide Serves;
    if i <= k && Serves(h, InitNeeds(k)) { InitNeedsFront(h, i, k); }
  }

  // The address of page v, while below the end of memory.
  lemma PageNumber(i: nat, v: nat, to: nat)
    requires i == v * FRAME_SIZE && i < to <= SCUBA_MAP_MAX
    ensures v < FRAME_COUNT && VirtPage(i) == v && v + 1 <= (to + FRAME_SIZE - 1) / FRAME_SIZE
  {
  }

  lemma InitEnds(h: Heap, v: nat, to: nat)
    requires v >= 1 && to <= v * FRAME_SIZE && (v == 1 || v * FRAME_SIZE < to + FRAME_SIZE)
    ensures InitNeeds((to + FRAME_SIZE - 1) / FRAME_SIZE) == InitNeeds(v)
  {
    InitFirst(h);
  }

  lemma {:induction false} InitNeedsSize(k: nat)
    ensures 1 <= |InitNeeds(k)| <= 2 + k / SLOTS
    ensures forall i :: 0 <= i < |InitNeeds(k)| ==> InitNeeds(k)[i] <= DIR_BYTES
    decreases k
  {
    if k <= 1 {
    } else {
      InitNeedsSize(k - 1);
      InitNeedsCount(k);
    }
  }

  lemma {:induction false} InitNeedsCount(k: nat)
    ensures |InitNeeds(k)| == if k <= 1 then 1 else 2 + (k - 1) / SLOTS
    decreases k
  {
    if k > 2 {
      InitNeedsCount(k - 1);
      InitNeedsLast(k - 1);
      if (k - 1) % SLOTS == 0 { assert (k - 1) / SLOTS == (k - 2) / SLOTS + 1; }
    }
  }

  const BOOT_BYTES := 0x50_0000

  // The allocator right after it has started: the base block and its table.
  function Booted(phys: nat): Heap {
    Heap({Span(MEM_BASE_ADDR, 1), Span(MEM_BASE_ADDR + 1, PART_BYTES * PARTS_COUNT)}, MEM_BASE_ADDR + 1, PARTS_COUNT,
         phys)
  }

  lemma BootedBlocks(phys: nat)
    ensures var bs := [BaseBlock(), TableBlock(MEM_BASE_ADDR + 1, PARTS_COUNT)];
            Untagged(bs) && Heap(SpansOf(bs), MEM_BASE_ADDR + 1, PARTS_COUNT, phys) == Booted(phys)
  {
    SpansJoin([BaseBlock()], TableBlock(MEM_BASE_ADDR + 1, PARTS_COUNT));
    SpansJoin([], BaseBlock());
    assert [] + [BaseBlock()] == [BaseBlock()];
    var table := TableBlock(MEM_BASE_ADDR + 1, PARTS_COUNT);
    assert [BaseBlock()] + [table] == [BaseBlock(), table];
  }

  // Five megabytes are enough to start paging, however much memory is to be mapped, and all of it stays
  // below them.
  lemma BootServes(phys: nat)
    requires BOOT_BYTES <= phys <= SCUBA_MAP_MAX
    ensures var needs := InitNeeds((phys + FRAME_SIZE - 1) / FRAME_SIZE);
            var h := Run(Booted(phys), needs);
            && Serves(Booted(phys), needs) && h.phys == phys
            && Under(h, BOOT_BYTES) && h.slots <= PARTS_COUNT + GROW_SIZE * 66
  {
    hide Serves, Run, InitNeeds, Reach;
    var needs := InitNeeds((phys + FRAME_SIZE - 1) / FRAME_SIZE);
    var top := MEM_BASE_ADDR + 1 + PART_BYTES * PARTS_COUNT;
    InitNeedsSize((phys + FRAME_SIZE - 1) / FRAME_SIZE);
    ReachBound(top, PARTS_COUNT, needs, DIR_BYTES, 66);
    RoomyServes(Booted(phys), top, needs);
  }
}
