/** The virtual memory manager (scubasuit.c) over the physical allocator. */
module Scuba {
  import opened SnowState
  import opened Snowflake
  import opened ScubaState
  import opened ScubaRoom
  import opened ScubaSteps
  import opened ScubaMap
  import opened ScubaFork
  import opened ScubaNeeds

  class Pager {
    const heap: Allocator
    var mem: Memory
    var dirs: map<nat, Dir>
    var kernelDir: nat

    // Booting: memory and its allocator are there, no directory yet.
    constructor (allocator: Allocator, memory: Memory)
      ensures heap == allocator && mem == memory && dirs == map[]
    {
      heap := allocator;
      mem, dirs, kernelDir := memory, map[], 0;
    }

    ghost function S(): Space
      reads this
    {
      Space(mem, dirs, kernelDir)
    }

    ghost predicate HeapOk()
      reads heap
    {
      heap.Valid() && heap.TableLive() && heap.physSize <= SCUBA_MAP_MAX
    }

    ghost function Blocks(): seq<Block>
      requires HeapOk()
      reads heap
    {
      heap.View()
    }

    // What decides which requests for memory will be served.
    ghost function H(): Heap
      requires HeapOk()
      reads heap
    {
      Heap(SpansOf(Blocks()), heap.table, |heap.parts|, heap.physSize)
    }

    ghost predicate Valid()
      reads this, heap
    {
      HeapOk() && Ok(S(), Blocks())
    }

    // mem_alloc_dir with page alignment. `ok` is false exactly when the request cannot be served; the
    // program then goes on to write through a null address, and nothing more is said.
    method AllocDir(size: nat, pid: int, dir: nat) returns (addr: nat, ok: bool, ghost b: Block)
      requires HeapOk()
      modifies heap
      ensures ok <==> size == 0 || CanServe(old(H()), size)
      ensures ok ==> HeapOk() && Distinct(Blocks()) && H() == if size == 0 then old(H()) else After(old(H()), size)
      ensures ok && size == 0 ==> addr == 0 && Blocks() == old(Blocks())
      ensures ok && size > 0 ==>
              b == Block(addr, size, SNOW_SCUBA, dir, pid) && addr % FRAME_SIZE == 0 && addr > MEM_BASE_ADDR
      ensures ok && size > 0 ==>
              addr + size <= SCUBA_MAP_MAX && Grew(old(Blocks()), Blocks(), b) && Unused(old(Blocks()), b)
      ensures ok && size > 0 ==> forall x :: x in old(Blocks()) && x.state != SNOW_MM ==> x.addr != addr
    {
      hide Allocated, Relocated, Ordered, Threaded, CanServe, After, NoFit, SpansOf;
      ghost var bs, from, slots, h := Blocks(), heap.table, |heap.parts|, H();
      b := Block(0, 0, SNOW_SCUBA, dir, pid);
      var halted;
      ghost var mid;
      addr, halted, mid := heap.MemAllocDir(size, FRAME_SIZE, pid, dir);
      ok := !halted && (addr != 0 || size == 0);
      if size > 0 {
        AllocIsStep(bs, mid, if halted then mid else Blocks(), h, heap.table, |heap.parts|, halted, addr,
                    Block(addr, size, SNOW_SCUBA, dir, pid));
      }
      if ok {
        OrderedDistinct(Blocks(), heap.physSize);
      }
      if ok && size > 0 {
        b := Block(addr, size, SNOW_SCUBA, dir, pid);
        AllocGrew(bs, mid, Blocks(), from, slots, heap.table, |heap.parts|, addr, b, FRAME_SIZE, heap.physSize);
      }
    }

    // mem_alloc_dir for one frame of `dir`, then filled: a cleared table, or the copy of a page.
    method AllocFrame(dir: nat, contents: Frame) returns (f: FrameNo, ok: bool)
      requires Valid() && dir in dirs
      modifies `mem, heap
      ensures ok <==> CanServe(old(H()), FRAME_SIZE)
      ensures ok ==> Valid() && f != 0 && mem == old(mem)[f := contents] && !Linked(S(), f) && SamePages(old(S()), S())
      ensures ok ==> H() == After(old(H()), FRAME_SIZE)
      ensures ok ==> Gave(old(Blocks()), Blocks(), FrameBlock(dir, dirs[dir].pid, f)) && f * FRAME_SIZE < SCUBA_MAP_MAX
    {
      hide ChainOk, Ok, Grew, Unused, Linked, SamePages, Distinct, CanServe, After, SpansOf;
      ghost var bs := Blocks();
      var addr;
      ghost var b;
      addr, ok, b := AllocDir(FRAME_SIZE, dirs[dir].pid, dir);
      if !ok { return 0, false; }
      f := addr / FRAME_SIZE;
      FreshMemory(S(), bs, Blocks(), b, mem[f := contents]);
      mem := mem[f := contents];
    }

    method GetPhys(dir: nat, virt: nat) returns (addr: nat)
      requires Valid() && dir in dirs && virt < ADDRESSES
      ensures addr == PhysOf(S(), dir, virt)
    {
      hide Ok;
      var tableIndex := virt / FRAME_SIZE / SLOTS;
      var table := dirs[dir].entries[tableIndex].frame;
      if table == 0 { return 0; }
      var pageIndex := virt / FRAME_SIZE % SLOTS;
      LinkedHeld(S(), Blocks(), dir, tableIndex);
      var page := mem[table].pages[pageIndex];
      if !page.present { return 0; }
      addr := page.frame * FRAME_SIZE + virt % FRAME_SIZE;
    }

    method Unmap(dir: nat, virt: nat) returns (ret: int)
      requires Valid() && dir in dirs && virt < ADDRESSES
      modifies `mem
      ensures Valid()
      ensures ret == if EntryAt(S(), dir, VirtPage(virt)).frame == 0 then 1 else 0
      ensures ret == 1 ==> S() == old(S())
      ensures ret == 0 ==>
              Written(old(S()), S(), dir, VirtPage(virt), PageOf(old(S()), dir, VirtPage(virt)).(present := false))
    {
      hide Ok;
      var tableIndex := virt / FRAME_SIZE / SLOTS;
      var table := dirs[dir].entries[tableIndex].frame;
      if table == 0 { return 1; }
      var pageIndex := virt / FRAME_SIZE % SLOTS;
      LinkedHeld(S(), Blocks(), dir, tableIndex);
      var page := mem[table].pages[pageIndex].(present := false);
      PageWritten(S(), Blocks(), dir, VirtPage(virt), page);
      mem := mem[table := Table(mem[table].pages[pageIndex := page])];
      return 0;
    }

    // The start of scuba_map_func: find, share or create the table for virt.
    method FindTable(dir: nat, virt: nat, mode: int) returns (ret: int, ok: bool)
      requires Valid() && dir in dirs && virt < ADDRESSES && 0 <= mode <= 3 && (mode == 2 ==> dir == kernelDir)
      modifies `mem, `dirs, heap
      ensures ok <==> Serves(old(H()), MapNeeds(old(S()), dir, VirtPage(virt), mode))
      ensures EntryAt(old(S()), dir, VirtPage(virt)).frame != 0 || mode == 1 ==> ok
      ensures ok ==> Valid() && TableFound(old(S()), S(), old(Blocks()), Blocks(), dir, VirtPage(virt), mode, ret)
      ensures ok ==> H() == Run(old(H()), MapNeeds(old(S()), dir, VirtPage(virt), mode))
    {
      hide ChainOk, Ok, TableAdded, FreshTable, KernelTable, KernelPages, SamePages, Linked, Gave, CanServe, After,
           Serves, Run, SpansOf;
      ghost var v, s0 := VirtPage(virt), S();
      FrameServed(H(), EntryAt(s0, dir, v).frame == 0 && mode != 1);
      OkKernel(S(), Blocks());
      var tableIndex := virt / FRAME_SIZE / SLOTS;
      var fkernel := mode == 1 || mode == 2;
      var entry := dirs[dir].entries[tableIndex];
      if entry.frame != 0 {
        return if entry.fkernel && !fkernel then 1 else 0, true;
      }
      if mode == 1 {
        var table := dirs[kernelDir].entries[tableIndex].frame;
        if table == 0 { return 1, true; }
        LinkedHeld(S(), Blocks(), kernelDir, tableIndex);
        if !mem[table].pages[virt / FRAME_SIZE % SLOTS].present { return 1, true; }
        entry := Entry(true, true, true, false, false, fkernel, table);
        MakeKernelTable(S(), dir, tableIndex, entry);
        KernelLinked(S(), Blocks(), dir, tableIndex, entry);
        KernelAdded(S(), SetEntry(S(), dir, tableIndex, entry), dir, v);
        dirs := dirs[dir := dirs[dir].(entries := dirs[dir].entries[tableIndex := entry])];
        return 0, true;
      }
      var f;
      f, ok := AllocFrame(dir, ZeroTable());
      if !ok { return 1, false; }
      entry := Entry(true, true, true, false, false, fkernel, f);
      GaveBlock(old(Blocks()), Blocks(), FrameBlock(dir, dirs[dir].pid, f));
      MakeFreshTable(S(), Blocks(), dir, tableIndex, entry);
      TableLinked(S(), Blocks(), dir, tableIndex, entry);
      ZeroTableAdded(S(), SetEntry(S(), dir, tableIndex, entry), dir, tableIndex, f);
      SamePagesTwice(s0, S(), SetEntry(S(), dir, tableIndex, entry));
      dirs := dirs[dir := dirs[dir].(entries := dirs[dir].entries[tableIndex := entry])];
      return 0, true;
    }

    method MapFunc(dir: nat, virt: nat, phys: nat, mode: int) returns (ret: int, ok: bool)
      requires Valid() && dir in dirs && virt < ADDRESSES && phys < ADDRESSES
      requires 0 <= mode <= 3 && (mode == 2 ==> dir == kernelDir)
      modifies `mem, `dirs, heap
      ensures ok <==> Serves(old(H()), MapNeeds(old(S()), dir, VirtPage(virt), mode))
      ensures EntryAt(old(S()), dir, VirtPage(virt)).frame != 0 || mode == 1 ==> ok
      ensures ok ==>
              Valid() && MapDone(old(S()), S(), old(Blocks()), Blocks(), dir, VirtPage(virt), VirtPage(phys), mode, ret)
      ensures ok ==> H() == Run(old(H()), MapNeeds(old(S()), dir, VirtPage(virt), mode))
    {
      hide ChainOk, Ok, NewTable, KernelPages, Written, PageMapped, Gave, PageOf, DataKept, Serves, Run, SpansOf,
           MapNeeds;
      ghost var s0, bs0, v := S(), Blocks(), VirtPage(virt);
      ret, ok := FindTable(dir, virt, mode);
      if !ok || ret == 1 || mode == 1 { return; }
      FoundTable(s0, S(), bs0, Blocks(), dir, v, mode);
      var table := dirs[dir].entries[virt / FRAME_SIZE / SLOTS].frame;
      var pageIndex := virt / FRAME_SIZE % SLOTS;
      LinkedHeld(S(), Blocks(), dir, virt / FRAME_SIZE / SLOTS);
      var page := mem[table].pages[pageIndex].(frame := phys / FRAME_SIZE, present := true, rw := true, user := true,
                                               deepcopy := mode == 0);
      ReadsPage(S(), dir, v);
      PageWritten(S(), Blocks(), dir, v, page);
      MappedAll(s0, S(), SetPage(S(), table, pageIndex, page), bs0, dir, v, page);
      mem := mem[table := Table(mem[table].pages[pageIndex := page])];
    }

    // The first loop: is any of the pages mapped?
    method AnyMapped(dir: nat, virt: nat, count: nat) returns (found: bool)
      requires Valid() && dir in dirs && virt < ADDRESSES && PageAddr(virt, count) <= ADDRESSES
      ensures found <==> AlreadyMapped(S(), dir, virt, count)
    {
      hide ChainOk, Ok, PhysOf;
      var i := 0;
      while i < count
        invariant i <= count
        invariant forall k: nat :: k < i ==> PhysOf(S(), dir, PageAddr(virt, k)) == 0
      {
        var phys := GetPhys(dir, PageAddr(virt, i));
        if phys != 0 { return true; }
        i := i + 1;
      }
      found := false;
    }

    // Frames for `count` pages of dir, cleared.
    method AllocCleared(dir: nat, count: nat) returns (phys: nat, ok: bool, f: FrameNo)
      requires Valid() && dir in dirs && count > 0
      modifies `mem, heap
      ensures ok <==> CanServe(old(H()), FRAME_SIZE * count)
      ensures ok ==> Valid() && f > 0 && phys == f * FRAME_SIZE && f + count <= FRAME_COUNT && SamePages(old(S()), S())
      ensures ok ==> H() == After(old(H()), FRAME_SIZE * count)
      ensures ok ==> ClearedData(S(), Blocks(), f, count)
      ensures ok ==> forall g: FrameNo :: f <= g < f + count ==> !Held(old(Blocks()), g)
    {
      hide ChainOk, Ok, Grew, Unused, Linked, SamePages, Distinct, CanServe, After, SpansOf;
      ghost var bs := Blocks();
      ghost var b;
      f := 0;
      phys, ok, b := AllocDir(FRAME_SIZE * count, dirs[dir].pid, dir);
      if !ok { return; }
      f := phys / FRAME_SIZE;
      FreshMemory(S(), bs, Blocks(), b, ClearFrames(mem, f, count));
      ClearedThere(S(), bs, Blocks(), b, f, count);
      mem := ClearFrames(mem, f, count);
    }

    method CreateVirtual(dir: nat, virt: nat, count: nat) returns (addr: nat, ok: bool, ghost f: FrameNo, ghost n: nat)
      requires Valid() && dir in dirs && virt < ADDRESSES && PageAddr(virt, count) <= ADDRESSES
      modifies `mem, `dirs, heap
      ensures ok <==> Serves(old(H()), CreateNeeds(old(S()), dir, virt, count))
      ensures ok ==> Valid() && CreateDone(old(S()), S(), old(Blocks()), dir, virt, count, addr, f, n)
      ensures ok ==> H() == Run(old(H()), CreateNeeds(old(S()), dir, virt, count))
    {
      hide ChainOk, Ok, CreatedPages, SameKernelEntries, ClearedData, SamePages, PageMapped, DataKept, MaybeGave,
           PageOf, EntryAt, Creating, AlreadyMapped, HitsKernel, VirtPage, CreateDone, KernelEntry, MapDone, PageAddr,
             Serves, Run, SpansOf, CanServe, After, PagesNeeds, TablesMade;
      ghost var s0, bs0, v, h0 := S(), Blocks(), VirtPage(virt), H();
      f, n := 0, 0;
      NoNeeds(h0);
      CreatesNothing(s0, bs0, dir, virt, count);
      var mapped := AnyMapped(dir, virt, count);
      if mapped || count == 0 { return 0, true, f, n; }
      PageStep(virt, 0, count);
      RunOne(h0, FRAME_SIZE * count);
      ghost var needs := PagesNeeds(s0, dir, v, Stop(s0, dir, v, count, 0));
      RunJoin(h0, [FRAME_SIZE * count], needs);
      var phys, first;
      phys, ok, first := AllocCleared(dir, count);
      f := first;
      if !ok { return 0, false, f, n; }
      CreatingFirst(s0, mem, Blocks(), dir, v, f, count);
      NoTablesYet(s0, S(), dir, v);
      addr, ok, n := MapFrames(dir, virt, phys, count, s0, bs0, first);
    }

    // The second loop: map each page, and give up at the first refusal.
    method MapFrames(dir: nat, virt: nat, phys: nat, count: nat, ghost s0: Space, ghost bs0: seq<Block>,
                     ghost f: FrameNo)
        returns (addr: nat, ok: bool, ghost n: nat)
      requires Valid() && dir in dirs && virt < ADDRESSES && PageAddr(virt, count) <= ADDRESSES && count > 0
      requires dir in s0.dirs && !AlreadyMapped(s0, dir, virt, count) && phys == f * FRAME_SIZE && f > 0
      requires Creating(s0, S(), Blocks(), dir, VirtPage(virt), f, 0, count)
               && TablesMade(s0, S(), dir, VirtPage(virt), 0)
      requires VirtPage(virt) + count <= FRAME_COUNT
      requires forall g: FrameNo :: f <= g < f + count ==> !Held(bs0, g)
      modifies `mem, `dirs, heap
      ensures ok ==> Valid() && CreateDone(s0, S(), bs0, dir, virt, count, addr, f, n)
      ensures var needs := PagesNeeds(s0, dir, VirtPage(virt), Stop(s0, dir, VirtPage(virt), count, 0));
              (ok <==> Serves(old(H()), needs)) && (ok ==> H() == Run(old(H()), needs))
    {
      hide ChainOk, Ok, Creating, AlreadyMapped, VirtPage, CreateDone, KernelEntry, MapDone, PageAddr, Held, Serves,
           Run, SpansOf,
        PagesNeeds, TablesMade, MapNeeds, NoneBefore;
      ghost var v, h0 := VirtPage(virt), H();
      NoPagesNeeds(h0, s0, dir, v);
      var i := 0;
      n := 0;
      while i < count
        invariant i <= count && Valid() && Creating(s0, S(), Blocks(), dir, v, f, i, count) && dir in dirs
        invariant TablesMade(s0, S(), dir, v, i) && NoneBefore(s0, dir, v, i)
        invariant Serves(h0, PagesNeeds(s0, dir, v, i)) && H() == Run(h0, PagesNeeds(s0, dir, v, i))
      {
        PageStep(virt, i, count);
        CreatingBounds(s0, S(), Blocks(), dir, v, f, i, count);
        FrameStep(f, phys, i);
        var ret, to, from := 0, PageAddr(virt, i), PageAddr(phys, i);
        ghost var s1, bs1, h1 := S(), Blocks(), H();
        PagesStep(h0, h1, s0, s1, dir, v, i, VirtPage(to));
        KernelEntryStays(s0, s1, bs1, dir, v, f, i, count, h1, VirtPage(to));
        ret, ok := MapFunc(dir, to, from, 0);
        if !ok {
          StopFails(h0, s0, dir, v, count, i);
          return 0, false, n;
        }
        CreatingStep(s0, s1, S(), bs1, Blocks(), dir, v, f, i, count, ret, VirtPage(to), VirtPage(from));
        if ret != 0 {
          n := i;
          StopIs(s0, dir, v, count, i);
          CreateFails(s0, S(), bs0, Blocks(), dir, virt, f, i, count);
          return 0, true, n;
        }
        TablesNext(s0, s1, S(), bs1, Blocks(), dir, v, i, VirtPage(to), VirtPage(from));
        NoneNext(s0, dir, v, i);
        i := i + 1;
      }
      StopIs(s0, dir, v, count, count);
      CreateEnds(s0, S(), bs0, Blocks(), dir, virt, f, count);
      return phys, true, count;
    }

    // One page of a clone: the entry is copied, and a deepcopy page gets a frame of its own.
    method ClonePage(nd: nat, table: FrameNo, newTable: FrameNo, j: nat, ghost s1: Space, ghost bs1: seq<Block>,
                     ghost n: set<FrameNo>)
        returns (ok: bool, ghost n': set<FrameNo>)
      requires Valid() && nd in dirs && j < SLOTS && Stable(bs1, table)
      requires Cloning(s1, S(), bs1, Blocks(), nd, table, newTable, j, n)
      modifies `mem, heap
      ensures s1.mem[table].Table? && (ok <==> Serves(old(H()), FrameNeed(Deep(s1.mem[table].pages[j]))))
      ensures ok ==> Valid() && Cloning(s1, S(), bs1, Blocks(), nd, table, newTable, j + 1, n')
      ensures ok ==> H() == Run(old(H()), FrameNeed(Deep(s1.mem[table].pages[j])))
    {
      hide ChainOk, Ok, Cloning, SamePages, Linked, Gave, Deep, PageOf, Stable, Held, Serves, Run, SpansOf, CanServe,
           After, FrameNeed;
      n' := n;
      CloneSource(s1, S(), bs1, Blocks(), nd, table, newTable, j, n);
      var page := mem[table].pages[j];
      FrameServed(H(), Deep(page));
      CloneTouch(s1, S(), bs1, Blocks(), nd, table, newTable, j, n, page);
      mem := mem[newTable := Table(mem[newTable].pages[j := page])];
      if !Deep(page) {
        CloneShared(s1, S(), bs1, Blocks(), nd, table, newTable, j, n);
        return true, n';
      }
      CloneSource(s1, S(), bs1, Blocks(), nd, table, newTable, j, n);
      ghost var s2, bs2 := S(), Blocks();
      var data;
      data, ok := AllocFrame(nd, mem[page.frame]);
      if !ok { return; }
      CloneAlloc(s1, s2, S(), bs1, bs2, Blocks(), nd, dirs[nd].pid, table, newTable, j, n, data);
      page := page.(frame := data);
      LinkedSame(S(), SetPage(S(), newTable, j, page), data);
      CloneTouch(s1, S(), bs1, Blocks(), nd, table, newTable, j, n, page);
      mem := mem[newTable := Table(mem[newTable].pages[j := page])];
      CloneDeep(s1, S(), bs1, Blocks(), nd, table, newTable, j, n, data);
      n' := n + {data};
    }

    // All its pages; the frame of the table has been taken from the memory h0.
    method ClonePages(nd: nat, table: FrameNo, newTable: FrameNo, ghost s1: Space, ghost bs1: seq<Block>,
                      ghost h0: Heap)
        returns (ok: bool, ghost n: set<FrameNo>)
      requires Valid() && nd in dirs && Stable(bs1, table) && s1.mem[table].Table?
      requires Cloning(s1, S(), bs1, Blocks(), nd, table, newTable, 0, {})
      requires Serves(h0, TableNeeds(s1.mem[table].pages, 0)) && H() == Run(h0, TableNeeds(s1.mem[table].pages, 0))
      modifies `mem, heap
      ensures ok <==> Serves(h0, TableNeeds(s1.mem[table].pages, SLOTS))
      ensures ok ==> Valid() && Cloning(s1, S(), bs1, Blocks(), nd, table, newTable, SLOTS, n)
      ensures ok ==> H() == Run(h0, TableNeeds(s1.mem[table].pages, SLOTS))
    {
      hide ChainOk, Ok, Cloning, Stable, Serves, Run, SpansOf, TableNeeds, FrameNeed, Deep;
      ghost var pages := s1.mem[table].pages;
      n := {};
      var j := 0;
      while j < SLOTS
        invariant j <= SLOTS && Valid() && Cloning(s1, S(), bs1, Blocks(), nd, table, newTable, j, n)
        invariant Serves(h0, TableNeeds(pages, j)) && H() == Run(h0, TableNeeds(pages, j))
      {
        TableStep(h0, H(), pages, j);
        ok, n := ClonePage(nd, table, newTable, j, s1, bs1, n);
        if !ok {
          TableFails(h0, pages, j + 1);
          return;
        }
        j := j + 1;
      }
      ok := true;
    }

    // The inner loop of scuba_dir_copy: a page table and its private pages, for directory nd.
    method CloneTable(dir: nat, nd: nat, i: nat) returns (ok: bool, ghost n: set<FrameNo>)
      requires Valid() && dir in dirs && nd in dirs && dir != nd && nd != kernelDir && i < SLOTS
      requires dirs[nd].entries[i].frame == 0 && dirs[dir].entries[i].frame != 0 && !dirs[dir].entries[i].fkernel
      modifies `mem, `dirs, heap
      ensures ok <==> Serves(old(H()), EntryNeeds(old(S()), old(dirs)[dir].entries[i]))
      ensures ok ==> Valid() && TableCloned(old(S()), S(), old(Blocks()), Blocks(), dir, nd, i, n)
      ensures ok ==> H() == Run(old(H()), EntryNeeds(old(S()), old(dirs)[dir].entries[i]))
      ensures ok ==> nd in dirs && dirs[nd].entries[i].frame != 0
    {
      hide ChainOk, Ok, Cloning, SamePages, Linked, Gave, Deep, TableCloned, PageOf, Stable, Held, TableAdded,
           FreshTable, Serves, Run, SpansOf,
        CanServe, After, TableNeeds;
      ghost var s1, bs1, h0 := S(), Blocks(), H();
      n := {};
      var entry := dirs[dir].entries[i];
      LinkedHeld(s1, bs1, dir, i);
      var newTable;
      TableFirst(h0, s1.mem[entry.frame].pages);
      newTable, ok := AllocFrame(nd, ZeroTable());
      if !ok {
        TableFails(h0, s1.mem[entry.frame].pages, 0);
        return;
      }
      CloneStart(s1, S(), bs1, Blocks(), nd, dirs[nd].pid, entry.frame, newTable);
      TableStable(s1, bs1, dir, i);
      ok, n := ClonePages(nd, entry.frame, newTable, s1, bs1, h0);
      if !ok { return; }
      entry := entry.(frame := newTable, present := true);
      CloneReady(s1, S(), bs1, Blocks(), dir, nd, i, entry, n);
      TableLinked(S(), Blocks(), nd, i, entry);
      CloneLinked(s1, S(), bs1, Blocks(), dir, nd, i, entry, n);
      dirs := dirs[nd := dirs[nd].(entries := dirs[nd].entries[i := entry])];
    }

    // i_directory_create.
    method DirectoryCreate(pid: int) returns (dir: nat, ok: bool)
      requires Valid()
      modifies `dirs, heap
      ensures ok <==> CanServe(old(H()), DIR_BYTES)
      ensures ok ==> Valid() && H() == After(old(H()), DIR_BYTES)
      ensures ok ==>
              Valid() && dir !in old(dirs) && dir != 0 && S() == WithDir(old(S()), dir, NewDir(pid))
                && SamePages(old(S()), S())
      ensures ok ==> ForkBlocks(old(Blocks()), Blocks(), dir, pid)
    {
      hide ChainOk, Ok, Grew, Unused, SamePages, ForkBlocks, Distinct, CanServe, After, SpansOf;
      ghost var bs := Blocks();
      ghost var b;
      dir, ok, b := AllocDir(DIR_BYTES, pid, 0);
      if !ok { return; }
      DirCreated(S(), bs, Blocks(), dir, pid);
      dirs := dirs[dir := NewDir(pid)];
    }

    // One entry of scuba_dir_copy.
    method CopyEntry(dir: nat, nd: nat, i: nat, ghost s0: Space, ghost bs0: seq<Block>, ghost n: set<FrameNo>)
        returns (ok: bool, ghost n': set<FrameNo>)
      requires Valid() && i < SLOTS && Forking(s0, S(), bs0, Blocks(), dir, nd, i, n) && Ok(s0, bs0)
      modifies `mem, `dirs, heap
      ensures dir in s0.dirs && (ok <==> Serves(old(H()), EntryNeeds(s0, s0.dirs[dir].entries[i])))
      ensures ok ==> Valid() && Forking(s0, S(), bs0, Blocks(), dir, nd, i + 1, n')
      ensures ok ==> H() == Run(old(H()), EntryNeeds(s0, s0.dirs[dir].entries[i]))
      ensures ok ==> nd in dirs && dirs[nd].pid == old(S()).dirs[nd].pid
    {
      hide ChainOk, Ok, Forking, TableCloned, Serves, Run, SpansOf, EntryNeeds;
      ok, n' := true, n;
      ghost var s, bs := S(), Blocks();
      ForkFacts(s0, s, bs0, bs, dir, nd, i, n);
      EntryNeedsKept(s0, s, bs0, bs, dir, nd, i, n, H());
      var entry := dirs[dir].entries[i];
      if entry.frame == 0 {
        ForkSkip(s0, s, bs0, bs, dir, nd, i, n);
      } else if entry.fkernel {
        ForkShare(s0, s, bs0, bs, dir, nd, i, n);
        dirs := dirs[nd := dirs[nd].(entries := dirs[nd].entries[i := entry])];
      } else {
        ghost var m;
        ok, m := CloneTable(dir, nd, i);
        if ok {
          n' := n + m;
          ClonedPid(s, S(), bs, Blocks(), dir, nd, i, m);
          ForkClone(s0, s, S(), bs0, bs, Blocks(), dir, nd, i, n, m);
        }
      }
    }

    // A copy of dir: the same pages, kernel tables and plain pages shared, deepcopy pages cloned.
    method DirCopy(dir: nat, pid: int) returns (newDir: nat, ok: bool, ghost n: set<FrameNo>)
      requires Valid() && dir in dirs
      modifies `mem, `dirs, heap
      ensures ok <==> Serves(old(H()), CopyNeeds(old(S()), dir, SLOTS))
      ensures ok ==>
              Valid() && Forking(old(S()), S(), old(Blocks()), Blocks(), dir, newDir, SLOTS, n)
                && dirs[newDir].pid == pid
      ensures ok ==> H() == Run(old(H()), CopyNeeds(old(S()), dir, SLOTS))
    {
      hide ChainOk, Ok, Forking, SamePages, ForkBlocks, Serves, Run, SpansOf, CanServe, After, CopyNeeds, EntryNeeds;
      ghost var s0, bs0, h0 := S(), Blocks(), H();
      n := {};
      CopyFirst(h0, s0, dir);
      newDir, ok := DirectoryCreate(pid);
      if !ok {
        CopyFails(h0, s0, dir, 0);
        return;
      }
      ForkStart(s0, S(), bs0, Blocks(), dir, newDir, NewDir(pid));
      var i := 0;
      while i < SLOTS
        invariant i <= SLOTS && Valid() && Forking(s0, S(), bs0, Blocks(), dir, newDir, i, n)
        invariant newDir in dirs && dirs[newDir].pid == pid
        invariant Serves(h0, CopyNeeds(s0, dir, i)) && H() == Run(h0, CopyNeeds(s0, dir, i))
      {
        CopyStep(h0, H(), s0, dir, i);
        ok, n := CopyEntry(dir, newDir, i, s0, bs0, n);
        if !ok {
          CopyFails(h0, s0, dir, i + 1);
          return;
        }
        i := i + 1;
      }
      ok := true;
    }

    method DirDestroy(dir: nat)
      requires Valid() && dir in dirs && dir != kernelDir
      modifies `dirs, heap
      ensures Valid() && S() == Dropped(old(S()), dir) && SamePages(S(), old(S()))
      ensures WithoutDir(old(Blocks()), Blocks(), dir)
    {
      hide ChainOk, Ok, WithoutDir, Absent, Ordered, Kept, SamePages, Distinct;
      ghost var bs := Blocks();
      FreeDirBlocks(dir);
      DirRemoved(S(), bs, Blocks(), dir);
      dirs := dirs - {dir};
    }

    // The frames of the directory, then its own block.
    method FreeDirBlocks(dir: nat)
      requires Valid() && dir in dirs
      modifies heap
      ensures HeapOk() && Distinct(Blocks()) && S() == old(S()) && WithoutDir(old(Blocks()), Blocks(), dir)
    {
      hide ChainOk, Ok, WithoutDir, Absent, Ordered, Kept, Distinct;
      ghost var bs := Blocks();
      HeapOrdered(heap.parts, heap.chain, heap.tail, heap.physSize);
      DestroyFacts(S(), bs, dir, heap.table, |heap.parts|);
      var count := heap.FreeDir(dir);
      HeapOrdered(heap.parts, heap.chain, heap.tail, heap.physSize);
      OwnBlockKept(S(), bs, dir, heap.physSize);
      var ret, k := heap.FreeAddr(dir);
      HeapOrdered(heap.parts, heap.chain, heap.tail, heap.physSize);
      BlocksLeft(bs, dir, k, heap.physSize);
      OrderedDistinct(Blocks(), heap.physSize);
    }

    // scuba_init up to the hardware: the kernel directory maps memory to itself.
    method Init() returns (ok: bool)
      requires HeapOk() && dirs == map[] && Untagged(Blocks())
      modifies this, heap
      ensures ok <==> Serves(old(H()), InitNeeds((old(heap.physSize) + FRAME_SIZE - 1) / FRAME_SIZE))
      ensures ok ==> Valid() && dirs.Keys == {kernelDir}
      ensures ok ==> H() == Run(old(H()), InitNeeds((old(heap.physSize) + FRAME_SIZE - 1) / FRAME_SIZE))
      ensures ok ==> Identity(S(), (old(heap.physSize) + FRAME_SIZE - 1) / FRAME_SIZE)
    {
      hide ChainOk, Ok, Grew, Unused, Distinct, Identity, MapDone, Serves, Run, SpansOf, CanServe, After, InitNeeds,
           MapNeeds, KernelTables;
      ghost var bs, h0 := Blocks(), H();
      ghost var b;
      var mapTo := heap.physSize;
      ghost var pages := (mapTo + FRAME_SIZE - 1) / FRAME_SIZE;
      var dir;
      InitFirst(h0);
      dir, ok, b := AllocDir(DIR_BYTES, 0, 0);
      if !ok {
        InitFails(h0, 1, pages);
        return;
      }
      FirstDir(mem, bs, Blocks(), dir);
      NoKernelTables(mem, dir);
      dirs, kernelDir := map[dir := NewDir(0)], dir;
      var i := FRAME_SIZE;
      ghost var v := 1;
      while i < mapTo
        invariant Valid() && dirs.Keys == {kernelDir}
        invariant 1 <= v && i == v * FRAME_SIZE && (v == 1 || i < mapTo + FRAME_SIZE)
        invariant Identity(S(), v) && KernelTables(S(), v)
        invariant Serves(h0, InitNeeds(v)) && H() == Run(h0, InitNeeds(v))
      {
        ghost var s1, bs1 := S(), Blocks();
        var ret;
        PageNumber(i, v, mapTo);
        InitStep(h0, H(), s1, v);
        ret, ok := MapFunc(kernelDir, i, i, 2);
        if !ok {
          InitFails(h0, v + 1, pages);
          return;
        }
        IdentityNext(s1, S(), bs1, Blocks(), v, ret);
        KernelTablesNext(s1, S(), bs1, Blocks(), v);
        i := i + FRAME_SIZE;
        v := v + 1;
      }
      IdentityEnds(S(), v, mapTo);
      InitEnds(h0, v, mapTo);
      ok := true;
    }
 
    // mem_init, then scuba_init: with five megabytes or more both succeed.
    static method Boot(memory: nat, frames: Memory) returns (pager: Pager)
      requires memory >= BOOT_BYTES
      ensures fresh(pager) && fresh(pager.heap) && pager.Valid() && pager.dirs.Keys == {pager.kernelDir}
      ensures pager.heap.physSize == if memory > SCUBA_MAP_MAX then SCUBA_MAP_MAX else memory
      ensures Identity(pager.S(), (pager.heap.physSize + FRAME_SIZE - 1) / FRAME_SIZE)
      ensures var phys := pager.heap.physSize;
              pager.H() == Run(Booted(phys), InitNeeds((phys + FRAME_SIZE - 1) / FRAME_SIZE))
      ensures Under(pager.H(), BOOT_BYTES) && pager.H().slots <= PARTS_COUNT + GROW_SIZE * 66
    {
      hide Ok, Identity, Serves, Run, Under, InitNeeds, ChainOk, SpansOf, Untagged, Booted;
      var heap := new Allocator();
      var halted := heap.MemInit(memory);
      pager := new Pager(heap, frames);
      BootedBlocks(heap.physSize);
      BootServes(heap.physSize);
      var ok := pager.Init();
    }
  }
}
