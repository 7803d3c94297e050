/** What one call of the memory manager may change, and why. */
module ScubaMap {
  import opened SnowState
  import opened ScubaState
  import opened ScubaSteps

  lemma HeapOrdered(parts: seq<Part>, chain: seq<nat>, tail: nat, phys: nat)
    requires ChainOk(parts, chain, tail, phys)
    ensures Ordered(SnowState.Blocks(parts, chain), phys)
  {
  }

  function VirtPage(virt: nat): FrameNo
    requires virt < ADDRESSES
  {
    virt / FRAME_SIZE
  }

  // What a new block means for the frames.
  ghost predicate Gave(bs: seq<Block>, bs': seq<Block>, b: Block) {
    Grew(bs, bs', b) && Unused(bs, b)
  }

  // Which calls to map are refused.
  function MapResult(s: Space, dir: nat, v: FrameNo, mode: int): int
    requires dir in s.dirs && s.kernel in s.dirs
  {
    var e := EntryAt(s, dir, v);
    if e.frame == 0 then
      (if mode == 1 && (EntryAt(s, s.kernel, v).frame == 0 || !PageOf(s, s.kernel, v).present) then 1 else 0)
    else if e.fkernel && mode != 1 && mode != 2 then 1
    else 0
  }

  // A cleared table from fresh memory now serves the pages around v; no page reads differently.
  ghost predicate NewTable(s: Space, s': Space, bs: seq<Block>, bs': seq<Block>, dir: nat, v: FrameNo, mode: int) {
    && dir in s.dirs && dir in s'.dirs && SamePages(s, s')
    && var f := EntryAt(s', dir, v).frame;
    f != 0 && s'.mem == s.mem[f := ZeroTable()] && Gave(bs, bs', FrameBlock(dir, s.dirs[dir].pid, f))
    && s'.dirs == SetEntry(s, dir, v / SLOTS, Entry(true, true, true, false, false, mode == 2, f)).dirs
  }

  // All the kernel's pages around v are now seen through dir.
  ghost predicate KernelPages(s: Space, s': Space, dir: nat, v: FrameNo) {
    && dir in s.dirs && s.kernel in s.dirs && s.mem == s'.mem && s.kernel == s'.kernel
    && (var e := Entry(true, true, true, false, false, true, EntryAt(s, s.kernel, v).frame);
        s'.dirs == SetEntry(s, dir, v / SLOTS, e).dirs)
    && forall c, q: FrameNo :: c in s.dirs ==>
         PageOf(s', c, q) == if c == dir && q / SLOTS == v / SLOTS then PageOf(s, s.kernel, q) else PageOf(s, c, q)
  }

  // The outcome of looking for a table.
  ghost predicate TableFound(s: Space, s': Space, bs: seq<Block>, bs': seq<Block>, dir: nat, v: FrameNo, mode: int,
                             ret: int) {
    && dir in s.dirs && s.kernel in s.dirs && ret == MapResult(s, dir, v, mode)
    && if ret == 1 || EntryAt(s, dir, v).frame != 0 then s' == s && bs' == bs
       else if mode == 1 then bs' == bs && KernelPages(s, s', dir, v)
       else NewTable(s, s', bs, bs', dir, v, mode)
  }

  lemma KernelAdded(s: Space, s': Space, d: nat, v: FrameNo)
    requires d in s.dirs && s.kernel in s.dirs && s.mem == s'.mem && s.kernel == s'.kernel
    requires EntryAt(s, s.kernel, v).frame != 0
    requires TableAdded(s, s', d, v / SLOTS, EntryAt(s, s.kernel, v).frame)
    requires var e := Entry(true, true, true, false, false, true, EntryAt(s, s.kernel, v).frame);
             s' == SetEntry(s, d, v / SLOTS, e)
    ensures KernelPages(s, s', d, v)
  {
  }

  lemma GaveBlock(bs: seq<Block>, bs': seq<Block>, b: Block)
    requires Gave(bs, bs', b)
    ensures b in bs'
  {
  }

  lemma MakeFreshTable(s: Space, bs: seq<Block>, d: nat, i: nat, e: Entry)
    requires d in s.dirs && i < SLOTS && s.dirs[d].entries[i].frame == 0
    requires e.frame != 0 && !Linked(s, e.frame) && s.mem[e.frame] == ZeroTable() && (e.fkernel ==> d == s.kernel)
    requires FrameBlock(d, s.dirs[d].pid, e.frame) in bs && Walkable(e)
    ensures FreshTable(s, bs, d, i, e)
  {
  }

  lemma MakeKernelTable(s: Space, d: nat, i: nat, e: Entry)
    requires d in s.dirs && s.kernel in s.dirs && i < SLOTS && s.dirs[d].entries[i].frame == 0
    requires e.fkernel && e.frame != 0 && e.frame == s.dirs[s.kernel].entries[i].frame && Walkable(e)
    ensures KernelTable(s, d, i, e)
  {
  }

  lemma ZeroTableAdded(s: Space, s': Space, d: nat, i: nat, f: FrameNo)
    requires i < SLOTS && TableAdded(s, s', d, i, f) && s.mem[f] == ZeroTable() && s.dirs[d].entries[i].frame == 0
    ensures SamePages(s, s')
  {
  }

  lemma SamePagesTwice(s: Space, t: Space, u: Space)
    requires SamePages(s, t) && SamePages(t, u)
    ensures SamePages(s, u)
  {
  }

  function MappedPage(old_: Page, f: FrameNo, mode: int): Page {
    old_.(frame := f, present := true, rw := true, user := true, deepcopy := mode == 0)
  }

  // Page v reads p for all who share the table, and every other page reads as before.
  ghost predicate PageMapped(s: Space, s': Space, dir: nat, v: FrameNo, p: Page) {
    && dir in s.dirs && s.dirs.Keys == s'.dirs.Keys && s.kernel == s'.kernel
    && forall c, q: FrameNo :: c in s.dirs ==>
         PageOf(s', c, q) == if q == v && Shares(s', dir, c, v) then p else PageOf(s, c, q)
  }

  // Frames in use for data keep their contents and do not become tables.
  ghost predicate DataKept(s: Space, s': Space, bs: seq<Block>) {
    forall f: FrameNo :: Held(bs, f) && !Linked(s, f) ==> s'.mem[f] == s.mem[f] && !Linked(s', f)
  }

  // The outcome of a call to map.
  ghost predicate MapDone(s: Space, s': Space, bs: seq<Block>, bs': seq<Block>, dir: nat, v: FrameNo, f: FrameNo,
                          mode: int, ret: int) {
    && dir in s.dirs && s.kernel in s.dirs && ret == MapResult(s, dir, v, mode)
    && if ret == 1 then s' == s && bs' == bs
       else if mode == 1 then bs' == bs && if EntryAt(s, dir, v).frame != 0 then s' == s else KernelPages(s, s', dir, v)
       else
         && PageMapped(s, s', dir, v, MappedPage(PageOf(s, dir, v), f, mode))
         && DataKept(s, s', bs) && MaybeGave(s, s', bs, bs', dir, v, mode)
  }

  // No entry changes but the one that gets a new table.
  ghost predicate MaybeGave(s: Space, s': Space, bs: seq<Block>, bs': seq<Block>, dir: nat, v: FrameNo, mode: int)
    requires dir in s.dirs
  {
    && dir in s'.dirs
    && if EntryAt(s, dir, v).frame != 0 then bs' == bs && s'.dirs == s.dirs
       else Gave(bs, bs', FrameBlock(dir, s.dirs[dir].pid, EntryAt(s', dir, v).frame))
            && EntryAt(s', dir, v).frame != 0
            && var e := Entry(true, true, true, false, false, mode == 2, EntryAt(s', dir, v).frame);
               s'.dirs == SetEntry(s, dir, v / SLOTS, e).dirs
  }

  // Found or made, the table is there and nothing reads differently yet.
  ghost predicate TableThere(s: Space, s': Space, bs: seq<Block>, dir: nat, v: FrameNo) {
    dir in s.dirs && dir in s'.dirs && SamePages(s, s') && s.dirs.Keys == s'.dirs.Keys && s.kernel == s'.kernel
    && EntryAt(s', dir, v).frame != 0 && DataKept(s, s', bs)
  }

  lemma FoundTable(s: Space, s': Space, bs: seq<Block>, bs': seq<Block>, dir: nat, v: FrameNo, mode: int)
    requires TableFound(s, s', bs, bs', dir, v, mode, 0) && mode != 1 && Ok(s, bs) && s.kernel == s'.kernel
    ensures TableThere(s, s', bs, dir, v) && MaybeGave(s, s', bs, bs', dir, v, mode)
  {
    hide Ok, PageOf;
    if EntryAt(s, dir, v).frame == 0 {
      forall g: FrameNo | Held(bs, g) && !Linked(s, g) ensures s'.mem[g] == s.mem[g] && !Linked(s', g) {
        LinkedAfter(s, dir, v / SLOTS, EntryAt(s', dir, v), g);
      }
    }
  }

  lemma ReadsPage(s: Space, d: nat, v: FrameNo)
    requires d in s.dirs && EntryAt(s, d, v).frame != 0 && s.mem[EntryAt(s, d, v).frame].Table?
    ensures PageOf(s, d, v) == s.mem[EntryAt(s, d, v).frame].pages[v % SLOTS]
  {
  }

  lemma MappedAll(s: Space, t: Space, u: Space, bs: seq<Block>, dir: nat, v: FrameNo, p: Page)
    requires TableThere(s, t, bs, dir, v) && t.mem[EntryAt(t, dir, v).frame].Table?
    requires u == SetPage(t, EntryAt(t, dir, v).frame, v % SLOTS, p) && Written(t, u, dir, v, p)
    ensures PageMapped(s, u, dir, v, p) && DataKept(s, u, bs) && PageOf(t, dir, v) == PageOf(s, dir, v)
  {
  }

  // Mapping on behalf of a process moves one page of that process and nothing else anywhere.
  lemma MapIsLocal(s: Space, s': Space, bs: seq<Block>, bs': seq<Block>, dir: nat, v: FrameNo, f: FrameNo, mode: int)
    requires Ok(s, bs) && Ok(s', bs') && MapDone(s, s', bs, bs', dir, v, f, mode, 0) && (mode == 0 || mode == 3)
             && dir != s.kernel
    ensures forall c, q: FrameNo :: c in s.dirs ==>
              PageOf(s', c, q) == if c == dir && q == v then MappedPage(PageOf(s, dir, v), f, mode) else PageOf(s, c, q)
  {
    hide Ok, PageOf, DataKept;
    forall c, q: FrameNo | c in s.dirs
      ensures PageOf(s', c, q) == if c == dir && q == v then MappedPage(PageOf(s, dir, v), f, mode) else PageOf(s, c, q)
    {
      if q == v && Shares(s', dir, c, v) { PrivateAlone(s', bs', dir, c, v); }
    }
  }

  // Unmapping a page through a table of one's own is seen by nobody else; through the kernel's
  // table, the kernel loses the page as well.
  lemma UnmapIsLocal(s: Space, s': Space, bs: seq<Block>, dir: nat, v: FrameNo)
    requires Ok(s, bs) && dir in s.dirs && EntryAt(s, dir, v).frame != 0 && dir != s.kernel
    requires PageOf(s, dir, v).present && Written(s, s', dir, v, PageOf(s, dir, v).(present := false))
    ensures (forall c, q: FrameNo :: c in s.dirs && c != dir ==> PageOf(s', c, q) == PageOf(s, c, q)) <==>
            !EntryAt(s, dir, v).fkernel
    ensures forall q: FrameNo :: q != v ==> PageOf(s', dir, q) == PageOf(s, dir, q)
    ensures PageOf(s', dir, v) == PageOf(s, dir, v).(present := false)
  {
    hide Ok;
    OkKernel(s, bs);
    if EntryAt(s, dir, v).fkernel {
      KernelFirst(s, bs, dir, v / SLOTS);
      assert PageOf(s', s.kernel, v) != PageOf(s, s.kernel, v);
    } else {
      forall c, q: FrameNo | c in s.dirs && c != dir ensures PageOf(s', c, q) == PageOf(s, c, q) {
        if q == v && Shares(s, dir, c, v) { PrivateAlone(s, bs, dir, c, v); }
      }
    }
  }

  // An input: the kernel maps page 1 by the table in frame 600; a process of its own asks for that
  // page by mode 1, and then unmaps it.
  const KERNEL_AT := 0x20_0000
  const CHILD_AT := 0x20_2000

  function KernelTableEntry(): Entry { Entry(true, true, true, false, false, true, 600) }

  function OnePage(): Pages { seq(SLOTS, i => if i == 1 then MappedPage(ZERO_PAGE, 1, 2) else ZERO_PAGE) }

  function OneTable(linked: bool): Entries {
    seq(SLOTS, i => if i == 0 && linked then KernelTableEntry() else NEW_ENTRY)
  }

  function TwoDirs(shared: bool): Space {
    var mem: Memory := seq(FRAME_COUNT, f => if f == 600 then Table(OnePage()) else Data([]));
    Space(mem, map[KERNEL_AT := Dir(OneTable(true), 0), CHILD_AT := Dir(OneTable(shared), 5)], KERNEL_AT)
  }

  function TwoBlocks(): seq<Block> { [DirBlock(KERNEL_AT, 0), DirBlock(CHILD_AT, 5), FrameBlock(KERNEL_AT, 0, 600)] }

  lemma TwoDirsOk(shared: bool)
    ensures Ok(TwoDirs(shared), TwoBlocks())
  {
    var s, bs := TwoDirs(shared), TwoBlocks();
    assert s.mem[600].Table? && FrameBlock(KERNEL_AT, 0, 600) == bs[2];
    forall d, i | d in s.dirs && 0 <= i < SLOTS ensures EntryOk(s, bs, d, i) {}
    assert DirBlock(KERNEL_AT, 0) == bs[0] && DirBlock(CHILD_AT, 5) == bs[1];
  }

  lemma UnmapSeen(s': Space)
    requires Written(TwoDirs(true), s', CHILD_AT, 1, PageOf(TwoDirs(true), CHILD_AT, 1).(present := false))
    ensures Ok(TwoDirs(false), TwoBlocks())
    ensures MapDone(TwoDirs(false), TwoDirs(true), TwoBlocks(), TwoBlocks(), CHILD_AT, 1, 1, 1, 0)
    ensures PageOf(TwoDirs(true), KERNEL_AT, 1).present && !PageOf(s', KERNEL_AT, 1).present
  {
    TwoDirsOk(false);
    assert TwoDirs(true).mem == TwoDirs(false).mem;
    assert OneTable(false)[0 := KernelTableEntry()] == OneTable(true);
  }

  // ------------------------------------------------------------- scuba_create_virtual

  // The i-th page address from `base` on.
  function PageAddr(base: nat, i: nat): (a: nat)
    ensures a >= base
  {
    base + i * FRAME_SIZE
  }

  // What scuba_get_phys answers.
  function PhysOf(s: Space, dir: nat, virt: nat): nat
    requires dir in s.dirs && virt < ADDRESSES
  {
    var p := PageOf(s, dir, VirtPage(virt));
    if p.present then p.frame * FRAME_SIZE + virt % FRAME_SIZE else 0
  }

  ghost predicate AlreadyMapped(s: Space, dir: nat, virt: nat, count: nat)
    requires dir in s.dirs && PageAddr(virt, count) <= ADDRESSES
  {
    exists i: nat :: i < count && PhysOf(s, dir, PageAddr(virt, i)) != 0
  }

  ghost predicate KernelEntry(s: Space, dir: nat, q: FrameNo)
    requires dir in s.dirs
  {
    EntryAt(s, dir, q).frame != 0 && EntryAt(s, dir, q).fkernel
  }

  ghost predicate HitsKernel(s: Space, dir: nat, v: FrameNo, count: nat)
    requires dir in s.dirs && v + count <= FRAME_COUNT
  {
    exists q: FrameNo :: v <= q < v + count && KernelEntry(s, dir, q)
  }

  // The n pages from v stand on the n frames from f; nothing else changes, but for what others
  // see of the kernel's own tables.
  ghost predicate CreatedPages(s: Space, s': Space, dir: nat, v: FrameNo, f: FrameNo, n: nat) {
    && dir in s.dirs && s.dirs.Keys == s'.dirs.Keys && s.kernel == s'.kernel && v + n <= FRAME_COUNT
      && f + n <= FRAME_COUNT
    && (forall q: FrameNo :: PageOf(s', dir, q) ==
          if v <= q < v + n then MappedPage(PageOf(s, dir, q), f + (q - v), 0) else PageOf(s, dir, q))
    && (forall c, q: FrameNo :: c in s.dirs && c != dir ==>
          PageOf(s', c, q) == PageOf(s, c, q)
          || (dir == s.kernel && v <= q < v + n && PageOf(s', c, q) == PageOf(s', dir, q)))
  }

  ghost predicate SameKernelEntries(s: Space, s': Space, dir: nat) {
    dir in s.dirs && dir in s'.dirs && forall q: FrameNo :: KernelEntry(s', dir, q) <==> KernelEntry(s, dir, q)
  }

  // Cleared frames in use, no table among them.
  ghost predicate ClearedData(s: Space, bs: seq<Block>, f: FrameNo, n: nat) {
    f + n <= FRAME_COUNT && forall g: FrameNo :: f <= g < f + n ==>
                              Held(bs, g) && !Linked(s, g) && s.mem[g] == ZeroData()
  }

  lemma ClearedStays(s: Space, s': Space, bs: seq<Block>, bs': seq<Block>, f: FrameNo, n: nat, dir: nat, v: FrameNo,
                     mode: int)
    requires ClearedData(s, bs, f, n) && DataKept(s, s', bs) && dir in s.dirs && MaybeGave(s, s', bs, bs', dir, v, mode)
    ensures ClearedData(s', bs', f, n)
  {
  }

  lemma CreateStep(s0: Space, s: Space, s': Space, bs: seq<Block>, bs': seq<Block>, dir: nat, v: FrameNo, f: FrameNo,
                   n: nat)
    requires CreatedPages(s0, s, dir, v, f, n) && v + n < FRAME_COUNT && f + n < FRAME_COUNT
    requires Ok(s, bs) && Ok(s', bs') && MapDone(s, s', bs, bs', dir, v + n, f + n, 0, 0)
    ensures CreatedPages(s0, s', dir, v, f, n + 1)
  {
    hide Ok, PageOf, DataKept, MaybeGave, MapResult, MappedPage, PageMapped;
    StillPrivate(s, s', bs, bs', dir, v + n, f + n);
    OwnPageMapped(s, s', dir, v + n, MappedPage(PageOf(s, dir, v + n), f + n, 0));
    forall c, q: FrameNo | c in s.dirs && c != dir
      ensures PageOf(s', c, q) == PageOf(s0, c, q)
              || (dir == s.kernel && v <= q < v + n + 1 && PageOf(s', c, q) == PageOf(s', dir, q))
    {
      OtherPageMapped(s, s', bs', dir, v + n, MappedPage(PageOf(s, dir, v + n), f + n, 0), c, q);
    }
  }

  // What mapping page v means to its own directory ...
  lemma OwnPageMapped(s: Space, s': Space, dir: nat, v: FrameNo, p: Page)
    requires PageMapped(s, s', dir, v, p) && EntryAt(s', dir, v).frame != 0
    ensures forall q: FrameNo :: PageOf(s', dir, q) == if q == v then p else PageOf(s, dir, q)
    ensures s'.dirs.Keys == s.dirs.Keys && s'.kernel == s.kernel
  {
  }

  // ... and to another one.
  lemma OtherPageMapped(s: Space, s': Space, bs': seq<Block>, dir: nat, v: FrameNo, p: Page, c: nat, q: FrameNo)
    requires PageMapped(s, s', dir, v, p) && Ok(s', bs') && EntryAt(s', dir, v).frame != 0
             && !EntryAt(s', dir, v).fkernel
    requires c in s.dirs && c != dir
    ensures PageOf(s', c, q) == if dir == s.kernel && q == v && Shares(s', dir, c, v) then p else PageOf(s, c, q)
  {
    hide PageOf, Ok;
    if q == v && Shares(s', dir, c, v) && dir != s.kernel { PrivateAlone(s', bs', dir, c, v); }
  }

  lemma StillPrivate(s: Space, s': Space, bs: seq<Block>, bs': seq<Block>, dir: nat, v: FrameNo, f: FrameNo)
    requires MapDone(s, s', bs, bs', dir, v, f, 0, 0)
    ensures dir in s'.dirs && EntryAt(s', dir, v).frame != 0 && !EntryAt(s', dir, v).fkernel
  {
  }

  lemma SameEntries(s0: Space, s: Space, s': Space, bs: seq<Block>, bs': seq<Block>, dir: nat, v: FrameNo, f: FrameNo)
    requires SameKernelEntries(s0, s, dir) && MapDone(s, s', bs, bs', dir, v, f, 0, 0)
    ensures SameKernelEntries(s0, s', dir)
  {
  }

  // The outcome of scuba_create_virtual; n pages were mapped, on the frames from f.
  ghost predicate CreateDone(s: Space, s': Space, bs: seq<Block>, dir: nat, virt: nat, count: nat, addr: nat,
                             f: FrameNo, n: nat) {
    && dir in s.dirs && virt < ADDRESSES && PageAddr(virt, count) <= ADDRESSES && n <= count
    && (addr == 0 <==> count == 0 || AlreadyMapped(s, dir, virt, count) || HitsKernel(s, dir, VirtPage(virt), count))
    && (addr != 0 ==> n == count && addr == f * FRAME_SIZE)
    && CreatedPages(s, s', dir, VirtPage(virt), f, n)
    && (AlreadyMapped(s, dir, virt, count) ==> s' == s)
    && (addr == 0 && !AlreadyMapped(s, dir, virt, count) && count > 0 ==>
        n < count && KernelEntry(s, dir, VirtPage(virt) + n))
    && (forall g: FrameNo :: f <= g < f + n ==> !Held(bs, g) && !Linked(s', g) && s'.mem[g] == ZeroData())
    && SameKernelEntries(s, s', dir)
  }

  function ClearFrames(mem: Memory, f: FrameNo, n: nat): Memory
    requires f + n <= FRAME_COUNT
  {
    mem[..f] + seq(n, _ => ZeroData()) + mem[f + n..]
  }

  lemma PageStep(virt: nat, i: nat, count: nat)
    requires virt < ADDRESSES && PageAddr(virt, count) <= ADDRESSES
    ensures VirtPage(virt) + count <= FRAME_COUNT
    ensures i < count ==>
            PageAddr(virt, i) + FRAME_SIZE <= PageAddr(virt, count) && PageAddr(virt, i) < ADDRESSES
              && VirtPage(PageAddr(virt, i)) == VirtPage(virt) + i
  {
  }

  lemma ClearedThere(s: Space, bs: seq<Block>, bs': seq<Block>, b: Block, f: FrameNo, n: nat)
    requires Grew(bs, bs', b) && Unused(bs, b) && f + n <= FRAME_COUNT
    requires forall g: FrameNo :: f <= g < f + n ==>
               Holds(b, g) && Touches(b, g) && !Linked(s.(mem := ClearFrames(s.mem, f, n)), g)
    ensures ClearedData(s.(mem := ClearFrames(s.mem, f, n)), bs', f, n)
    ensures forall g: FrameNo :: f <= g < f + n ==> !Held(bs, g)
  {
  }

  // After i of the pages have been mapped.
  ghost predicate Creating(s0: Space, s: Space, bs: seq<Block>, dir: nat, v: FrameNo, f: FrameNo, i: nat, count: nat) {
    && CreatedPages(s0, s, dir, v, f, i) && SameKernelEntries(s0, s, dir) && ClearedData(s, bs, f, count) && i <= count
    && forall q: FrameNo :: v <= q < v + i ==> !KernelEntry(s0, dir, q)
  }

  lemma CreatingNext(s0: Space, s: Space, s': Space, bs: seq<Block>, bs': seq<Block>, dir: nat, v: FrameNo, f: FrameNo,
                     i: nat, count: nat)
    requires Creating(s0, s, bs, dir, v, f, i, count) && i < count && v + count <= FRAME_COUNT
    requires Ok(s, bs) && Ok(s', bs') && MapDone(s, s', bs, bs', dir, v + i, f + i, 0, 0)
    ensures Creating(s0, s', bs', dir, v, f, i + 1, count)
  {
    hide Ok, PageOf, DataKept, MaybeGave, PageMapped, EntryAt, Linked, Held, CreatedPages, SameKernelEntries,
         ClearedData;
    CreateStep(s0, s, s', bs, bs', dir, v, f, i);
    SameEntries(s0, s, s', bs, bs', dir, v + i, f + i);
    ClearedStays(s, s', bs, bs', f, count, dir, v + i, 0);
    NotKernel(s0, s, dir, v + i);
  }

  lemma NotKernel(s0: Space, s: Space, dir: nat, q: FrameNo)
    requires SameKernelEntries(s0, s, dir)
    ensures KernelEntry(s0, dir, q) <==> KernelEntry(s, dir, q)
  {
  }

  lemma CreatesNothing(s: Space, bs: seq<Block>, dir: nat, virt: nat, count: nat)
    requires dir in s.dirs && virt < ADDRESSES && PageAddr(virt, count) <= ADDRESSES
    ensures AlreadyMapped(s, dir, virt, count) || count == 0 ==> CreateDone(s, s, bs, dir, virt, count, 0, 0, 0)
  {
  }

  lemma CreatingFirst(s: Space, mem': Memory, bs: seq<Block>, dir: nat, v: FrameNo, f: FrameNo, count: nat)
    requires dir in s.dirs && SamePages(s, s.(mem := mem')) && ClearedData(s.(mem := mem'), bs, f, count)
    ensures Creating(s, s.(mem := mem'), bs, dir, v, f, 0, count)
  {
  }

  lemma CreatingBounds(s0: Space, s: Space, bs: seq<Block>, dir: nat, v: FrameNo, f: FrameNo, i: nat, count: nat)
    requires Creating(s0, s, bs, dir, v, f, i, count) && i < count
    ensures f + i < f + count <= FRAME_COUNT
  {
  }

  // Whether the next page is refused can be told from the start.
  lemma CreatingResult(s0: Space, s: Space, bs: seq<Block>, dir: nat, v: FrameNo, f: FrameNo, i: nat, count: nat)
    requires Creating(s0, s, bs, dir, v, f, i, count) && i < count && v + count <= FRAME_COUNT && s.kernel in s.dirs
    ensures dir in s.dirs && dir in s0.dirs && (MapResult(s, dir, v + i, 0) != 0 <==> KernelEntry(s0, dir, v + i))
    ensures MapResult(s, dir, v + i, 0) in {0, 1}
  {
  }

  lemma KeysKept(s: Space, s': Space, bs: seq<Block>, bs': seq<Block>, dir: nat, v: FrameNo, f: FrameNo)
    requires MapDone(s, s', bs, bs', dir, v, f, 0, 0)
    ensures dir in s'.dirs
  {
  }

  lemma FrameStep(f: FrameNo, phys: nat, i: nat)
    requires phys == f * FRAME_SIZE && f + i < FRAME_COUNT
    ensures PageAddr(phys, i) < ADDRESSES && VirtPage(PageAddr(phys, i)) == f + i
  {
  }

  lemma CreatingStep(s0: Space, s: Space, s': Space, bs: seq<Block>, bs': seq<Block>, dir: nat, v: FrameNo, f: FrameNo,
                     i: nat, count: nat, ret: int,
                     p: FrameNo, q: FrameNo)
    requires Creating(s0, s, bs, dir, v, f, i, count) && i < count && v + count <= FRAME_COUNT && f + i < FRAME_COUNT
    requires p == v + i && q == f + i
    requires Ok(s, bs) && Ok(s', bs') && MapDone(s, s', bs, bs', dir, p, q, 0, ret)
    ensures dir in s0.dirs && (ret == 0 <==> !KernelEntry(s0, dir, v + i))
    ensures ret == 0 ==> Creating(s0, s', bs', dir, v, f, i + 1, count) && dir in s'.dirs
    ensures ret != 0 ==> s' == s && bs' == bs && dir in s0.dirs && KernelEntry(s0, dir, v + i)
  {
    hide Ok, Creating, PageMapped, DataKept, MaybeGave, KernelEntry, MapResult;
    CreatingResult(s0, s, bs, dir, v, f, i, count);
    if ret == 0 {
      CreatingNext(s0, s, s', bs, bs', dir, v, f, i, count);
      KeysKept(s, s', bs, bs', dir, v + i, f + i);
    }
  }

  lemma CreateFails(s0: Space, s: Space, bs0: seq<Block>, bs: seq<Block>, dir: nat, virt: nat, f: FrameNo, i: nat,
                    count: nat)
    requires dir in s0.dirs && virt < ADDRESSES && PageAddr(virt, count) <= ADDRESSES
             && !AlreadyMapped(s0, dir, virt, count)
    requires Creating(s0, s, bs, dir, VirtPage(virt), f, i, count) && i < count && VirtPage(virt) + count <= FRAME_COUNT
    requires KernelEntry(s0, dir, VirtPage(virt) + i)
    requires forall g: FrameNo :: f <= g < f + count ==> !Held(bs0, g)
    ensures CreateDone(s0, s, bs0, dir, virt, count, 0, f, i)
  {
  }

  lemma CreateEnds(s0: Space, s: Space, bs0: seq<Block>, bs: seq<Block>, dir: nat, virt: nat, f: FrameNo, count: nat)
    requires dir in s0.dirs && virt < ADDRESSES && PageAddr(virt, count) <= ADDRESSES
             && !AlreadyMapped(s0, dir, virt, count)
    requires Creating(s0, s, bs, dir, VirtPage(virt), f, count, count) && f > 0 && count > 0
    requires forall g: FrameNo :: f <= g < f + count ==> !Held(bs0, g)
    ensures CreateDone(s0, s, bs0, dir, virt, count, f * FRAME_SIZE, f, count)
  {
  }
}
