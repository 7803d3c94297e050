/** The walk the processor makes through directory and table, with all bits it looks at, and that it is
    the flat map. */
module ScubaWalk {
  import opened SnowState
  import opened ScubaState
  import opened ScubaSteps
  import opened ScubaMap
  import opened ScubaFork

  // What is asked of a page: to write it, and from the ring of processes.
  datatype Access = Access(write: bool, user: bool)

  datatype Reached = At(addr: nat) | Fault | NoTable

  predicate Allows(present: bool, rw: bool, user: bool, a: Access) { present && (a.write ==> rw) && (a.user ==> user) }

  function Translate(s: Space, d: nat, virt: nat, a: Access): Reached
    requires d in s.dirs && virt < ADDRESSES
  {
    var e := s.dirs[d].entries[virt / (SLOTS * FRAME_SIZE)];
    if !Allows(e.present, e.rw, e.user, a) then Fault
    else match s.mem[e.frame]
      case Data(_) => NoTable
      case Table(pages) =>
        var p := pages[virt / FRAME_SIZE % SLOTS];
        if Allows(p.present, p.rw, p.user, a) then At(p.frame * FRAME_SIZE + virt % FRAME_SIZE) else Fault
  }

  // Every process may read and write exactly the pages that are mapped, at the address scuba_get_phys
  // gives; the processor never takes data for a table.
  lemma TranslateIsMap(s: Space, bs: seq<Block>, d: nat, virt: nat, a: Access)
    requires Ok(s, bs) && d in s.dirs && virt < ADDRESSES
    ensures Translate(s, d, virt, a)
            == if PageOf(s, d, VirtPage(virt)).present then At(PhysOf(s, d, virt)) else Fault
  {
    hide Ok;
    var v := VirtPage(virt);
    assert virt / (SLOTS * FRAME_SIZE) == v / SLOTS;
    WalkableAt(s, bs, d, v / SLOTS);
    UsableAt(s, bs, d, v);
    if EntryAt(s, d, v).frame != 0 { LinkedHeld(s, bs, d, v / SLOTS); }
  }

  lemma UsableAt(s: Space, bs: seq<Block>, d: nat, v: FrameNo)
    requires Ok(s, bs) && d in s.dirs
    ensures Usable(PageOf(s, d, v))
  {
  }

  // A page that was mapped is reached on its frame; in mode 1 it is reached where the kernel reaches it.
  lemma MapReached(s: Space, s': Space, bs: seq<Block>, bs': seq<Block>, dir: nat, virt: nat, f: FrameNo, mode: int,
                   a: Access)
    requires Ok(s, bs) && Ok(s', bs') && virt < ADDRESSES && 0 <= mode <= 3
    requires MapDone(s, s', bs, bs', dir, VirtPage(virt), f, mode, 0)
    ensures dir in s.dirs && dir in s'.dirs && s.kernel in s.dirs
    ensures mode != 1 ==> Translate(s', dir, virt, a) == At(f * FRAME_SIZE + virt % FRAME_SIZE)
    ensures mode == 1 && EntryAt(s, dir, VirtPage(virt)).frame == 0 ==>
              Translate(s', dir, virt, a) == Translate(s, s.kernel, virt, a) && Translate(s', dir, virt, a).At?
  {
    hide Ok, DataKept, PageOf;
    var v := VirtPage(virt);
    OkKernel(s, bs);
    TranslateIsMap(s', bs', dir, virt, a);
    if mode == 1 {
      TranslateIsMap(s, bs, s.kernel, virt, a);
    }
  }

  // The pages made by scuba_create_virtual are reached one after the other on its frames, and the next
  // fork clones them.
  lemma CreatedReached(s: Space, s': Space, bs: seq<Block>, bs': seq<Block>, dir: nat, virt: nat, count: nat,
                       addr: nat, f: FrameNo, n: nat, i: nat, a: Access)
    requires CreateDone(s, s', bs, dir, virt, count, addr, f, n) && addr != 0 && i < count && Ok(s', bs')
    requires virt % FRAME_SIZE == 0
    ensures dir in s'.dirs && PageAddr(virt, i) < ADDRESSES
    ensures Translate(s', dir, PageAddr(virt, i), a) == At(addr + i * FRAME_SIZE)
    ensures DeepAt(s', dir, VirtPage(virt) + i)
  {
    hide Ok, CreateDone, PageOf, VirtPage, PageAddr, MappedPage;
    CreatedBounds(s, s', bs, dir, virt, count, addr, f, n);
    PageStep(virt, i, count);
    PageStart(virt, i);
    CreatedPage(s, s', bs, dir, virt, count, addr, f, n, i);
    TranslateIsMap(s', bs', dir, PageAddr(virt, i), a);
    MappedBits(PageOf(s, dir, VirtPage(virt) + i), f + i, 0);
  }

  lemma CreatedBounds(s: Space, s': Space, bs: seq<Block>, dir: nat, virt: nat, count: nat, addr: nat, f: FrameNo,
                      n: nat)
    requires CreateDone(s, s', bs, dir, virt, count, addr, f, n) && addr != 0
    ensures dir in s.dirs && dir in s'.dirs && virt < ADDRESSES && PageAddr(virt, count) <= ADDRESSES
    ensures f + count <= FRAME_COUNT && addr == f * FRAME_SIZE
  {
  }

  lemma PageStart(virt: nat, i: nat)
    requires virt % FRAME_SIZE == 0
    ensures PageAddr(virt, i) % FRAME_SIZE == 0
  {
  }

  lemma CreatedPage(s: Space, s': Space, bs: seq<Block>, dir: nat, virt: nat, count: nat, addr: nat, f: FrameNo,
                    n: nat, i: nat)
    requires CreateDone(s, s', bs, dir, virt, count, addr, f, n) && addr != 0 && i < count && f + i < FRAME_COUNT
    requires virt < ADDRESSES && VirtPage(virt) + count <= FRAME_COUNT && dir in s.dirs && dir in s'.dirs
    ensures var q := VirtPage(virt) + i;
            PageOf(s', dir, q) == MappedPage(PageOf(s, dir, q), f + i, 0) && DeepAt(s', dir, q)
  {
    hide Linked, Held, PageAddr, AlreadyMapped, CreatedPages, HitsKernel, SameKernelEntries, KernelEntry, MappedPage,
      PageOf, VirtPage, Deep;
    var v := VirtPage(virt);
    CreatedAt(s, s', dir, v, f, n, v + i);
    NoKernelEntry(s, s', dir, v, count, v + i);
    MappedBits(PageOf(s, dir, v + i), f + i, 0);
    PresentDeep(s', dir, v + i);
  }

  lemma CreatedAt(s: Space, s': Space, dir: nat, v: FrameNo, f: FrameNo, n: nat, q: FrameNo)
    requires CreatedPages(s, s', dir, v, f, n) && v <= q < v + n && f + (q - v) < FRAME_COUNT
    ensures dir in s'.dirs && PageOf(s', dir, q) == MappedPage(PageOf(s, dir, q), f + (q - v), 0)
  {
  }

  lemma NoKernelEntry(s: Space, s': Space, dir: nat, v: FrameNo, count: nat, q: FrameNo)
    requires SameKernelEntries(s, s', dir) && v + count <= FRAME_COUNT && v <= q < v + count
             && !HitsKernel(s, dir, v, count)
    ensures dir in s'.dirs && !KernelEntry(s', dir, q)
  {
  }

  lemma PresentDeep(s: Space, d: nat, v: FrameNo)
    requires d in s.dirs && PageOf(s, d, v).present && PageOf(s, d, v).deepcopy && !KernelEntry(s, d, v)
    ensures DeepAt(s, d, v)
  {
  }

  lemma MappedBits(p: Page, f: FrameNo, mode: int)
    ensures var m := MappedPage(p, f, mode); m.present && m.rw && m.user && m.frame == f && (m.deepcopy <==> mode == 0)
  {
  }

  // A copy reaches the same pages as the original: cloned ones on frames of its own, all others at the
  // same address.
  lemma ForkReached(s0: Space, s: Space, bs0: seq<Block>, bs: seq<Block>, dir: nat, nd: nat, n: set<FrameNo>,
                    virt: nat, a: Access)
    requires Forking(s0, s, bs0, bs, dir, nd, SLOTS, n) && Ok(s0, bs0) && Ok(s, bs) && virt < ADDRESSES
    ensures dir in s0.dirs && nd in s.dirs && dir in s.dirs
    ensures Translate(s, dir, virt, a) == Translate(s0, dir, virt, a)
    ensures if DeepAt(s0, dir, VirtPage(virt)) then
              exists f :: f in n && Translate(s, nd, virt, a) == At(f * FRAME_SIZE + virt % FRAME_SIZE)
            else Translate(s, nd, virt, a) == Translate(s0, dir, virt, a)
  {
    hide Ok, PageOf, Held, Linked, ForkBlocks, EntryCopied;
    var v := VirtPage(virt);
    TranslateIsMap(s0, bs0, dir, virt, a);
    TranslateIsMap(s, bs, dir, virt, a);
    TranslateIsMap(s, bs, nd, virt, a);
    assert PageCopied(s0, s, bs0, dir, nd, v, n);
  }

  // A page mapped in mode 0 is cloned by the next fork, one mapped in mode 3 is shared with it.
  lemma MappedThenForked(s: Space, s0: Space, s': Space, bs: seq<Block>, bs0: seq<Block>, bs': seq<Block>, dir: nat,
                         nd: nat, n: set<FrameNo>, v: FrameNo, f: FrameNo, mode: int)
    requires MapDone(s, s0, bs, bs0, dir, v, f, mode, 0) && (mode == 0 || mode == 3) && Stable(bs0, f)
    requires Forking(s0, s', bs0, bs', dir, nd, SLOTS, n)
    ensures dir in s0.dirs && nd in s'.dirs && PageOf(s', dir, v).frame == f
    ensures DeepAt(s0, dir, v) <==> mode == 0
    ensures PageOf(s', nd, v).frame == f <==> mode == 3
  {
    hide Held, Linked, ForkBlocks, EntryCopied, DataKept, PageOf;
    StillMapped(s, s0, bs, bs0, dir, v, f, mode);
    assert PageCopied(s0, s', bs0, dir, nd, v, n);
  }

  lemma StillMapped(s: Space, s': Space, bs: seq<Block>, bs': seq<Block>, dir: nat, v: FrameNo, f: FrameNo, mode: int)
    requires MapDone(s, s', bs, bs', dir, v, f, mode, 0) && (mode == 0 || mode == 3)
    ensures dir in s'.dirs && EntryAt(s', dir, v).frame != 0 && !EntryAt(s', dir, v).fkernel
    ensures PageOf(s', dir, v) == MappedPage(PageOf(s, dir, v), f, mode)
  {
  }
}
