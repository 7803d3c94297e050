/** The elementary changes of the paging structures, and what each does to the flat maps. */
module ScubaSteps {
  import opened SnowState
  import opened ScubaState
  import opened Snowflake

  // Two entries on one table: same index, same owner.
  lemma SameTable(s: Space, bs: seq<Block>, d: nat, i: nat, e: nat, j: nat)
    requires Ok(s, bs) && d in s.dirs && e in s.dirs && i < SLOTS && j < SLOTS
    requires s.dirs[d].entries[i].frame == s.dirs[e].entries[j].frame != 0
    ensures i == j && OwnerOf(s, d, s.dirs[d].entries[i]) == OwnerOf(s, e, s.dirs[e].entries[j])
  {
    var o, p := OwnerOf(s, d, s.dirs[d].entries[i]), OwnerOf(s, e, s.dirs[e].entries[j]);
    assert EntryOk(s, bs, d, i) && EntryOk(s, bs, e, j);
  }

  lemma LinkedHeld(s: Space, bs: seq<Block>, d: nat, i: nat)
    requires Ok(s, bs) && d in s.dirs && i < SLOTS && s.dirs[d].entries[i].frame != 0
    ensures Held(bs, s.dirs[d].entries[i].frame) && s.mem[s.dirs[d].entries[i].frame].Table?
  {
    assert EntryOk(s, bs, d, i);
    var o := OwnerOf(s, d, s.dirs[d].entries[i]);
  }

  // Memory outside the tables changes, blocks are added: the maps stay as they are.
  lemma MemoryChanges(s: Space, bs: seq<Block>, bs': seq<Block>, mem': Memory)
    requires Ok(s, bs) && Distinct(bs')
    requires forall b :: b in bs && b.state == SNOW_SCUBA ==> b in bs'
    requires forall b :: b in bs' && b.state != SNOW_MM && b.dir != 0 ==> b.dir in s.dirs
    requires forall f: FrameNo :: Linked(s, f) ==> mem'[f] == s.mem[f]
    ensures Ok(s.(mem := mem'), bs') && SamePages(s, s.(mem := mem'))
  {
    hide PagesOk;
    var s' := s.(mem := mem');
    forall d, i | d in s.dirs && 0 <= i < SLOTS
      ensures EntryOk(s', bs', d, i) && (s.dirs[d].entries[i].frame != 0 ==> Linked(s, s.dirs[d].entries[i].frame)) {
      assert EntryOk(s, bs, d, i);
    }
    PagesStay(s, s');
  }

  lemma PagesStay(s: Space, s': Space)
    requires PagesOk(s) && SamePages(s, s') && s'.dirs.Keys == s.dirs.Keys
    ensures PagesOk(s')
  {
    hide Usable, PageOf;
    forall d, v: FrameNo | d in s'.dirs ensures Usable(PageOf(s', d, v)) { assert Usable(PageOf(s, d, v)); }
  }

  function SetPage(s: Space, f: FrameNo, i: nat, p: Page): Space
    requires i < SLOTS && s.mem[f].Table?
  {
    s.(mem := s.mem[f := Table(s.mem[f].pages[i := p])])
  }

  function SetEntry(s: Space, d: nat, i: nat, e: Entry): Space
    requires d in s.dirs && i < SLOTS
  {
    s.(dirs := s.dirs[d := s.dirs[d].(entries := s.dirs[d].entries[i := e])])
  }

  // Both directories reach page v through one table.
  ghost predicate Shares(s: Space, d: nat, e: nat, v: FrameNo)
    requires d in s.dirs && e in s.dirs
  {
    EntryAt(s, e, v).frame == EntryAt(s, d, v).frame != 0
  }

  // Page v is written through directory d: whoever shares that table sees it, nothing else moves.
  ghost predicate Written(s: Space, s': Space, d: nat, v: FrameNo, p: Page) {
    s.dirs == s'.dirs && d in s.dirs &&
    forall e, q: FrameNo :: e in s.dirs ==>
      PageOf(s', e, q) == if q == v && Shares(s, d, e, v) then p else PageOf(s, e, q)
  }

  lemma TableWritten(s: Space, bs: seq<Block>, f: FrameNo, i: nat, p: Page)
    requires Ok(s, bs) && i < SLOTS && s.mem[f].Table? && (Linked(s, f) ==> Usable(p))
    ensures Ok(SetPage(s, f, i, p), bs)
  {
    hide Injective, Distinct, Usable;
    var s' := SetPage(s, f, i, p);
    forall d, v: FrameNo | d in s.dirs ensures Usable(PageOf(s', d, v)) { assert Usable(PageOf(s, d, v)); }
    forall e, j | e in s.dirs && 0 <= j < SLOTS ensures EntryOk(s', bs, e, j) {
      assert EntryOk(s, bs, e, j);
    }
  }

  lemma PageWritten(s: Space, bs: seq<Block>, d: nat, v: FrameNo, p: Page)
    requires Ok(s, bs) && d in s.dirs && EntryAt(s, d, v).frame != 0 && Usable(p)
    ensures s.mem[EntryAt(s, d, v).frame].Table?
    ensures Ok(SetPage(s, EntryAt(s, d, v).frame, v % SLOTS, p), bs)
    ensures Written(s, SetPage(s, EntryAt(s, d, v).frame, v % SLOTS, p), d, v, p)
  {
    hide Ok;
    var f := EntryAt(s, d, v).frame;
    LinkedHeld(s, bs, d, v / SLOTS);
    TableWritten(s, bs, f, v % SLOTS, p);
    var s' := SetPage(s, f, v % SLOTS, p);
    forall e, q: FrameNo | e in s.dirs
      ensures PageOf(s', e, q) == if q == v && Shares(s, d, e, v) then p else PageOf(s, e, q)
    {
      if EntryAt(s, e, q).frame == f {
        SameTable(s, bs, d, v / SLOTS, e, q / SLOTS);
      }
    }
  }

  // A private table is reached by its directory alone.
  lemma PrivateAlone(s: Space, bs: seq<Block>, d: nat, e: nat, v: FrameNo)
    requires Ok(s, bs) && d in s.dirs && e in s.dirs && d != s.kernel && Shares(s, d, e, v) && !EntryAt(s, d, v).fkernel
    ensures e == d
  {
    hide Ok;
    SameTable(s, bs, d, v / SLOTS, e, v / SLOTS);
  }

  lemma OkKernel(s: Space, bs: seq<Block>)
    requires Ok(s, bs)
    ensures s.kernel in s.dirs
  {
  }

  // An empty table is linked in: it reads like no table at all.
  ghost predicate FreshTable(s: Space, bs: seq<Block>, d: nat, i: nat, e: Entry) {
    && d in s.dirs && i < SLOTS && s.dirs[d].entries[i].frame == 0
    && e.frame != 0 && !Linked(s, e.frame) && s.mem[e.frame].Table? && (e.fkernel ==> d == s.kernel)
    && FrameBlock(d, s.dirs[d].pid, e.frame) in bs
    && Walkable(e) && forall k :: 0 <= k < SLOTS ==> Usable(s.mem[e.frame].pages[k])
  }

  lemma LinkedEntries(s: Space, bs: seq<Block>, d: nat, i: nat, e: Entry)
    requires Ok(s, bs) && FreshTable(s, bs, d, i, e)
    ensures EntriesOk(SetEntry(s, d, i, e), bs)
  {
    hide Linked, Injective, Distinct, TagsOk, DirsOk;
    var s' := SetEntry(s, d, i, e);
    forall c, j | c in s.dirs && 0 <= j < SLOTS ensures EntryOk(s', bs, c, j) {
      assert EntryOk(s, bs, c, j);
    }
  }

  lemma LinkedInjective(s: Space, bs: seq<Block>, d: nat, i: nat, e: Entry)
    requires Ok(s, bs) && FreshTable(s, bs, d, i, e)
    ensures Injective(SetEntry(s, d, i, e).dirs[d])
  {
  }

  // Pages of d under the new table are those of the table, all others stay.
  ghost predicate TableAdded(s: Space, s': Space, d: nat, i: nat, f: FrameNo) {
    && s.dirs.Keys == s'.dirs.Keys && d in s.dirs && s.mem[f].Table?
    && forall c, q: FrameNo :: c in s.dirs ==>
         PageOf(s', c, q) == if c == d && q / SLOTS == i then s.mem[f].pages[q % SLOTS] else PageOf(s, c, q)
  }

  lemma TableLinked(s: Space, bs: seq<Block>, d: nat, i: nat, e: Entry)
    requires Ok(s, bs) && FreshTable(s, bs, d, i, e)
    ensures Ok(SetEntry(s, d, i, e), bs) && TableAdded(s, SetEntry(s, d, i, e), d, i, e.frame)
  {
    hide Injective, EntriesOk, Linked, Usable;
    LinkedEntries(s, bs, d, i, e);
    LinkedInjective(s, bs, d, i, e);
    PagesAdded(s, SetEntry(s, d, i, e), d, i, e.frame);
  }

  lemma PagesAdded(s: Space, s': Space, d: nat, i: nat, f: FrameNo)
    requires PagesOk(s) && TableAdded(s, s', d, i, f)
    requires forall k :: 0 <= k < SLOTS ==> Usable(s.mem[f].pages[k])
    ensures PagesOk(s')
  {
    hide Usable, PageOf;
    forall c, v: FrameNo | c in s'.dirs ensures Usable(PageOf(s', c, v)) { assert Usable(PageOf(s, c, v)); }
  }

  lemma LinkedSame(s: Space, s': Space, f: nat)
    requires s.dirs == s'.dirs
    ensures Linked(s, f) <==> Linked(s', f)
  {
  }

  // Setting an entry links its table at most.
  lemma LinkedAfter(s: Space, nd: nat, i: nat, e: Entry, f: FrameNo)
    requires nd in s.dirs && i < SLOTS
    ensures Linked(SetEntry(s, nd, i, e), f) ==> Linked(s, f) || f == e.frame
  {
  }

  // The kernel holds every table that others call its own.
  lemma KernelFirst(s: Space, bs: seq<Block>, d: nat, i: nat)
    requires Ok(s, bs) && d in s.dirs && i < SLOTS && s.dirs[d].entries[i].frame != 0 && s.dirs[d].entries[i].fkernel
    ensures s.dirs[s.kernel].entries[i].frame == s.dirs[d].entries[i].frame
  {
    assert EntryOk(s, bs, d, i);
  }

  // The kernel's table is linked in as it is.
  ghost predicate KernelTable(s: Space, d: nat, i: nat, e: Entry) {
    && d in s.dirs && s.kernel in s.dirs && i < SLOTS && s.dirs[d].entries[i].frame == 0
    && e.fkernel && e.frame != 0 && e.frame == s.dirs[s.kernel].entries[i].frame && Walkable(e)
  }

  lemma KernelLinked(s: Space, bs: seq<Block>, d: nat, i: nat, e: Entry)
    requires Ok(s, bs) && KernelTable(s, d, i, e)
    ensures Ok(SetEntry(s, d, i, e), bs) && TableAdded(s, SetEntry(s, d, i, e), d, i, e.frame)
  {
    hide Injective, EntriesOk, Linked, Usable;
    KernelLinkedEntries(s, bs, d, i, e);
    KernelLinkedInjective(s, bs, d, i, e);
    LinkedHeld(s, bs, s.kernel, i);
    UsableTable(s, bs, s.kernel, i);
    PagesAdded(s, SetEntry(s, d, i, e), d, i, e.frame);
  }

  lemma UsableTable(s: Space, bs: seq<Block>, d: nat, i: nat)
    requires Ok(s, bs) && d in s.dirs && i < SLOTS && s.dirs[d].entries[i].frame != 0
    ensures s.mem[s.dirs[d].entries[i].frame].Table?
    ensures forall k :: 0 <= k < SLOTS ==> Usable(s.mem[s.dirs[d].entries[i].frame].pages[k])
  {
    hide Usable;
    LinkedHeld(s, bs, d, i);
    forall k | 0 <= k < SLOTS ensures Usable(s.mem[s.dirs[d].entries[i].frame].pages[k]) {
      assert Usable(PageOf(s, d, i * SLOTS + k));
    }
  }

  lemma KernelLinkedEntries(s: Space, bs: seq<Block>, d: nat, i: nat, e: Entry)
    requires Ok(s, bs) && KernelTable(s, d, i, e)
    ensures EntriesOk(SetEntry(s, d, i, e), bs)
  {
    hide Injective, Distinct, TagsOk, DirsOk;
    assert EntryOk(s, bs, s.kernel, i);
    var s' := SetEntry(s, d, i, e);
    forall c, j | c in s.dirs && 0 <= j < SLOTS ensures EntryOk(s', bs, c, j) {
      assert EntryOk(s, bs, c, j);
    }
  }

  lemma KernelLinkedInjective(s: Space, bs: seq<Block>, d: nat, i: nat, e: Entry)
    requires Ok(s, bs) && KernelTable(s, d, i, e)
    ensures Injective(SetEntry(s, d, i, e).dirs[d])
  {
    hide EntriesOk, Distinct, TagsOk;
    forall j | 0 <= j < SLOTS ensures s.dirs[d].entries[j].frame != e.frame {
      if s.dirs[d].entries[j].frame == e.frame {
        SameTable(s, bs, s.kernel, i, d, j);
      }
    }
  }

  function WithDir(s: Space, d: nat, dir: Dir): Space { s.(dirs := s.dirs[d := dir]) }

  ghost predicate Empty(s: Space, d: nat) {
    d in s.dirs && forall v: FrameNo :: PageOf(s, d, v) == ZERO_PAGE
  }

  // A new directory, with no table yet.
  lemma DirAdded(s: Space, bs: seq<Block>, d: nat, dir: Dir)
    requires Ok(s, bs) && d !in s.dirs && d != 0 && DirBlock(d, dir.pid) in bs
    requires forall i :: 0 <= i < SLOTS ==> dir.entries[i].frame == 0 && Walkable(dir.entries[i])
    ensures Ok(WithDir(s, d, dir), bs) && SamePages(s, WithDir(s, d, dir)) && Empty(WithDir(s, d, dir), d)
  {
    var s' := WithDir(s, d, dir);
    forall c, j | c in s'.dirs && 0 <= j < SLOTS ensures EntryOk(s', bs, c, j) {
      if c in s.dirs { assert EntryOk(s, bs, c, j); OwnerStays(s, bs, c, j); }
    }
    forall c, v: FrameNo | c in s'.dirs ensures Usable(PageOf(s', c, v)) {
      if c in s.dirs { assert Usable(PageOf(s, c, v)); }
    }
  }

  lemma OwnerStays(s: Space, bs: seq<Block>, d: nat, i: nat)
    requires s.kernel in s.dirs && d in s.dirs && i < SLOTS
    ensures OwnerOf(s, d, s.dirs[d].entries[i]) in s.dirs
  {
  }

  // ----------------------------------------------------------------- the allocator

  lemma OrderedDistinct(bs: seq<Block>, phys: nat)
    requires Ordered(bs, phys)
    ensures Distinct(bs)
  {
  }

  // The allocator's table may move meanwhile; no other block does.
  lemma OthersInMid(bs: seq<Block>, mid: seq<Block>, from: nat, oldSlots: nat, to: nat, slots: nat, phys: nat, x: Block)
    requires Ordered(bs, phys) && TableBlock(from, oldSlots) in bs && x.state != SNOW_MM
    requires mid == bs || Relocated(bs, mid, from, to, slots, phys)
    ensures x in mid <==> x in bs
  {
  }

  ghost predicate InBoth(bs: seq<Block>, mid: seq<Block>, x: Block) { x in mid <==> x in bs }

  lemma AllocGrew(bs: seq<Block>, mid: seq<Block>, bs': seq<Block>, from: nat, oldSlots: nat, to: nat, slots: nat,
                  addr: nat, b: Block, align: nat, phys: nat)
    requires Ordered(bs, phys) && TableBlock(from, oldSlots) in bs && b.state != SNOW_MM
    requires mid == bs || Relocated(bs, mid, from, to, slots, phys)
    requires addr != 0 && b.addr == addr && b.size > 0 && Allocated(mid, bs', addr, b, align, phys)
    ensures Grew(bs, bs', b) && Unused(bs, b)
    ensures addr > MEM_BASE_ADDR && Aligned(addr, align) && addr + b.size <= phys
    ensures forall x :: x in bs && x.state != SNOW_MM ==> x.addr != addr
  {
    hide Relocated, Ordered;
    forall x: Block | x.state != SNOW_MM ensures InBoth(bs, mid, x) {
      OthersInMid(bs, mid, from, oldSlots, to, slots, phys, x);
    }
    forall x | x in bs && x.state != SNOW_MM ensures x.addr != addr {
      OrderedSizes(bs, x, phys);
    }
  }

  lemma OrderedSizes(bs: seq<Block>, x: Block, phys: nat)
    requires Ordered(bs, phys) && x in bs
    ensures x.size > 0
  {
  }

  lemma Apart(bs: seq<Block>, x: Block, a: nat, size: nat, align: nat, phys: nat)
    requires Fits(bs, a, size, align, phys) && x in bs
    ensures a + size <= x.addr || x.addr + x.size <= a
  {
  }

  // Memory a new block covers is written: no table is there.
  lemma FreshMemory(s: Space, bs: seq<Block>, bs': seq<Block>, b: Block, mem': Memory)
    requires Ok(s, bs) && Distinct(bs') && Grew(bs, bs', b) && Unused(bs, b) && (b.dir == 0 || b.dir in s.dirs)
    requires forall f: FrameNo :: !Touches(b, f) ==> mem'[f] == s.mem[f]
    ensures Ok(s.(mem := mem'), bs') && SamePages(s, s.(mem := mem'))
    ensures forall f: nat :: Touches(b, f) ==> !Linked(s.(mem := mem'), f)
  {
    hide EntriesOk, DirsOk, Holds, Touches, PageOf, Distinct;
    forall f: nat | Touches(b, f) ensures !Linked(s, f) {
      if Linked(s, f) {
        var d, i :| d in s.dirs && 0 <= i < SLOTS && s.dirs[d].entries[i].frame == f && f != 0;
        LinkedHeld(s, bs, d, i);
      }
    }
    MemoryChanges(s, bs, bs', mem');
  }
}
