/** Paging (scubasuit.c): page directories and tables kept in physical frames, and the flat map
    from virtual pages that they stand for. */
module ScubaState {
  import opened SnowState

  const FRAME_SIZE := 0x1000
  const FRAME_COUNT := 0x10_0000   // frame numbers are 20 bits wide
  const SLOTS := 1024              // entries of a directory, pages of a table
  const DIR_BYTES := 4100          // sizeof(scuba_dir_t)
  const ADDRESSES := 0x1_0000_0000

  type FrameNo = x: int | 0 <= x < FRAME_COUNT

  datatype Page = Page(present: bool, rw: bool, user: bool, accessed: bool, dirty: bool, deepcopy: bool, allocate: bool,
                       frame: FrameNo)
  datatype Entry = Entry(present: bool, rw: bool, user: bool, accessed: bool, dirty: bool, fkernel: bool,
                         frame: FrameNo)

  const ZERO_PAGE := Page(false, false, false, false, false, false, false, 0)
  const NEW_ENTRY := Entry(false, true, true, false, false, false, 0)

  type Pages = s: seq<Page> | |s| == SLOTS witness seq(SLOTS, _ => ZERO_PAGE)
  type Entries = s: seq<Entry> | |s| == SLOTS witness seq(SLOTS, _ => NEW_ENTRY)

  // One frame of memory, seen as a page table or as plain bytes.
  datatype Frame = Table(pages: Pages) | Data(bytes: seq<nat>)
  type Memory = s: seq<Frame> | |s| == FRAME_COUNT witness seq(FRAME_COUNT, _ => Data([]))

  datatype Dir = Dir(entries: Entries, pid: int)

  datatype Space = Space(mem: Memory, dirs: map<nat, Dir>, kernel: nat)

  function ZeroTable(): Frame { Table(seq(SLOTS, _ => ZERO_PAGE)) }

  function ZeroData(): Frame { Data(seq(FRAME_SIZE, _ => 0)) }

  function EntryAt(s: Space, d: nat, v: FrameNo): Entry
    requires d in s.dirs
  {
    s.dirs[d].entries[v / SLOTS]
  }

  // The flat map: the page of directory d that virtual page v stands on.
  function PageOf(s: Space, d: nat, v: FrameNo): Page
    requires d in s.dirs
  {
    var f := EntryAt(s, d, v).frame;
    if f != 0 && s.mem[f].Table? then s.mem[f].pages[v % SLOTS] else ZERO_PAGE
  }

  // ---------------------------------------------------------------- physical blocks

  // The whole frame belongs to a block that is not the allocator's own table.
  ghost predicate Holds(b: Block, f: nat) {
    b.state != SNOW_MM && b.addr <= f * FRAME_SIZE && (f + 1) * FRAME_SIZE <= b.addr + b.size
  }

  ghost predicate Held(bs: seq<Block>, f: nat) { exists b :: b in bs && Holds(b, f) }

  ghost predicate Touches(b: Block, f: nat) { b.addr < (f + 1) * FRAME_SIZE && f * FRAME_SIZE < b.addr + b.size }

  // bs' is bs plus b, up to the allocator's own table.
  ghost predicate Grew(bs: seq<Block>, bs': seq<Block>, b: Block) {
    b.state != SNOW_MM && forall x: Block :: x.state != SNOW_MM ==> (x in bs' <==> x in bs || x == b)
  }

  ghost predicate Unused(bs: seq<Block>, b: Block) {
    forall f: nat :: Touches(b, f) ==> !Held(bs, f)
  }

  function FrameBlock(d: nat, pid: int, f: nat): Block { Block(f * FRAME_SIZE, FRAME_SIZE, SNOW_SCUBA, d, pid) }

  function DirBlock(d: nat, pid: int): Block { Block(d, DIR_BYTES, SNOW_SCUBA, 0, pid) }

  // --------------------------------------------------------------------- invariant

  function OwnerOf(s: Space, d: nat, e: Entry): nat { if e.fkernel then s.kernel else d }

  // The processor walks through an entry exactly when it has a table, whoever asks and for writing too.
  predicate Walkable(e: Entry) { e.rw && e.user && (e.present <==> e.frame != 0) }

  // A page that is there may be written by every process.
  predicate Usable(p: Page) { p.present ==> p.rw && p.user }

  // A table sits in a block of its owner; a kernel entry is the kernel's own entry.
  ghost predicate EntryOk(s: Space, bs: seq<Block>, d: nat, i: nat)
    requires d in s.dirs && s.kernel in s.dirs && i < SLOTS
  {
    var e := s.dirs[d].entries[i];
    var o := OwnerOf(s, d, e);
    && Walkable(e)
    && (e.frame != 0 ==>
      && s.mem[e.frame].Table?
      && FrameBlock(o, s.dirs[o].pid, e.frame) in bs
      && (e.fkernel ==> s.dirs[s.kernel].entries[i].frame == e.frame))
  }

  ghost predicate EntriesOk(s: Space, bs: seq<Block>)
    requires s.kernel in s.dirs
  {
    forall d, i :: d in s.dirs && 0 <= i < SLOTS ==> EntryOk(s, bs, d, i)
  }

  ghost predicate PagesOk(s: Space) { forall d, v: FrameNo :: d in s.dirs ==> Usable(PageOf(s, d, v)) }

  ghost predicate Injective(dir: Dir) {
    forall i, j :: 0 <= i < j < SLOTS && dir.entries[i].frame != 0 ==> dir.entries[i].frame != dir.entries[j].frame
  }

  ghost predicate DirsOk(s: Space, bs: seq<Block>) {
    forall d :: d in s.dirs ==> d != 0 && DirBlock(d, s.dirs[d].pid) in bs && Injective(s.dirs[d])
  }

  // Frames given to a directory belong to a directory that still exists.
  ghost predicate TagsOk(s: Space, bs: seq<Block>) {
    forall b :: b in bs && b.state != SNOW_MM && b.dir != 0 ==> b.dir in s.dirs
  }

  ghost predicate Distinct(bs: seq<Block>) {
    forall a, b :: a in bs && b in bs && a.addr == b.addr ==> a == b
  }

  ghost predicate Ok(s: Space, bs: seq<Block>) {
    s.kernel in s.dirs && EntriesOk(s, bs) && PagesOk(s) && DirsOk(s, bs) && TagsOk(s, bs) && Distinct(bs)
  }

  // Frame f is a page table of some directory.
  ghost predicate Linked(s: Space, f: nat) {
    exists d, i :: d in s.dirs && 0 <= i < SLOTS && s.dirs[d].entries[i].frame == f && f != 0
  }

  ghost predicate SamePages(s: Space, s': Space) {
    s.dirs.Keys <= s'.dirs.Keys && forall d, v: FrameNo :: d in s.dirs ==> PageOf(s', d, v) == PageOf(s, d, v)
  }
}
