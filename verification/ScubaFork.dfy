/** Copying a directory (scuba_dir_copy): what is shared, what is cloned, and that the two sides
    are then independent. */
module ScubaFork {
  import opened Lists
  import opened SnowState
  import opened ScubaState
  import opened ScubaSteps
  import opened ScubaMap
  import opened Snowflake

  predicate Deep(p: Page) { p.present && p.deepcopy }

  // A page of one's own that a copy must clone.
  predicate DeepAt(s: Space, d: nat, v: FrameNo)
    requires d in s.dirs
  {
    EntryAt(s, d, v).frame != 0 && !EntryAt(s, d, v).fkernel && Deep(PageOf(s, d, v))
  }

  // The allocator cannot give this frame away.
  ghost predicate Stable(bs: seq<Block>, f: nat) { Held(bs, f) || f * FRAME_SIZE >= SCUBA_MAP_MAX }

  ghost predicate MemKept(m: Memory, m': Memory, bs: seq<Block>) {
    forall f: FrameNo :: Stable(bs, f) ==> m'[f] == m[f]
  }

  // Frames given out since bs, in use and no tables.
  ghost predicate NewData(s: Space, bs: seq<Block>, bs': seq<Block>, n: set<FrameNo>) {
    forall f :: f in n ==> !Stable(bs, f) && Held(bs', f) && !Linked(s, f)
  }

  ghost predicate MoreFor(bs: seq<Block>, bs': seq<Block>, nd: nat) {
    && (forall b :: b in bs && b.state != SNOW_MM ==> b in bs')
    && (forall b :: b in bs' && b.state != SNOW_MM ==> b in bs || b.dir == nd)
  }

  // p' is p, or p on a new frame with the same contents.
  ghost predicate PageCloned(m: Memory, m': Memory, bs: seq<Block>, p: Page, p': Page, n: set<FrameNo>) {
    if Deep(p) then
      p' == p.(frame := p'.frame) && p'.frame in n && (Stable(bs, p.frame) ==> m'[p'.frame] == m[p.frame])
    else p' == p
  }

  // -------------------------------------------------------------- cloning one table

  // Frame nf receives the clone of table tf, j pages so far.
  ghost predicate Cloning(s1: Space, s: Space, bs1: seq<Block>, bs: seq<Block>, nd: nat, tf: FrameNo, nf: FrameNo,
                          j: nat, n: set<FrameNo>) {
    && j <= SLOTS && s.dirs == s1.dirs && s.kernel == s1.kernel && SamePages(s1, s)
    && nf != 0 && !Linked(s, nf) && Held(bs, nf) && !Stable(bs1, nf) && nf !in n
    && nd in s1.dirs && FrameBlock(nd, s1.dirs[nd].pid, nf) in bs
    && s1.mem[tf].Table? && s.mem[nf].Table?
    && MemKept(s1.mem, s.mem, bs1) && NewData(s, bs1, bs, n) && MoreFor(bs1, bs, nd)
    && (forall k :: 0 <= k < j ==> PageCloned(s1.mem, s.mem, bs1, s1.mem[tf].pages[k], s.mem[nf].pages[k], n))
    && (forall k, l :: 0 <= k < l < j && Deep(s1.mem[tf].pages[k]) && Deep(s1.mem[tf].pages[l]) ==>
          s.mem[nf].pages[k].frame != s.mem[nf].pages[l].frame)
  }

  lemma UnlinkedWrite(s: Space, bs: seq<Block>, f: FrameNo, i: nat, p: Page)
    requires Ok(s, bs) && i < SLOTS && s.mem[f].Table? && !Linked(s, f)
    ensures Ok(SetPage(s, f, i, p), bs) && SamePages(s, SetPage(s, f, i, p)) && !Linked(SetPage(s, f, i, p), f)
  {
    hide Ok;
    TableWritten(s, bs, f, i, p);
    var s' := SetPage(s, f, i, p);
  }

  // Page j of the clone is written: the pages before it stay.
  lemma CloneTouch(s1: Space, s: Space, bs1: seq<Block>, bs: seq<Block>, nd: nat, tf: FrameNo, nf: FrameNo, j: nat,
                   n: set<FrameNo>, p: Page)
    requires Cloning(s1, s, bs1, bs, nd, tf, nf, j, n) && j < SLOTS && Ok(s, bs)
    ensures Ok(SetPage(s, nf, j, p), bs) && Cloning(s1, SetPage(s, nf, j, p), bs1, bs, nd, tf, nf, j, n)
  {
    hide Ok, PageOf, Held, Linked, SamePages, MoreFor;
    var s' := SetPage(s, nf, j, p);
    UnlinkedWrite(s, bs, nf, j, p);
    SamePagesTwice(s1, s, s');
    forall f: FrameNo | f in n ensures !Linked(s', f) { LinkedSame(s, s', f); }
  }

  lemma GaveStable(bs: seq<Block>, bs': seq<Block>, d: nat, pid: int, f: FrameNo)
    requires Gave(bs, bs', FrameBlock(d, pid, f)) && f * FRAME_SIZE < SCUBA_MAP_MAX
    ensures !Stable(bs, f) && Held(bs', f) && MoreFor(bs, bs', d)
    ensures forall g: nat :: Stable(bs, g) ==> Stable(bs', g)
  {
  }

  lemma MoreTwice(bs: seq<Block>, bs': seq<Block>, bs'': seq<Block>, nd: nat)
    requires MoreFor(bs, bs', nd) && MoreFor(bs', bs'', nd)
    ensures MoreFor(bs, bs'', nd)
  {
  }

  lemma MoreHeld(bs: seq<Block>, bs': seq<Block>, nd: nat, f: nat)
    requires MoreFor(bs, bs', nd)
    ensures Held(bs, f) ==> Held(bs', f)
    ensures Stable(bs, f) ==> Stable(bs', f)
  {
  }

  // The table of the clone has been allocated.
  lemma CloneStart(s1: Space, s: Space, bs1: seq<Block>, bs: seq<Block>, nd: nat, pid: int, tf: FrameNo, nf: FrameNo)
    requires s.dirs == s1.dirs && s.kernel == s1.kernel && SamePages(s1, s) && s1.mem[tf].Table?
    requires nf != 0 && !Linked(s, nf) && s.mem == s1.mem[nf := ZeroTable()]
    requires nd in s1.dirs && pid == s1.dirs[nd].pid && Gave(bs1, bs, FrameBlock(nd, pid, nf))
             && nf * FRAME_SIZE < SCUBA_MAP_MAX
    ensures Cloning(s1, s, bs1, bs, nd, tf, nf, 0, {})
  {
  }

  // One more frame, filled.
  lemma CloneAlloc(s1: Space, s: Space, t: Space, bs1: seq<Block>, bs: seq<Block>, bs': seq<Block>, nd: nat, pid: int,
                   tf: FrameNo, nf: FrameNo, j: nat, n: set<FrameNo>, data: FrameNo)
    requires Cloning(s1, s, bs1, bs, nd, tf, nf, j, n)
    requires t.dirs == s.dirs && t.kernel == s.kernel && SamePages(s, t) && !Linked(t, data)
    requires t.mem == s.mem[data := t.mem[data]]
    requires Gave(bs, bs', FrameBlock(nd, pid, data)) && data * FRAME_SIZE < SCUBA_MAP_MAX
    ensures Cloning(s1, t, bs1, bs', nd, tf, nf, j, n)
    ensures data !in n && data != nf && !Stable(bs1, data) && Held(bs', data)
  {
    hide PageOf, Held, Linked, SamePages, MoreFor, Gave;
    GaveStable(bs, bs', nd, pid, data);
    MoreTwice(bs1, bs, bs', nd);
    SamePagesTwice(s1, s, t);
    MoreHeld(bs, bs', nd, nf);
    MoreHeld(bs1, bs, nd, data);
    LinkedSame(s, t, nf);
    forall f | f in n ensures Held(bs', f) && !Linked(t, f) { MoreHeld(bs, bs', nd, f); LinkedSame(s, t, f); }
    forall f: FrameNo | Stable(bs1, f) ensures f != data { MoreHeld(bs1, bs, nd, f); }
  }

  // Page j is shared as it is ...
  lemma CloneShared(s1: Space, s: Space, bs1: seq<Block>, bs: seq<Block>, nd: nat, tf: FrameNo, nf: FrameNo, j: nat,
                    n: set<FrameNo>)
    requires Cloning(s1, s, bs1, bs, nd, tf, nf, j, n) && j < SLOTS
    requires s.mem[nf].pages[j] == s1.mem[tf].pages[j] && !Deep(s1.mem[tf].pages[j])
    ensures Cloning(s1, s, bs1, bs, nd, tf, nf, j + 1, n)
  {
  }

  // ... or stands on the new frame.
  lemma CloneDeep(s1: Space, s: Space, bs1: seq<Block>, bs: seq<Block>, nd: nat, tf: FrameNo, nf: FrameNo, j: nat,
                  n: set<FrameNo>, data: FrameNo)
    requires Cloning(s1, s, bs1, bs, nd, tf, nf, j, n) && j < SLOTS
    requires data !in n && data != nf && !Stable(bs1, data) && Held(bs, data) && !Linked(s, data)
    requires s.mem[nf].pages[j] == s1.mem[tf].pages[j].(frame := data) && Deep(s1.mem[tf].pages[j])
    requires Stable(bs1, s1.mem[tf].pages[j].frame) ==> s.mem[data] == s1.mem[s1.mem[tf].pages[j].frame]
    ensures Cloning(s1, s, bs1, bs, nd, tf, nf, j + 1, n + {data})
  {
    hide PageOf, Held, Linked, SamePages, MoreFor;
  }

  // The same entry, on another table.
  function Reframed(e: Entry, f: FrameNo): Entry { e.(frame := f, present := true) }

  // The pages of directory i of dir have been cloned for nd.
  ghost predicate TableCloned(s: Space, s': Space, bs: seq<Block>, bs': seq<Block>, dir: nat, nd: nat, i: nat,
                              n: set<FrameNo>) {
    && dir in s.dirs && nd in s.dirs && nd in s'.dirs && i < SLOTS && s'.kernel == s.kernel
    && s'.dirs == SetEntry(s, nd, i, s'.dirs[nd].entries[i]).dirs
    && (forall c, q: FrameNo :: c in s.dirs && !(c == nd && q / SLOTS == i) ==> PageOf(s', c, q) == PageOf(s, c, q))
    && MemKept(s.mem, s'.mem, bs) && NewData(s', bs, bs', n) && MoreFor(bs, bs', nd)
    && s'.dirs[nd].entries[i].frame != 0 && !Stable(bs, s'.dirs[nd].entries[i].frame)
    && s'.dirs[nd].entries[i] == Reframed(s.dirs[dir].entries[i], s'.dirs[nd].entries[i].frame)
    && (forall q: FrameNo :: q / SLOTS == i ==> PageCloned(s.mem, s'.mem, bs, PageOf(s, dir, q), PageOf(s', nd, q), n))
    && (forall q: FrameNo, r: FrameNo ::
          q / SLOTS == i && r / SLOTS == i && q != r && Deep(PageOf(s, dir, q)) && Deep(PageOf(s, dir, r)) ==>
          PageOf(s', nd, q).frame != PageOf(s', nd, r).frame)
  }

  lemma CloneLinked(s1: Space, s: Space, bs1: seq<Block>, bs: seq<Block>, dir: nat, nd: nat, i: nat, e: Entry,
                    n: set<FrameNo>)
    requires dir in s1.dirs && nd in s1.dirs && i < SLOTS && s1.dirs[dir].entries[i].frame != 0
    requires Cloning(s1, s, bs1, bs, nd, s1.dirs[dir].entries[i].frame, e.frame, SLOTS, n)
    requires TableAdded(s, SetEntry(s, nd, i, e), nd, i, e.frame) && e.frame != 0
    requires e == Reframed(s1.dirs[dir].entries[i], e.frame)
    ensures TableCloned(s1, SetEntry(s, nd, i, e), bs1, bs, dir, nd, i, n)
  {
  }

  lemma LinkedLater(s: Space, nd: nat, i: nat, e: Entry, f: FrameNo)
    requires nd in s.dirs && i < SLOTS && !Linked(s, f) && f != e.frame
    ensures !Linked(SetEntry(s, nd, i, e), f)
  {
  }

  // The source of the clone still holds what it held.
  lemma CloneSource(s1: Space, s: Space, bs1: seq<Block>, bs: seq<Block>, nd: nat, tf: FrameNo, nf: FrameNo, j: nat,
                    n: set<FrameNo>)
    requires Cloning(s1, s, bs1, bs, nd, tf, nf, j, n) && j < SLOTS && Stable(bs1, tf)
    ensures s.mem[tf] == s1.mem[tf] && s.mem[tf].Table? && s.mem[nf].Table? && tf != nf && s.dirs == s1.dirs
    ensures Stable(bs1, s1.mem[tf].pages[j].frame) ==>
            s.mem[s1.mem[tf].pages[j].frame] == s1.mem[s1.mem[tf].pages[j].frame]
  {
  }

  lemma TableStable(s: Space, bs: seq<Block>, d: nat, i: nat)
    requires Ok(s, bs) && d in s.dirs && i < SLOTS && s.dirs[d].entries[i].frame != 0
    ensures Stable(bs, s.dirs[d].entries[i].frame)
  {
    LinkedHeld(s, bs, d, i);
  }

  lemma CloneReady(s1: Space, s: Space, bs1: seq<Block>, bs: seq<Block>, dir: nat, nd: nat, i: nat, e: Entry,
                   n: set<FrameNo>)
    requires dir in s1.dirs && nd in s1.dirs && i < SLOTS && s1.dirs[nd].entries[i].frame == 0 && !e.fkernel
    requires Ok(s1, bs1) && s1.dirs[dir].entries[i].frame != 0 && e == Reframed(s1.dirs[dir].entries[i], e.frame)
    requires Cloning(s1, s, bs1, bs, nd, s1.dirs[dir].entries[i].frame, e.frame, SLOTS, n)
    ensures FreshTable(s, bs, nd, i, e) && s.dirs == s1.dirs
  {
    hide Usable, Ok;
    UsableTable(s1, bs1, dir, i);
    WalkableAt(s1, bs1, dir, i);
    forall k | 0 <= k < SLOTS ensures Usable(s.mem[e.frame].pages[k]) {
      SameUse(s1.mem[s1.dirs[dir].entries[i].frame].pages[k], s.mem[e.frame].pages[k].frame);
    }
  }

  lemma SameUse(p: Page, f: FrameNo)
    ensures Usable(p.(frame := f)) <==> Usable(p)
  {
  }

  lemma WalkableAt(s: Space, bs: seq<Block>, d: nat, i: nat)
    requires Ok(s, bs) && d in s.dirs && i < SLOTS
    ensures Walkable(s.dirs[d].entries[i])
  {
    assert EntryOk(s, bs, d, i);
  }

  // -------------------------------------------------------------- the whole directory

  ghost predicate PageCopied(s0: Space, s: Space, bs0: seq<Block>, dir: nat, nd: nat, v: FrameNo, n: set<FrameNo>)
    requires dir in s0.dirs && nd in s.dirs
  {
    if DeepAt(s0, dir, v) then PageCloned(s0.mem, s.mem, bs0, PageOf(s0, dir, v), PageOf(s, nd, v), n)
    else PageOf(s, nd, v) == PageOf(s0, dir, v)
  }

  // Blocks added for the new directory and nobody else.
  ghost predicate ForkBlocks(bs0: seq<Block>, bs: seq<Block>, nd: nat, pid: int) {
    && DirBlock(nd, pid) in bs
    && (forall b :: b in bs0 && b.state != SNOW_MM ==> b in bs && b.addr != nd && b.dir != nd)
    && (forall b :: b in bs && b.state != SNOW_MM ==> b in bs0 || b.dir == nd || b == DirBlock(nd, pid))
  }

  // Entry j of the copy: none, the kernel's own, or the same on a table of the copy's.
  ghost predicate EntryCopied(s0: Space, s: Space, dir: nat, nd: nat, j: nat)
    requires dir in s0.dirs && nd in s.dirs && j < SLOTS
  {
    var e, e' := s0.dirs[dir].entries[j], s.dirs[nd].entries[j];
    if e.frame == 0 then e' == NEW_ENTRY
    else if e.fkernel then e' == e
    else e' == Reframed(e, e'.frame) && e'.frame != 0 && e'.frame != e.frame
  }

  // Everything that was there is as it was; i tables of nd are done.
  ghost predicate Forking(s0: Space, s: Space, bs0: seq<Block>, bs: seq<Block>, dir: nat, nd: nat, i: nat,
                          n: set<FrameNo>) {
    && dir in s0.dirs && s0.kernel in s0.dirs && nd !in s0.dirs && nd in s.dirs && nd != 0 && i <= SLOTS
    && s.kernel == s0.kernel && s.dirs.Keys == s0.dirs.Keys + {nd}
    && (forall d :: d in s0.dirs ==> s.dirs[d] == s0.dirs[d])
    && SamePages(s0, s) && MemKept(s0.mem, s.mem, bs0) && NewData(s, bs0, bs, n)
    && ForkBlocks(bs0, bs, nd, s.dirs[nd].pid)
    && (forall v: FrameNo :: v / SLOTS < i ==> PageCopied(s0, s, bs0, dir, nd, v, n))
    && (forall v: FrameNo, w: FrameNo ::
          v / SLOTS < i && w / SLOTS < i && v != w && DeepAt(s0, dir, v) && DeepAt(s0, dir, w) ==>
          PageOf(s, nd, v).frame != PageOf(s, nd, w).frame)
    && (forall j: nat :: j < i ==> EntryCopied(s0, s, dir, nd, j))
    && (forall j :: i <= j < SLOTS ==> s.dirs[nd].entries[j] == NEW_ENTRY)
  }

  lemma ForkStart(s0: Space, s: Space, bs0: seq<Block>, bs: seq<Block>, dir: nat, nd: nat, new_: Dir)
    requires Ok(s0, bs0) && dir in s0.dirs && nd !in s0.dirs && nd != 0 && s == WithDir(s0, nd, new_)
             && SamePages(s0, s)
    requires forall j :: 0 <= j < SLOTS ==> new_.entries[j] == NEW_ENTRY
    requires ForkBlocks(bs0, bs, nd, new_.pid)
    ensures Forking(s0, s, bs0, bs, dir, nd, 0, {})
  {
  }

  // No table there: none in the copy.
  lemma ForkSkip(s0: Space, s: Space, bs0: seq<Block>, bs: seq<Block>, dir: nat, nd: nat, i: nat, n: set<FrameNo>)
    requires Forking(s0, s, bs0, bs, dir, nd, i, n) && i < SLOTS && s0.dirs[dir].entries[i].frame == 0
    ensures Forking(s0, s, bs0, bs, dir, nd, i + 1, n)
  {
    hide Held, Linked, SamePages, ForkBlocks, MemKept, NewData, PageCloned, Deep;
    forall j: nat | j < i + 1 ensures EntryCopied(s0, s, dir, nd, j) {
      if j == i { assert s.dirs[nd].entries[j] == NEW_ENTRY; }
    }
  }

  // A kernel table is shared.
  lemma ForkShare(s0: Space, s: Space, bs0: seq<Block>, bs: seq<Block>, dir: nat, nd: nat, i: nat, n: set<FrameNo>)
    requires Forking(s0, s, bs0, bs, dir, nd, i, n) && i < SLOTS && s0.dirs[dir].entries[i].fkernel && Ok(s, bs)
    requires s0.dirs[dir].entries[i].frame != 0
    ensures Ok(SetEntry(s, nd, i, s0.dirs[dir].entries[i]), bs)
    ensures Forking(s0, SetEntry(s, nd, i, s0.dirs[dir].entries[i]), bs0, bs, dir, nd, i + 1, n)
  {
    hide Ok, Held, Linked, ForkBlocks, MemKept, PageCloned, Deep;
    var e := s0.dirs[dir].entries[i];
    KernelFirst(s, bs, dir, i);
    WalkableAt(s, bs, dir, i);
    KernelLinked(s, bs, nd, i, e);
    var s' := SetEntry(s, nd, i, e);
    forall f | f in n ensures !Linked(s', f) {
      LinkedHere(s, dir, i, f);
      LinkedLater(s, nd, i, e, f);
    }
    forall v: FrameNo | v / SLOTS < i + 1 ensures PageCopied(s0, s', bs0, dir, nd, v, n) {
      if v / SLOTS < i { assert PageCopied(s0, s, bs0, dir, nd, v, n); }
    }
    forall j: nat | j < i + 1 ensures EntryCopied(s0, s', dir, nd, j) {
      if j < i { assert EntryCopied(s0, s, dir, nd, j); }
    }
  }

  lemma LinkedHere(s: Space, d: nat, i: nat, f: FrameNo)
    requires d in s.dirs && i < SLOTS && !Linked(s, f)
    ensures f != 0 ==> s.dirs[d].entries[i].frame != f
  {
  }

  // A private table has been cloned.
  ghost predicate ForkStep(s0: Space, s: Space, s': Space, bs0: seq<Block>, bs: seq<Block>, bs': seq<Block>, dir: nat,
                           nd: nat, i: nat,
                           n: set<FrameNo>, m: set<FrameNo>) {
    && Forking(s0, s, bs0, bs, dir, nd, i, n) && TableCloned(s, s', bs, bs', dir, nd, i, m)
    && i < SLOTS && !s0.dirs[dir].entries[i].fkernel && s0.dirs[dir].entries[i].frame != 0
  }

  lemma ForkDirs(s0: Space, s: Space, s': Space, bs0: seq<Block>, bs: seq<Block>, bs': seq<Block>, dir: nat, nd: nat,
                 i: nat,
                 n: set<FrameNo>, m: set<FrameNo>)
    requires ForkStep(s0, s, s', bs0, bs, bs', dir, nd, i, n, m)
    ensures s'.dirs.Keys == s0.dirs.Keys + {nd} && s'.dirs[nd].pid == s.dirs[nd].pid && SamePages(s0, s')
    ensures forall d :: d in s0.dirs ==> s'.dirs[d] == s0.dirs[d]
    ensures forall j :: i + 1 <= j < SLOTS ==> s'.dirs[nd].entries[j] == NEW_ENTRY
    ensures forall j: nat :: j < SLOTS && j != i ==> s'.dirs[nd].entries[j] == s.dirs[nd].entries[j]
  {
  }

  lemma ForkEntries(s0: Space, s: Space, s': Space, bs0: seq<Block>, bs: seq<Block>, bs': seq<Block>, dir: nat,
                    nd: nat, i: nat,
                    n: set<FrameNo>, m: set<FrameNo>, j: nat)
    requires ForkStep(s0, s, s', bs0, bs, bs', dir, nd, i, n, m) && Ok(s, bs) && j <= i
    ensures nd in s'.dirs && EntryCopied(s0, s', dir, nd, j)
  {
    ForkDirs(s0, s, s', bs0, bs, bs', dir, nd, i, n, m);
    if j < i {
      assert EntryCopied(s0, s, dir, nd, j);
    } else {
      TableStable(s, bs, dir, i);
    }
  }

  lemma ForkMore(bs0: seq<Block>, bs: seq<Block>, bs': seq<Block>, nd: nat, pid: int)
    requires ForkBlocks(bs0, bs, nd, pid) && MoreFor(bs, bs', nd)
    ensures ForkBlocks(bs0, bs', nd, pid)
  {
  }

  lemma ForkMemory(s0: Space, s: Space, s': Space, bs0: seq<Block>, bs: seq<Block>, bs': seq<Block>, dir: nat, nd: nat,
                   i: nat,
                   n: set<FrameNo>, m: set<FrameNo>)
    requires ForkStep(s0, s, s', bs0, bs, bs', dir, nd, i, n, m)
    ensures MemKept(s0.mem, s'.mem, bs0) && NewData(s', bs0, bs', n + m)
  {
  }

  lemma StillCopied(s0: Space, s: Space, s': Space, bs0: seq<Block>, bs: seq<Block>, bs': seq<Block>, dir: nat,
                    nd: nat, i: nat,
                    n: set<FrameNo>, m: set<FrameNo>, v: FrameNo)
    requires ForkStep(s0, s, s', bs0, bs, bs', dir, nd, i, n, m) && v / SLOTS < i
    ensures PageCopied(s0, s', bs0, dir, nd, v, n + m) && PageOf(s', nd, v) == PageOf(s, nd, v)
    ensures DeepAt(s0, dir, v) ==> PageOf(s', nd, v).frame in n
  {
    hide Linked, Deep, ForkBlocks, MoreFor, PageOf, SamePages, Held;
    assert PageCopied(s0, s, bs0, dir, nd, v, n);
  }

  lemma NowCopied(s0: Space, s: Space, s': Space, bs0: seq<Block>, bs: seq<Block>, bs': seq<Block>, dir: nat, nd: nat,
                  i: nat,
                  n: set<FrameNo>, m: set<FrameNo>, v: FrameNo)
    requires ForkStep(s0, s, s', bs0, bs, bs', dir, nd, i, n, m) && v / SLOTS == i
    ensures PageCopied(s0, s', bs0, dir, nd, v, n + m)
    ensures DeepAt(s0, dir, v) ==> PageOf(s', nd, v).frame in m
    ensures DeepAt(s0, dir, v) <==> Deep(PageOf(s, dir, v))
  {
  }

  lemma ForkDistinct(s0: Space, s: Space, s': Space, bs0: seq<Block>, bs: seq<Block>, bs': seq<Block>, dir: nat,
                     nd: nat, i: nat,
                     n: set<FrameNo>, m: set<FrameNo>, v: FrameNo, w: FrameNo)
    requires ForkStep(s0, s, s', bs0, bs, bs', dir, nd, i, n, m)
    requires v / SLOTS < i + 1 && w / SLOTS < i + 1 && v != w && DeepAt(s0, dir, v) && DeepAt(s0, dir, w)
    ensures PageOf(s', nd, v).frame != PageOf(s', nd, w).frame
  {
    hide Linked, ForkBlocks, MoreFor, PageOf, Held, Deep, DeepAt, PageCopied, PageCloned, SamePages;
    if v / SLOTS < i { StillCopied(s0, s, s', bs0, bs, bs', dir, nd, i, n, m, v); }
        else { NowCopied(s0, s, s', bs0, bs, bs', dir, nd, i, n, m, v); }
    if w / SLOTS < i { StillCopied(s0, s, s', bs0, bs, bs', dir, nd, i, n, m, w); }
        else { NowCopied(s0, s, s', bs0, bs, bs', dir, nd, i, n, m, w); }
  }

  lemma ForkClone(s0: Space, s: Space, s': Space, bs0: seq<Block>, bs: seq<Block>, bs': seq<Block>, dir: nat, nd: nat,
                  i: nat,
                  n: set<FrameNo>, m: set<FrameNo>)
    requires ForkStep(s0, s, s', bs0, bs, bs', dir, nd, i, n, m) && Ok(s, bs)
    ensures Forking(s0, s', bs0, bs', dir, nd, i + 1, n + m)
  {
    hide Ok, Held, Linked, MemKept, PageCloned, Deep, NewData, PageCopied, ForkBlocks, MoreFor, PageOf, DeepAt,
         EntryCopied;
    ForkDirs(s0, s, s', bs0, bs, bs', dir, nd, i, n, m);
    ForkMore(bs0, bs, bs', nd, s.dirs[nd].pid);
    ForkMemory(s0, s, s', bs0, bs, bs', dir, nd, i, n, m);
    forall v: FrameNo | v / SLOTS < i + 1 ensures PageCopied(s0, s', bs0, dir, nd, v, n + m) {
      if v / SLOTS < i {
        StillCopied(s0, s, s', bs0, bs, bs', dir, nd, i, n, m, v);
      } else {
        NowCopied(s0, s, s', bs0, bs, bs', dir, nd, i, n, m, v);
      }
    }
    forall v: FrameNo, w: FrameNo | v / SLOTS < i + 1 && w / SLOTS < i + 1 && v != w && DeepAt(s0, dir, v)
      && DeepAt(s0, dir, w)
      ensures PageOf(s', nd, v).frame != PageOf(s', nd, w).frame
    {
      ForkDistinct(s0, s, s', bs0, bs, bs', dir, nd, i, n, m, v, w);
    }
    forall j: nat | j < i + 1 ensures EntryCopied(s0, s', dir, nd, j) {
      ForkEntries(s0, s, s', bs0, bs, bs', dir, nd, i, n, m, j);
    }
  }

  function NewDir(pid: int): Dir { Dir(seq(SLOTS, _ => NEW_ENTRY), pid) }

  // Memory for a directory, and the directory in it.
  lemma DirCreated(s: Space, bs: seq<Block>, bs': seq<Block>, nd: nat, pid: int)
    requires Ok(s, bs) && Distinct(bs') && Grew(bs, bs', DirBlock(nd, pid)) && Unused(bs, DirBlock(nd, pid)) && nd != 0
    requires forall x :: x in bs && x.state != SNOW_MM ==> x.addr != nd
    ensures nd !in s.dirs && Ok(WithDir(s, nd, NewDir(pid)), bs') && SamePages(s, WithDir(s, nd, NewDir(pid)))
    ensures ForkBlocks(bs, bs', nd, pid)
  {
    hide EntriesOk, PageOf, Unused;
    MemoryChanges(s, bs, bs', s.mem);
    DirAdded(s, bs', nd, NewDir(pid));
  }

  // ---------------------------------------------------------------- independence

  // What a process reads at page v, and the effect of writing there.
  function ReadPage(s: Space, d: nat, v: FrameNo): Frame
    requires d in s.dirs
  {
    s.mem[PageOf(s, d, v).frame]
  }

  function StorePage(s: Space, d: nat, v: FrameNo, bytes: seq<nat>): Space
    requires d in s.dirs
  {
    s.(mem := s.mem[PageOf(s, d, v).frame := Data(bytes)])
  }

  lemma StoreKeepsPages(s: Space, f: FrameNo, x: Frame)
    requires !Linked(s, f)
    ensures SamePages(s, s.(mem := s.mem[f := x]))
  {
  }

  // The copy of a page that is cloned, when its frame is in use.
  ghost predicate Cloned(s0: Space, bs0: seq<Block>, dir: nat, v: FrameNo) {
    dir in s0.dirs && DeepAt(s0, dir, v) && Stable(bs0, PageOf(s0, dir, v).frame)
  }

  // After a fork, both sides read the same at a cloned page. What the copy writes there is seen by an
  // older directory exactly where that has a page on the new frame, and no page of a frame that was in
  // use is; nor is any other cloned page.
  lemma ForkIsolated(s0: Space, s: Space, bs0: seq<Block>, bs: seq<Block>, dir: nat, nd: nat, n: set<FrameNo>,
                     v: FrameNo,
                     bytes: seq<nat>)
    requires Forking(s0, s, bs0, bs, dir, nd, SLOTS, n) && Cloned(s0, bs0, dir, v)
    ensures ReadPage(s, nd, v) == ReadPage(s, dir, v) == ReadPage(s0, dir, v)
    ensures StorePage(s, nd, v, bytes).dirs == s.dirs && ReadPage(StorePage(s, nd, v, bytes), nd, v) == Data(bytes)
    ensures forall c, q: FrameNo :: c in s0.dirs ==>
              ReadPage(StorePage(s, nd, v, bytes), c, q)
              == if PageOf(s0, c, q).frame == PageOf(s, nd, v).frame then Data(bytes) else ReadPage(s, c, q)
    ensures forall c, q: FrameNo :: c in s0.dirs && Stable(bs0, PageOf(s0, c, q).frame) ==>
              PageOf(s0, c, q).frame != PageOf(s, nd, v).frame
    ensures forall w: FrameNo :: DeepAt(s0, dir, w) && w != v ==>
              ReadPage(StorePage(s, nd, v, bytes), nd, w) == ReadPage(s, nd, w)
  {
    hide Linked, Held, ForkBlocks, PageOf, EntryCopied;
    assert PageCopied(s0, s, bs0, dir, nd, v, n);
    StoreKeepsPages(s, PageOf(s, nd, v).frame, Data(bytes));
    forall w: FrameNo | DeepAt(s0, dir, w) && w != v ensures PageOf(s, nd, w).frame != PageOf(s, nd, v).frame {
      assert PageCopied(s0, s, bs0, dir, nd, w, n);
    }
  }

  // What the original writes to a cloned page (its frame is no page table) is seen at no cloned page of
  // the copy.
  lemma OriginalIsolated(s0: Space, s: Space, bs0: seq<Block>, bs: seq<Block>, dir: nat, nd: nat, n: set<FrameNo>,
                         v: FrameNo,
                         bytes: seq<nat>)
    requires Forking(s0, s, bs0, bs, dir, nd, SLOTS, n) && Cloned(s0, bs0, dir, v)
             && !Linked(s, PageOf(s, dir, v).frame)
    ensures forall w: FrameNo :: DeepAt(s0, dir, w) ==>
              ReadPage(StorePage(s, dir, v, bytes), nd, w) == ReadPage(s, nd, w)
  {
    hide Linked, Held, ForkBlocks, PageOf, EntryCopied;
    StoreKeepsPages(s, PageOf(s, dir, v).frame, Data(bytes));
    forall w: FrameNo | DeepAt(s0, dir, w) ensures PageOf(s, nd, w).frame != PageOf(s, dir, v).frame {
      assert PageCopied(s0, s, bs0, dir, nd, w, n);
    }
  }

  // ------------------------------------------------- any run of writes by the two sides

  datatype Store = Store(byCopy: bool, v: FrameNo, bytes: seq<nat>)

  function Stores(s: Space, dir: nat, nd: nat, ws: seq<Store>): (t: Space)
    requires dir in s.dirs && nd in s.dirs
    ensures t.dirs == s.dirs && t.kernel == s.kernel
  {
    if ws == [] then s
    else
      var w := ws[|ws| - 1];
      StorePage(Stores(s, dir, nd, ws[..|ws| - 1]), if w.byCopy then nd else dir, w.v, w.bytes)
  }

  // The writes of one side.
  function Only(ws: seq<Store>, byCopy: bool): seq<Store> {
    if ws == [] then []
    else
      var w := ws[|ws| - 1];
      Only(ws[..|ws| - 1], byCopy) + if w.byCopy == byCopy then [w] else []
  }

  // A write to a cloned page, of a frame that is no page table.
  ghost predicate ToClone(s0: Space, s: Space, bs0: seq<Block>, dir: nat, w: Store) {
    dir in s.dirs && Cloned(s0, bs0, dir, w.v) && !Linked(s, PageOf(s, dir, w.v).frame)
  }

  // The frames of the copy hold what its own writes alone would leave, frames in use what the original's would.
  ghost predicate SidesApart(s: Space, bs0: seq<Block>, dir: nat, nd: nat, ws: seq<Store>, n: set<FrameNo>)
    requires dir in s.dirs && nd in s.dirs
  {
    var t := Stores(s, dir, nd, ws);
    && SamePages(s, t)
    && (forall f: FrameNo :: f in n ==> t.mem[f] == Stores(s, dir, nd, Only(ws, true)).mem[f])
    && (forall f: FrameNo :: Stable(bs0, f) ==> t.mem[f] == Stores(s, dir, nd, Only(ws, false)).mem[f])
  }

  lemma StoresOne(s: Space, dir: nat, nd: nat, ws: seq<Store>, w: Store)
    requires dir in s.dirs && nd in s.dirs
    ensures Stores(s, dir, nd, ws + [w]) == StorePage(Stores(s, dir, nd, ws), if w.byCopy then nd
                                                      else dir, w.v, w.bytes)
  {
    assert (ws + [w])[..|ws + [w]| - 1] == ws;
  }

  lemma {:induction false} StoresPages(s: Space, bs0: seq<Block>, s0: Space, dir: nat, nd: nat, ws: seq<Store>,
                                       n: set<FrameNo>)
    requires dir in s.dirs && nd in s.dirs && SideFrames(s0, s, bs0, dir, nd, n)
    requires forall k :: 0 <= k < |ws| ==> ToClone(s0, s, bs0, dir, ws[k])
    ensures SamePages(s, Stores(s, dir, nd, ws))
  {
    if ws == [] {
    } else {
      var w, front := ws[|ws| - 1], ws[..|ws| - 1];
      StoresPages(s, bs0, s0, dir, nd, front, n);
      var t := Stores(s, dir, nd, front);
      var f := PageOf(t, if w.byCopy then nd else dir, w.v).frame;
      LinkedSame(s, t, f);
      StoreKeepsPages(t, f, Data(w.bytes));
    }
  }

  // Where the two sides write: the copy to new frames, the original to frames that were in use.
  ghost predicate SideFrames(s0: Space, s: Space, bs0: seq<Block>, dir: nat, nd: nat, n: set<FrameNo>) {
    && dir in s0.dirs && dir in s.dirs && nd in s.dirs
    && (forall f :: f in n ==> !Stable(bs0, f) && !Linked(s, f))
    && (forall v: FrameNo :: DeepAt(s0, dir, v) ==> PageOf(s, nd, v).frame in n)
    && (forall c, q: FrameNo :: c in s0.dirs ==> c in s.dirs && PageOf(s, c, q) == PageOf(s0, c, q))
  }

  lemma ForkSides(s0: Space, s: Space, bs0: seq<Block>, bs: seq<Block>, dir: nat, nd: nat, n: set<FrameNo>)
    requires Forking(s0, s, bs0, bs, dir, nd, SLOTS, n)
    ensures SideFrames(s0, s, bs0, dir, nd, n)
  {
    hide Linked, Held, ForkBlocks, PageOf, EntryCopied;
    forall v: FrameNo | DeepAt(s0, dir, v) ensures PageOf(s, nd, v).frame in n {
      assert PageCopied(s0, s, bs0, dir, nd, v, n);
    }
  }

  lemma {:induction false} StoresApart(s0: Space, s: Space, bs0: seq<Block>, dir: nat, nd: nat, ws: seq<Store>,
                                       n: set<FrameNo>)
    requires SideFrames(s0, s, bs0, dir, nd, n)
    requires forall k :: 0 <= k < |ws| ==> ToClone(s0, s, bs0, dir, ws[k])
    ensures SidesApart(s, bs0, dir, nd, ws, n)
    ensures forall c :: forall k :: 0 <= k < |Only(ws, c)| ==> ToClone(s0, s, bs0, dir, Only(ws, c)[k])
  {
    hide Linked, Stable, PageOf, StorePage, SamePages, ToClone;
    StoresPages(s, bs0, s0, dir, nd, ws, n);
    if ws == [] {
    } else {
      var w, front := ws[|ws| - 1], ws[..|ws| - 1];
      StoresApart(s0, s, bs0, dir, nd, front, n);
      StoresStep(s0, s, bs0, dir, nd, front, w, n);
      assert ws == front + [w];
    }
  }

  lemma OnlyOne(ws: seq<Store>, w: Store)
    ensures Only(ws + [w], w.byCopy) == Only(ws, w.byCopy) + [w] && Only(ws + [w], !w.byCopy) == Only(ws, !w.byCopy)
  {
    assert (ws + [w])[..|ws + [w]| - 1] == ws;
    assert Only(ws, !w.byCopy) + [] == Only(ws, !w.byCopy);
  }

  // The frame a write goes to is the same after any other writes.
  lemma Target(s0: Space, s: Space, bs0: seq<Block>, dir: nat, nd: nat, w: Store, n: set<FrameNo>, t: Space)
    requires SideFrames(s0, s, bs0, dir, nd, n) && ToClone(s0, s, bs0, dir, w) && SamePages(s, t) && t.dirs == s.dirs
    ensures var side := if w.byCopy then nd else dir;
            var f := PageOf(s, side, w.v).frame;
            && StorePage(t, side, w.v, w.bytes).mem == t.mem[f := Data(w.bytes)]
            && if w.byCopy then f in n && !Stable(bs0, f) else f !in n && Stable(bs0, f)
  {
    hide Linked, Stable, PageOf;
  }

  lemma StoresStep(s0: Space, s: Space, bs0: seq<Block>, dir: nat, nd: nat, ws: seq<Store>, w: Store, n: set<FrameNo>)
    requires SideFrames(s0, s, bs0, dir, nd, n) && ToClone(s0, s, bs0, dir, w) && SidesApart(s, bs0, dir, nd, ws, n)
    requires forall c :: forall k :: 0 <= k < |Only(ws, c)| ==> ToClone(s0, s, bs0, dir, Only(ws, c)[k])
    requires SamePages(s, Stores(s, dir, nd, ws + [w]))
    ensures SidesApart(s, bs0, dir, nd, ws + [w], n)
  {
    hide Linked, Stable, PageOf, SideFrames, ToClone, Stores, Only, StorePage, SamePages;
    var own := Only(ws, w.byCopy);
    SideDirs(s0, s, bs0, dir, nd, n);
    OnlyOne(ws, w);
    StoresOne(s, dir, nd, ws, w);
    StoresOne(s, dir, nd, own, w);
    StoresPages(s, bs0, s0, dir, nd, own, n);
    SameDirs(s, dir, nd, ws);
    SameDirs(s, dir, nd, own);
    Target(s0, s, bs0, dir, nd, w, n, Stores(s, dir, nd, ws));
    Target(s0, s, bs0, dir, nd, w, n, Stores(s, dir, nd, own));
  }

  lemma SideDirs(s0: Space, s: Space, bs0: seq<Block>, dir: nat, nd: nat, n: set<FrameNo>)
    requires SideFrames(s0, s, bs0, dir, nd, n)
    ensures dir in s.dirs && nd in s.dirs
  {
  }

  lemma SameDirs(s: Space, dir: nat, nd: nat, ws: seq<Store>)
    requires dir in s.dirs && nd in s.dirs
    ensures Stores(s, dir, nd, ws).dirs == s.dirs
  {
  }

  // However the two sides write to cloned pages, the copy reads there what its own writes alone would
  // leave, and every older directory reads, at pages of frames that were in use, what the original's would.
  lemma ForkApart(s0: Space, s: Space, bs0: seq<Block>, bs: seq<Block>, dir: nat, nd: nat, n: set<FrameNo>,
                  ws: seq<Store>)
    requires Forking(s0, s, bs0, bs, dir, nd, SLOTS, n) && dir in s.dirs
    requires forall k :: 0 <= k < |ws| ==> ToClone(s0, s, bs0, dir, ws[k])
    ensures forall v: FrameNo :: DeepAt(s0, dir, v) ==>
              ReadPage(Stores(s, dir, nd, ws), nd, v) == ReadPage(Stores(s, dir, nd, Only(ws, true)), nd, v)
    ensures forall c, q: FrameNo :: c in s0.dirs && Stable(bs0, PageOf(s0, c, q).frame) ==>
              c in s.dirs && ReadPage(Stores(s, dir, nd, ws), c, q) == ReadPage(Stores(s, dir, nd, Only(ws, false)), c,
                                                                                q)
  {
    hide Linked, Stable, PageOf, Forking, Stores, Only, ToClone;
    ForkSides(s0, s, bs0, bs, dir, nd, n);
    StoresApart(s0, s, bs0, dir, nd, ws, n);
    StoresPages(s, bs0, s0, dir, nd, Only(ws, true), n);
    StoresPages(s, bs0, s0, dir, nd, Only(ws, false), n);
    forall v: FrameNo | DeepAt(s0, dir, v)
      ensures ReadPage(Stores(s, dir, nd, ws), nd, v) == ReadPage(Stores(s, dir, nd, Only(ws, true)), nd, v)
    {
      assert PageOf(s, nd, v).frame in n;
    }
  }

  // The kernel maps memory to itself, so it sees the copy's write at the page of that number.
  lemma KernelSees(s0: Space, s: Space, bs0: seq<Block>, bs: seq<Block>, dir: nat, nd: nat, n: set<FrameNo>, v: FrameNo,
                   bytes: seq<nat>, k: nat)
    requires Forking(s0, s, bs0, bs, dir, nd, SLOTS, n) && Cloned(s0, bs0, dir, v)
    requires Identity(s0, k) && 1 <= PageOf(s, nd, v).frame < k
    ensures ReadPage(StorePage(s, nd, v, bytes), s.kernel, PageOf(s, nd, v).frame) == Data(bytes)
  {
    hide Linked, Held, ForkBlocks, PageOf, EntryCopied, Cloned;
    ForkIsolated(s0, s, bs0, bs, dir, nd, n, v, bytes);
  }

  // The copy refuses and takes the same calls to map as the original did.
  lemma CopyMapsAlike(s0: Space, s: Space, bs0: seq<Block>, bs: seq<Block>, dir: nat, nd: nat, n: set<FrameNo>,
                      v: FrameNo,
                      mode: int)
    requires Forking(s0, s, bs0, bs, dir, nd, SLOTS, n)
    ensures s.kernel in s.dirs && MapResult(s, nd, v, mode) == MapResult(s0, dir, v, mode)
  {
    hide Linked, Held, ForkBlocks, PageOf, PageCopied, NewData, MemKept;
    assert EntryCopied(s0, s, dir, nd, v / SLOTS);
  }

  lemma ForkFacts(s0: Space, s: Space, bs0: seq<Block>, bs: seq<Block>, dir: nat, nd: nat, i: nat, n: set<FrameNo>)
    requires Forking(s0, s, bs0, bs, dir, nd, i, n)
    ensures dir in s.dirs && nd in s.dirs && dir != nd && nd != s.kernel && dir in s0.dirs
            && s.dirs[dir] == s0.dirs[dir]
    ensures i < SLOTS ==> s.dirs[nd].entries[i].frame == 0
  {
  }

  lemma ClonedPid(s: Space, s': Space, bs: seq<Block>, bs': seq<Block>, dir: nat, nd: nat, i: nat, n: set<FrameNo>)
    requires TableCloned(s, s', bs, bs', dir, nd, i, n)
    ensures nd in s.dirs && nd in s'.dirs && s'.dirs[nd].pid == s.dirs[nd].pid
  {
  }

  // ------------------------------------------------------------------ the end and the start

  // The blocks that stay when directory d goes: not its frames, not its own.
  ghost predicate WithoutDir(bs: seq<Block>, bs': seq<Block>, d: nat) {
    && (forall b :: b in bs' && b.state != SNOW_MM ==> b in bs && b.dir != d && b.addr != d)
    && (forall b :: b in bs && b.state != SNOW_MM && b.dir != d && b.addr != d ==> b in bs')
  }

  function Dropped(s: Space, d: nat): Space { s.(dirs := s.dirs - {d}) }

  lemma DirRemoved(s: Space, bs: seq<Block>, bs': seq<Block>, d: nat)
    requires Ok(s, bs) && Distinct(bs') && WithoutDir(bs, bs', d) && d in s.dirs && d != s.kernel
    ensures Ok(Dropped(s, d), bs') && SamePages(Dropped(s, d), s)
  {
    var s' := Dropped(s, d);
    forall c, i | c in s'.dirs && 0 <= i < SLOTS ensures EntryOk(s', bs', c, i) {
      assert EntryOk(s, bs, c, i);
    }
    forall c, v: FrameNo | c in s'.dirs ensures Usable(PageOf(s', c, v)) { assert Usable(PageOf(s, c, v)); }
  }

  // A copy made and destroyed leaves exactly the blocks there were.
  lemma ForkUndone(s0: Space, s: Space, bs0: seq<Block>, bs: seq<Block>, bs': seq<Block>, dir: nat, nd: nat,
                   n: set<FrameNo>)
    requires Forking(s0, s, bs0, bs, dir, nd, SLOTS, n) && WithoutDir(bs, bs', nd)
    ensures Dropped(s, nd).dirs == s0.dirs && SamePages(s0, Dropped(s, nd))
    ensures forall b: Block :: b.state != SNOW_MM && b in bs' ==> b in bs0
    ensures forall b: Block :: b.state != SNOW_MM && b in bs0 ==> b in bs'
  {
  }

  ghost predicate Untagged(bs: seq<Block>) {
    forall b :: b in bs && b.state != SNOW_MM ==> b.dir == 0
  }

  lemma FirstDir(mem: Memory, bs: seq<Block>, bs': seq<Block>, k: nat)
    requires Untagged(bs) && Distinct(bs') && Grew(bs, bs', DirBlock(k, 0)) && k != 0
    ensures Ok(Space(mem, map[k := NewDir(0)], k), bs')
    ensures Identity(Space(mem, map[k := NewDir(0)], k), 1)
  {
  }

  // The kernel sees pages 1 up to k at their own addresses.
  ghost predicate Identity(s: Space, k: nat) {
    s.kernel in s.dirs
    && forall v: FrameNo :: PageOf(s, s.kernel, v) == if 1 <= v < k then MappedPage(ZERO_PAGE, v, 2) else ZERO_PAGE
  }

  lemma IdentityNext(s: Space, s': Space, bs: seq<Block>, bs': seq<Block>, v: FrameNo, ret: int)
    requires Identity(s, v) && v >= 1 && MapDone(s, s', bs, bs', s.kernel, v, v, 2, ret)
    ensures ret == 0 && Identity(s', v + 1) && s'.kernel == s.kernel && s'.dirs.Keys == s.dirs.Keys
  {
  }

  lemma DestroyFacts(s: Space, bs: seq<Block>, d: nat, table: nat, slots: nat)
    requires Ok(s, bs) && d in s.dirs && TableBlock(table, slots) in bs
    ensures d != 0 && d != table && DirBlock(d, s.dirs[d].pid) in bs
  {
  }

  // The directory's own block is not tagged with it, so it is still there to be freed.
  lemma OwnBlockKept(s: Space, bs: seq<Block>, d: nat, phys: nat)
    requires Ok(s, bs) && d in s.dirs && Ordered(bs, phys) && DirBlock(d, s.dirs[d].pid) in bs && d != 0
    ensures !Absent(Kept(bs, OfDir(d)), d)
  {
    var b := DirBlock(d, s.dirs[d].pid);
    KeptMembers(bs, OfDir(d));
    assert b in Kept(bs, OfDir(d));
    KeptBase(bs, OfDir(d));
    var j :| 0 <= j < |Kept(bs, OfDir(d))| && Kept(bs, OfDir(d))[j] == b;
    assert j != 0;
  }

  lemma {:induction false} KeptBase(bs: seq<Block>, v: Victims)
    requires |bs| >= 1
    ensures Kept(bs, v)[0] == bs[0]
  {
    if |bs| <= 1 {
    } else {
      KeptBase(bs[..|bs| - 1], v);
    }
  }

  lemma BlocksLeft(bs: seq<Block>, d: nat, k: nat, phys: nat)
    requires Ordered(bs, phys) && d != 0
    requires Ordered(Kept(bs, OfDir(d)), phys) && 1 <= k < |Kept(bs, OfDir(d))| && Kept(bs, OfDir(d))[k].addr == d
    ensures WithoutDir(bs, Removed(Kept(bs, OfDir(d)), k), d)
  {
    KeptMembers(bs, OfDir(d));
    RemoveMembers(Kept(bs, OfDir(d)), k, phys);
  }

  lemma IdentityEnds(s: Space, v: nat, to: nat)
    requires Identity(s, v) && v >= 1 && to <= v * FRAME_SIZE && (v == 1 || v * FRAME_SIZE < to + FRAME_SIZE)
    ensures Identity(s, (to + FRAME_SIZE - 1) / FRAME_SIZE)
  {
  }
}
