/** When memory suffices: the allocator seen as the spans it has given out, so that whether a run of
    page-aligned requests is served can be told before the first of them. */
module ScubaRoom {
  import opened SnowState
  import opened Snowflake
  import opened ScubaState

  datatype Span = Span(addr: nat, size: nat)

  // All that decides the allocator's next answers.
  datatype Heap = Heap(spans: set<Span>, table: nat, slots: nat, phys: nat)

  ghost function SpansOf(bs: seq<Block>): set<Span> { set b | b in bs :: Span(b.addr, b.size) }

  predicate SpanFits(spans: set<Span>, a: nat, size: nat, align: nat, phys: nat) {
    && MEM_BASE_ADDR < a && (align == 0 || a % align == 0) && a + size <= phys
    && forall s :: s in spans ==> a + size <= s.addr || s.addr + s.size <= a
  }

  // The lowest place from `a` on, 0 when there is none.
  function LowestFrom(spans: set<Span>, a: nat, size: nat, align: nat, phys: nat): nat
    decreases phys - a
  {
    if a + size > phys then 0
    else if SpanFits(spans, a, size, align, phys) then a
    else if a == phys then 0
    else LowestFrom(spans, a + 1, size, align, phys)
  }

  function Lowest(spans: set<Span>, size: nat, align: nat, phys: nat): nat {
    LowestFrom(spans, MEM_BASE_ADDR + 1, size, align, phys)
  }

  lemma {:induction false} LowestFromIs(spans: set<Span>, a: nat, size: nat, align: nat, phys: nat)
    ensures var low := LowestFrom(spans, a, size, align, phys);
            && (low != 0 ==> low >= a && SpanFits(spans, low, size, align, phys))
            && forall b: nat :: b >= a && SpanFits(spans, b, size, align, phys) ==> 0 < low <= b
    decreases phys - a
  {
    if a + size <= phys && !SpanFits(spans, a, size, align, phys) && a < phys {
      LowestFromIs(spans, a + 1, size, align, phys);
    }
  }

  // The number of the table's bytes once it has grown.
  function TableNeed(slots: nat): nat { PART_BYTES * (slots + GROW_SIZE) }

  // Four free slots or fewer: the table moves first.
  predicate FewSlots(h: Heap) { h.slots <= |h.spans| + 4 }

  function TableMoved(h: Heap): Heap {
    if FewSlots(h) then
      var to := Lowest(h.spans, TableNeed(h.slots), 0, h.phys);
      Heap((set s | s in h.spans && s.addr != h.table) + {Span(to, TableNeed(h.slots))}, to, h.slots + GROW_SIZE,
           h.phys)
    else h
  }

  predicate CanServe(h: Heap, size: nat) {
    && (FewSlots(h) ==> Lowest(h.spans, TableNeed(h.slots), 0, h.phys) != 0)
    && Lowest(TableMoved(h).spans, size, FRAME_SIZE, h.phys) != 0
  }

  function After(h: Heap, size: nat): Heap {
    var g := TableMoved(h);
    g.(spans := g.spans + {Span(Lowest(g.spans, size, FRAME_SIZE, h.phys), size)})
  }

  // The state after a run of requests, and whether each of them is served.
  function Run(h: Heap, sizes: seq<nat>): Heap {
    if sizes == [] then h else After(Run(h, sizes[..|sizes| - 1]), sizes[|sizes| - 1])
  }

  predicate Serves(h: Heap, sizes: seq<nat>) {
    sizes == []
    || (Serves(h, sizes[..|sizes| - 1]) && CanServe(Run(h, sizes[..|sizes| - 1]), sizes[|sizes| - 1]))
  }

  lemma {:induction false} RunJoin(h: Heap, a: seq<nat>, b: seq<nat>)
    ensures Serves(h, a + b) <==> Serves(h, a) && Serves(Run(h, a), b)
    ensures Run(h, a + b) == Run(Run(h, a), b)
    decreases |b|
  {
    if b == [] {
      assert a + b == a;
    } else {
      var n := |b| - 1;
      RunJoin(h, a, b[..n]);
      assert (a + b)[..|a + b| - 1] == a + b[..n];
    }
  }

  lemma RunOne(h: Heap, size: nat)
    ensures Serves(h, [size]) <==> CanServe(h, size)
    ensures Run(h, [size]) == After(h, size)
  {
    assert [size][..0] == [];
  }

  // -------------------------------------------------------- the allocator is such a heap

  // Blocks one behind the other.
  ghost predicate Rising(bs: seq<Block>) {
    && (forall k :: 0 <= k < |bs| ==> bs[k].size > 0)
    && (forall i, j :: 0 <= i < j < |bs| ==> bs[i].addr + bs[i].size <= bs[j].addr)
  }

  lemma {:induction false} SpanCount(bs: seq<Block>)
    requires Rising(bs)
    ensures |SpansOf(bs)| == |bs|
    decreases |bs|
  {
    if bs == [] {
      assert SpansOf(bs) == {};
    } else {
      var front, b := bs[..|bs| - 1], bs[|bs| - 1];
      SpanCount(front);
      assert bs == front + [b];
      SpansJoin(front, b);
      assert Span(b.addr, b.size) !in SpansOf(front);
    }
  }

  lemma SpansJoin(front: seq<Block>, b: Block)
    ensures SpansOf(front + [b]) == SpansOf(front) + {Span(b.addr, b.size)}
  {
  }

  lemma SameFits(bs: seq<Block>, a: nat, size: nat, align: nat, phys: nat)
    ensures Fits(bs, a, size, align, phys) <==> SpanFits(SpansOf(bs), a, size, align, phys)
  {
    if Fits(bs, a, size, align, phys) {
      forall s | s in SpansOf(bs) ensures a + size <= s.addr || s.addr + s.size <= a {
        var b :| b in bs && s == Span(b.addr, b.size);
      }
    } else if SpanFits(SpansOf(bs), a, size, align, phys) {
      forall k | 0 <= k < |bs| ensures a + size <= bs[k].addr || bs[k].addr + bs[k].size <= a {
        assert Span(bs[k].addr, bs[k].size) in SpansOf(bs);
      }
    }
  }

  // The lowest fit in the one view is the lowest fit in the other.
  lemma SameLowest(bs: seq<Block>, size: nat, align: nat, phys: nat)
    ensures Lowest(SpansOf(bs), size, align, phys) == 0 <==> NoFit(bs, size, align, phys)
    ensures forall a: nat :: LowestFit(bs, a, size, align, phys) ==> a == Lowest(SpansOf(bs), size, align, phys)
  {
    hide Fits, SpanFits, LowestFrom;
    LowestFromIs(SpansOf(bs), MEM_BASE_ADDR + 1, size, align, phys);
    forall a: nat ensures Fits(bs, a, size, align, phys) <==> SpanFits(SpansOf(bs), a, size, align, phys) {
      SameFits(bs, a, size, align, phys);
    }
    forall a: nat | SpanFits(SpansOf(bs), a, size, align, phys)
      ensures a > MEM_BASE_ADDR { AboveBase(SpansOf(bs), a, size, align, phys); }
  }

  lemma AboveBase(spans: set<Span>, a: nat, size: nat, align: nat, phys: nat)
    requires SpanFits(spans, a, size, align, phys)
    ensures a > MEM_BASE_ADDR
  {
  }

  // One request as the allocator answers it.
  lemma AllocIsStep(bs: seq<Block>, mid: seq<Block>, bs': seq<Block>, h: Heap, table': nat, slots': nat, halted: bool,
                    addr: nat, b: Block)
    requires Ordered(bs, h.phys) && h.spans == SpansOf(bs) && b.size > 0
    requires halted <==> h.slots <= |bs| + 4 && NoFit(bs, TableNeed(h.slots), 0, h.phys)
    requires !halted ==>
             if h.slots <= |bs| + 4
             then slots' == h.slots + GROW_SIZE && Relocated(bs, mid, h.table, table', slots', h.phys)
                         else slots' == h.slots && table' == h.table && mid == bs
    requires !halted ==> b.addr == addr && Allocated(mid, bs', addr, b, FRAME_SIZE, h.phys)
    ensures CanServe(h, b.size) <==> !halted && addr != 0
    ensures CanServe(h, b.size) ==> Heap(SpansOf(bs'), table', slots', h.phys) == After(h, b.size)
  {
    hide Fits, SpanFits, LowestFrom, Lowest, Ordered;
    OrderedSpans(bs, h.phys);
    SameLowest(bs, TableNeed(h.slots), 0, h.phys);
    if !halted {
      assert SpansOf(mid) == TableMoved(h).spans by {
        if h.slots <= |bs| + 4 { MovedSpans(bs, mid, h.table, TableBlock(table', slots')); }
      }
      SameLowest(mid, b.size, FRAME_SIZE, h.phys);
      if addr != 0 {
        FitAbove(mid, addr, b.size, FRAME_SIZE, h.phys);
        assert SpansOf(bs') == SpansOf(mid) + {Span(addr, b.size)};
      }
    }
  }

  lemma FitAbove(bs: seq<Block>, a: nat, size: nat, align: nat, phys: nat)
    requires LowestFit(bs, a, size, align, phys)
    ensures a > 0 && !NoFit(bs, size, align, phys)
  {
  }

  lemma OrderedSpans(bs: seq<Block>, phys: nat)
    requires Ordered(bs, phys)
    ensures |SpansOf(bs)| == |bs|
  {
    SpanCount(bs);
  }

  lemma MovedSpans(bs: seq<Block>, mid: seq<Block>, gone: nat, b: Block)
    requires Replaced(bs, mid, gone, b)
    ensures SpansOf(mid) == (set s | s in SpansOf(bs) && s.addr != gone) + {Span(b.addr, b.size)}
  {
  }

  // ------------------------------------------------------------- a condition to check first

  // Nothing lies above `top`.
  predicate Under(h: Heap, top: nat) {
    top > MEM_BASE_ADDR && forall s :: s in h.spans ==> s.addr + s.size <= top
  }

  // How far up the requests can reach at most, the table's moves included.
  function Reach(top: nat, slots: nat, sizes: seq<nat>): nat {
    if sizes == [] then top
    else
      var n := |sizes| - 1;
      Reach(top, slots, sizes[..n]) + PART_BYTES * (slots + GROW_SIZE * |sizes|) + FRAME_SIZE + sizes[n]
  }

  // There is room above all blocks for all the requests.
  predicate Roomy(h: Heap, top: nat, sizes: seq<nat>) { Under(h, top) && Reach(top, h.slots, sizes) <= h.phys }

  lemma FitsAbove(spans: set<Span>, top: nat, size: nat, align: nat, phys: nat)
    requires top > MEM_BASE_ADDR && forall s :: s in spans ==> s.addr + s.size <= top
    requires top + align + size <= phys
    ensures 0 < Lowest(spans, size, align, phys) <= top + align
  {
    var a := if align == 0 then top else top + (align - top % align) % align;
    if align != 0 { GapIsLeast(top, align); }
    assert SpanFits(spans, a, size, align, phys);
    LowestFromIs(spans, MEM_BASE_ADDR + 1, size, align, phys);
  }

  lemma {:induction false} RoomyServes(h: Heap, top: nat, sizes: seq<nat>)
    requires Roomy(h, top, sizes)
    ensures Serves(h, sizes)
    ensures Under(Run(h, sizes), Reach(top, h.slots, sizes)) && Run(h, sizes).phys == h.phys
    ensures Run(h, sizes).slots <= h.slots + GROW_SIZE * |sizes|
    decreases |sizes|
  {
    if sizes == [] {
    } else {
      var n := |sizes| - 1;
      RoomyServes(h, top, sizes[..n]);
      RoomyStep(Run(h, sizes[..n]), Reach(top, h.slots, sizes[..n]), h.slots + GROW_SIZE * n, sizes[n]);
    }
  }

  lemma RoomyStep(h: Heap, top: nat, slots: nat, size: nat)
    requires Under(h, top) && h.slots <= slots && top + PART_BYTES * (slots + GROW_SIZE) + FRAME_SIZE + size <= h.phys
    ensures CanServe(h, size) && After(h, size).phys == h.phys && After(h, size).slots <= slots + GROW_SIZE
    ensures Under(After(h, size), top + PART_BYTES * (slots + GROW_SIZE) + FRAME_SIZE + size)
  {
    hide LowestFrom, Lowest;
    if FewSlots(h) { FitsAbove(h.spans, top, TableNeed(h.slots), 0, h.phys); }
    FitsAbove(TableMoved(h).spans, top + PART_BYTES * (slots + GROW_SIZE), size, FRAME_SIZE, h.phys);
  }

  lemma OneMore(m: nat, w: nat)
    ensures (m + 1) * w == m * w + w
  {
  }

  // A round figure for requests of at most `most` bytes each.
  lemma {:induction false} ReachBound(top: nat, slots: nat, sizes: seq<nat>, most: nat, n: nat)
    requires |sizes| <= n && forall k :: 0 <= k < |sizes| ==> sizes[k] <= most
    ensures Reach(top, slots, sizes) <= top + |sizes| * (PART_BYTES * (slots + GROW_SIZE * n) + FRAME_SIZE + most)
    decreases |sizes|
  {
    if sizes == [] {
    } else {
      var m := |sizes| - 1;
      ReachBound(top, slots, sizes[..m], most, n);
      OneMore(m, PART_BYTES * (slots + GROW_SIZE * n) + FRAME_SIZE + most);
    }
  }
}
