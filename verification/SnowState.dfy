/** The physical allocator's table (snowflake.c): a list of blocks in address order, threaded
    through table slots and ending on a free slot. */
module SnowState {
  import opened Lists

  const MEM_BASE_ADDR := 0x1FFFFF
  const SCUBA_MAP_MAX := 0x1000_0000
  const PARTS_COUNT := 100
  const GROW_SIZE := 20
  const PART_BYTES := 24   // sizeof(allocated_part_t)

  const SNOW_FREE := 0
  const SNOW_SIMPLE := 1
  const SNOW_KERNEL := 2
  const SNOW_SCUBA := 3
  const SNOW_MOD := 4
  const SNOW_ARGS := 5
  const SNOW_MM := 6
  const SNOW_BASE := 7

  datatype Part = Part(next: nat, size: nat, addr: nat, state: nat, dir: nat, pid: int)

  // A block as its owner sees it.
  datatype Block = Block(addr: nat, size: nat, state: nat, dir: nat, pid: int)

  function AsBlock(p: Part): Block { Block(p.addr, p.size, p.state, p.dir, p.pid) }

  // The chain from slot 0 visits every used slot exactly once and ends on the free slot `tail`.
  ghost predicate Threaded(parts: seq<Part>, chain: seq<nat>, tail: nat) {
    && |chain| >= 1 && chain[0] == 0 && NoDup(chain)
    && (forall k :: 0 <= k < |chain| ==> chain[k] < |parts| && parts[chain[k]].state != SNOW_FREE)
    && (forall k :: 0 <= k < |chain| - 1 ==> parts[chain[k]].next == chain[k + 1])
    && parts[chain[|chain| - 1]].next == tail
    && tail < |parts| && parts[tail].state == SNOW_FREE
    && (forall i: nat :: i < |parts| && parts[i].state != SNOW_FREE ==> i in chain)
  }

  ghost function Blocks(parts: seq<Part>, chain: seq<nat>): (bs: seq<Block>)
    requires forall k :: 0 <= k < |chain| ==> chain[k] < |parts|
    ensures |bs| == |chain|
    ensures forall k :: 0 <= k < |chain| ==> bs[k] == AsBlock(parts[chain[k]])
  {
    seq(|chain|, k requires 0 <= k < |chain| => AsBlock(parts[chain[k]]))
  }

  // Blocks in increasing address order, disjoint, above the base block and inside memory.
  ghost predicate Ordered(bs: seq<Block>, phys: nat) {
    && |bs| >= 1 && bs[0].addr == MEM_BASE_ADDR && bs[0].size == 1 && bs[0].state == SNOW_BASE
    && bs[0].pid == 0 && bs[0].dir == 0
    && (forall k :: 1 <= k < |bs| ==> bs[k].size > 0 && bs[k].addr + bs[k].size <= phys)
    && (forall i, j :: 0 <= i < j < |bs| ==> bs[i].addr + bs[i].size <= bs[j].addr)
    && (forall k :: 1 <= k < |bs| ==> bs[k].state != SNOW_BASE && bs[k].state != SNOW_FREE)
  }

  ghost predicate ChainOk(parts: seq<Part>, chain: seq<nat>, tail: nat, phys: nat) {
    Threaded(parts, chain, tail) && Ordered(Blocks(parts, chain), phys)
  }

  // ------------------------------------------------------------------ free slots

  function Iota(n: nat): seq<nat> { seq(n, i => i) }

  lemma IotaElems(n: nat)
    ensures |Elems(Iota(n))| == n
    ensures forall x: nat :: x in Elems(Iota(n)) <==> x < n
  {
    ElemsSize(Iota(n));
    forall x: nat | x < n ensures x in Elems(Iota(n)) {
      assert Iota(n)[x] == x;
    }
  }

  // A chain that covers every slot but one is almost as long as the table.
  lemma CoverBound(n: nat, chain: seq<nat>, other: int)
    requires NoDup(chain) && forall i: nat :: i < n ==> i in chain || i == other
    ensures n <= |chain| + 1
  {
    ElemsSize(chain);
    IotaElems(n);
    var all: set<int> := Elems(Iota(n));
    var rest: set<int> := Elems(chain);
    SubsetSize(all, rest + {other});
  }

  // With two slots outside the chain, one of them is not `other`.
  lemma UnusedExists(parts: seq<Part>, chain: seq<nat>, tail: nat, other: int)
    requires Threaded(parts, chain, tail)
    requires |chain| + 2 <= |parts|
    ensures exists i: nat :: i < |parts| && parts[i].state == SNOW_FREE && i != other
  {
    if forall i: nat :: i < |parts| && parts[i].state == SNOW_FREE ==> i == other {
      CoverBound(|parts|, chain, other);
    }
  }

  // There is always a free slot, so the walk along the chain is shorter than the table.
  lemma ChainShorter(parts: seq<Part>, chain: seq<nat>, tail: nat)
    requires Threaded(parts, chain, tail)
    ensures |chain| < |parts|
  {
    ElemsSize(chain);
    IotaElems(|parts|);
    assert Elems(chain) + {tail} <= Elems(Iota(|parts|));
    SubsetSize(Elems(chain) + {tail}, Elems(Iota(|parts|)));
  }

  // How many slots are free.
  ghost function FreeSlots(parts: seq<Part>): set<nat> { set i: nat | i < |parts| && parts[i].state == SNOW_FREE }

  lemma FreeSlotCount(parts: seq<Part>, chain: seq<nat>, tail: nat)
    requires Threaded(parts, chain, tail)
    ensures |FreeSlots(parts)| == |parts| - |chain|
  {
    ElemsSize(chain);
    IotaElems(|parts|);
    assert FreeSlots(parts) == Elems(Iota(|parts|)) - Elems(chain);
    assert Elems(chain) <= Elems(Iota(|parts|));
  }

  // ------------------------------------------------------------------- first fit

  ghost predicate Aligned(a: nat, align: nat) { align == 0 || a % align == 0 }

  // A block of this size and alignment can live at address a.
  ghost predicate Fits(bs: seq<Block>, a: nat, size: nat, align: nat, phys: nat) {
    && MEM_BASE_ADDR < a && Aligned(a, align) && a + size <= phys
    && forall k :: 0 <= k < |bs| ==> a + size <= bs[k].addr || bs[k].addr + bs[k].size <= a
  }

  // The gap the source computes.
  function Gap(last: nat, align: nat): nat {
    if align != 0 then (align - last % align) % align else 0
  }

  // last + Gap is the first aligned address from `last` on.
  lemma GapIsLeast(last: nat, align: nat)
    ensures Aligned(last + Gap(last, align), align)
    ensures forall a: nat :: a >= last && Aligned(a, align) ==> a >= last + Gap(last, align)
    ensures align != 0 ==> Gap(last, align) < align
  {
    if align != 0 {
      var q, m := last / align, last % align;
      assert last == q * align + m;
      var up := if m == 0 then q else q + 1;
      assert last + Gap(last, align) == up * align by {
        if m == 0 {
          assert align % align == 0;
        } else {
          SmallMod(align - m, align);
        }
      }
      MultipleMod(up, align);
      forall a: nat | a >= last && Aligned(a, align) ensures a >= last + Gap(last, align) {
        var p := a / align;
        assert a == p * align;
        if p < up {
          LessMultiple(p, up, align);
          assert false;
        } else {
          LessEqMultiple(up, p, align);
        }
      }
    }
  }

  lemma SmallMod(x: nat, n: nat)
    requires x < n
    ensures x % n == x
  {
  }

  lemma MultipleMod(k: nat, n: nat)
    requires n > 0
    ensures (k * n) % n == 0
  {
    var x := k * n;
    var a := x / n;
    if a < k {
      LessMultiple(a, k, n);
    } else if k < a {
    }
  }

  lemma LessEqMultiple(p: nat, q: nat, n: nat)
    requires p <= q
    ensures p * n <= q * n
  {
  }

  lemma LessMultiple(p: nat, q: nat, n: nat)
    requires p < q && n > 0
    ensures (p + 1) * n == p * n + n <= q * n
  {
  }
}
