/** The physical allocator (snowflake.c): first fit over the block list, a table that moves itself
    to larger memory when it runs low on slots, and frees by address, owner or directory. */
module Snowflake {
  import opened Lists
  import opened SnowState
  import opened SnowSteps

  // What mem_free_all and mem_free_dir look for.
  datatype Victims = OfProcess(pid: int, state: nat) | OfDir(dir: nat)

  predicate Matches(v: Victims, b: Block) {
    match v
    case OfProcess(pid, state) => b.pid == pid && ((state == 0 && b.state != SNOW_SCUBA) || b.state == state)
    case OfDir(dir) => b.dir == dir
  }

  // The blocks that survive; the base block always does.
  function Kept(bs: seq<Block>, v: Victims): (r: seq<Block>)
    ensures |r| <= |bs| && (bs != [] ==> r != [])
  {
    if |bs| <= 1 then bs
    else
      var front := Kept(bs[..|bs| - 1], v);
      if Matches(v, bs[|bs| - 1]) then front else front + [bs[|bs| - 1]]
  }

  function TableBlock(addr: nat, slots: nat): Block { Block(addr, PART_BYTES * slots, SNOW_MM, 0, 0) }

  // bs' is bs with the block at `gone` replaced by b.
  ghost predicate Replaced(bs: seq<Block>, bs': seq<Block>, gone: nat, b: Block) {
    forall x :: x in bs' <==> x == b || (x in bs && x.addr != gone)
  }

  // addr is the lowest place for such a block.
  ghost predicate LowestFit(bs: seq<Block>, addr: nat, size: nat, align: nat, phys: nat) {
    Fits(bs, addr, size, align, phys) && forall a: nat :: Fits(bs, a, size, align, phys) ==> addr <= a
  }

  ghost predicate NoFit(bs: seq<Block>, size: nat, align: nat, phys: nat) {
    forall a: nat :: !Fits(bs, a, size, align, phys)
  }

  class Allocator {
    var parts: seq<Part>
    var table: nat
    var allocCount: nat
    var freeCount: nat
    var instanceCount: int
    var physSize: nat
    ghost var chain: seq<nat>
    ghost var tail: nat

    // Before mem_init.
    constructor ()
      ensures parts == [] && chain == []
    {
      parts, table, allocCount, freeCount, instanceCount, physSize := [], 0, 0, 0, 0, 0;
      chain, tail := [], 0;
    }

    ghost predicate ListOk()
      reads this
    {
      ChainOk(parts, chain, tail, physSize)
    }

    ghost function View(): (bs: seq<Block>)
      requires ListOk()
      reads this
      ensures |bs| == |chain|
    {
      Blocks(parts, chain)
    }

    // What holds between two calls.
    ghost predicate Valid()
      reads this
    {
      ListOk() && |chain| + 4 <= |parts| && allocCount == freeCount + |chain| - 1 && instanceCount == 0
    }

    // The table itself lives in a block of the list.
    ghost predicate TableLive()
      requires ListOk()
      reads this
    {
      TableBlock(table, |parts|) in View()
    }

    // Few free slots are left, and no memory for a larger table.
    ghost predicate TableStuck()
      requires ListOk()
      reads this
    {
      |parts| <= |chain| + 4 && NoFit(View(), PART_BYTES * (|parts| + GROW_SIZE), 0, physSize)
    }

    ghost predicate HasSpare(other: int)
      reads this
    {
      exists i: nat :: i < |parts| && parts[i].state == SNOW_FREE && i != other
    }

    // get_unused_index; the fatal error after the loop is out of reach.
    method GetUnusedIndex(notIndex: int) returns (i: nat)
      requires HasSpare(notIndex)
      ensures i < |parts| && parts[i].state == SNOW_FREE && i != notIndex
    {
      i := 0;
      while i < |parts|
        invariant i <= |parts|
        invariant forall j :: 0 <= j < i ==> parts[j].state != SNOW_FREE || j == notIndex
      {
        if parts[i].state == SNOW_FREE && i != notIndex { return; }
        i := i + 1;
      }
    }

    // Make sure the list does not end on slot `index`.
    method DelOccurence(index: nat)
      requires ListOk() && |chain| + 2 <= |parts| && index < |parts| && parts[index].state == SNOW_FREE
      modifies this`parts, this`tail
      ensures ListOk() && View() == old(View()) && |parts| == old(|parts|)
      ensures tail != index && parts[index].state == SNOW_FREE
    {
      var i := 0;
      var count := 0;
      while parts[i].state != SNOW_FREE
        invariant count <= |chain| && parts == old(parts) && tail == old(tail)
        invariant i == if count < |chain| then chain[count] else tail
        invariant count == |chain| ==> tail != index
        decreases |chain| - count
      {
        if parts[i].next == index {
          UnusedExists(parts, chain, tail, index);
          IndexIsTail(parts, chain, tail, count, index);
          var t := GetUnusedIndex(index);
          RedirectThreads(parts, chain, tail, parts[i := parts[i].(next := t)], t);
          parts := parts[i := parts[i].(next := t)];
          tail := t;
          return;
        }
        assert count <= |parts|;  // otherwise fatal: "Recursive linked list detected"
        i := parts[i].next;
        count := count + 1;
      }
    }

    // The first hole that is large enough: 0 between two blocks, 1 at the end, 2 nowhere.
    method FindHole(size: nat, align: nat)
        returns (exitMode: int, index: nat, oldIndex: nat, lastAddr: nat, gap: nat, ghost k: nat)
      requires ListOk() && size > 0
      ensures 1 <= k <= |chain| && index == (if k < |chain| then chain[k] else tail) && oldIndex == chain[k - 1]
      ensures lastAddr == View()[k - 1].addr + View()[k - 1].size && gap == Gap(lastAddr, align)
      ensures 0 <= exitMode <= 2 && (exitMode == 0 <==> k < |chain|)
      ensures exitMode == 0 ==> lastAddr + gap + size <= View()[k].addr
      ensures exitMode == 1 ==> lastAddr + gap + size <= physSize
      ensures exitMode != 2 ==> LowestFit(View(), lastAddr + gap, size, align, physSize)
      ensures exitMode == 2 ==> NoFit(View(), size, align, physSize)
    {
      hide Fits, Aligned, Ruled, Threaded, Blocks, Ordered;
      ghost var bs := View();
      ChainShorter(parts, chain, tail);
      RuledStart(bs, size, align, physSize);
      AtStart(parts, chain, tail);
      ThreadedInTable(parts, chain, tail);
      index, oldIndex, lastAddr, k := 0, 0, MEM_BASE_ADDR, 0;
      gap := 0;
      exitMode := 2;
      var i := 0;
      while true
        invariant i == k <= |chain| && index == At(chain, tail, k) < |parts|
        invariant k > 0 ==> oldIndex == chain[k - 1]
        invariant lastAddr == (if k > 0 then bs[k - 1].addr + bs[k - 1].size else MEM_BASE_ADDR)
        invariant Ruled(bs, k, lastAddr, size, align, physSize)
        decreases |chain| - i
      {
        assert i != |parts|;  // otherwise fatal: "Recursive linked list detected"
        gap := if align != 0 then (align - lastAddr % align) % align else 0;
        AtUsed(parts, chain, tail, k);
        BaseFirst(bs, physSize);
        if parts[index].state == SNOW_FREE {
          exitMode := 1 + if lastAddr + size + gap > physSize then 1 else 0;
          if exitMode == 1 {
            HoleFits(bs, k, lastAddr, size, align, physSize);
          } else {
            NothingFits(bs, lastAddr, size, align, physSize);
          }
          break;
        }
        ViewAt(parts, chain, k);
        if parts[index].addr - lastAddr >= size + gap && lastAddr != MEM_BASE_ADDR {
          exitMode := 0;
          HoleFits(bs, k, lastAddr, size, align, physSize);
          break;
        }
        RuledStep(bs, k, lastAddr, size, align, physSize);
        NextSlot(parts, chain, tail, k);
        AtUsed(parts, chain, tail, k + 1);
        lastAddr := parts[index].addr + parts[index].size;
        oldIndex := index;
        index := parts[index].next;
        i := i + 1;
        k := k + 1;
      }
    }

    // A block at the end: the tail slot is used, and another free slot ends the list.
    method PlaceLast(index: nat, addr: nat, size: nat, state: nat, pid: int, dir: nat)
      requires ListOk() && |chain| + 2 <= |parts| && index == tail
      requires CanAppend(View(), NewBlock(addr, size, state, pid, dir), physSize)
      modifies this`parts, this`chain, this`tail
      ensures ListOk() && |parts| == old(|parts|)
      ensures View() == Inserted(old(View()), old(|chain|), NewBlock(addr, size, state, pid, dir))
    {
      UnusedExists(parts, chain, tail, tail);
      ghost var before := parts;
      parts := parts[index := parts[index].(state := state)];
      StillSpare(before, parts, tail);
      var t := GetUnusedIndex(-1);
      parts := parts[index := parts[index].(next := t)];
      parts := parts[index := parts[index].(addr := addr, size := size, pid := pid, dir := dir)];
      AppendOk(before, chain, tail, parts, t, NewBlock(addr, size, state, pid, dir), physSize);
      chain := chain + [tail];
      tail := t;
    }

    // A block in a hole: a free slot is taken, and the list must not end on it any more.
    method PlaceBetween(index: nat, oldIndex: nat, addr: nat, size: nat, state: nat, pid: int, dir: nat, ghost k: nat)
      requires ListOk() && |chain| + 2 <= |parts|
      requires 1 <= k < |chain| && index == chain[k] && oldIndex == chain[k - 1]
      requires CanInsert(View(), k, NewBlock(addr, size, state, pid, dir))
      modifies this`parts, this`chain, this`tail
      ensures ListOk() && |parts| == old(|parts|)
      ensures View() == Inserted(old(View()), k, NewBlock(addr, size, state, pid, dir))
    {
      hide Blocks, Ordered, Threaded, CanInsert, Inserted, NoDup;
      UnusedExists(parts, chain, tail, -1);
      var n := GetUnusedIndex(-1);
      DelOccurence(n);
      LinkBetween(n, index, oldIndex, addr, size, state, pid, dir, k);
    }

    // MEM_PARTS[n] is linked in and filled.
    method LinkBetween(n: nat, index: nat, oldIndex: nat, addr: nat, size: nat, state: nat, pid: int, dir: nat,
                       ghost k: nat)
      requires ListOk() && n < |parts| && n != tail && parts[n].state == SNOW_FREE
      requires 1 <= k < |chain| && index == chain[k] && oldIndex == chain[k - 1]
      requires CanInsert(View(), k, NewBlock(addr, size, state, pid, dir))
      modifies this`parts, this`chain
      ensures ListOk() && |parts| == old(|parts|)
      ensures View() == Inserted(old(View()), k, NewBlock(addr, size, state, pid, dir))
    {
      hide Blocks, Ordered, CanInsert, Inserted, NoDup;
      ghost var before := parts;
      parts := parts[oldIndex := parts[oldIndex].(next := n)];
      parts := parts[n := parts[n].(next := index)];
      parts := parts[n := parts[n].(state := state)];
      parts := parts[n := parts[n].(addr := addr, size := size, pid := pid, dir := dir)];
      InsertOk(before, chain, tail, parts, k, n, NewBlock(addr, size, state, pid, dir), physSize);
      chain := Inserted(chain, k, n);
    }

    // mem_alloc_func from the walk on: what it does for a table block.
    method Place(size: nat, state: nat, align: nat, pid: int, dir: nat) returns (addr: nat, ghost k: nat)
      requires ListOk() && |chain| + 2 <= |parts| && instanceCount <= 1
      requires size > 0 && state != SNOW_BASE && state != SNOW_FREE
      modifies this`parts, this`chain, this`tail, this`allocCount
      ensures ListOk() && |parts| == old(|parts|)
      ensures addr == 0 <==> NoFit(old(View()), size, align, physSize)
      ensures addr == 0 ==> View() == old(View()) && allocCount == old(allocCount)
      ensures |chain| == old(|chain|) + if addr == 0 then 0 else 1
      ensures addr != 0 ==> LowestFit(old(View()), addr, size, align, physSize) && allocCount == old(allocCount) + 1
      ensures addr != 0 ==>
              1 <= k <= old(|chain|) && View() == Inserted(old(View()), k, NewBlock(addr, size, state, pid, dir))
    {
      hide Ordered, Threaded, Gap;
      assert instanceCount <= 1;  // otherwise fatal: "Instance count is too high"
      var exitMode, index, oldIndex, lastAddr, gap;
      exitMode, index, oldIndex, lastAddr, gap, k := FindHole(size, align);
      if exitMode == 2 { return 0, k; }
      addr := lastAddr + gap;
      if exitMode == 1 {
        PlaceLast(index, addr, size, state, pid, dir);
      } else {
        PlaceBetween(index, oldIndex, addr, size, state, pid, dir, k);
      }
      allocCount := allocCount + 1;
    }

    // dynamize_mem: with four free slots or fewer, the table moves to larger memory. `halted` is the
    // fatal error when there is no such memory.
    method Dynamize() returns (halted: bool)
      requires Valid() && TableLive()
      modifies this
      ensures physSize == old(physSize)
      ensures halted <==> old(TableStuck())
      ensures !halted ==> Valid() && TableLive() && |chain| + 5 <= |parts|
      ensures !halted && table == old(table) ==> View() == old(View()) && |parts| == old(|parts|)
      ensures !halted ==> (table != old(table) <==> old(|parts| <= |chain| + 4))
      ensures !halted && table != old(table) ==>
                && |parts| == old(|parts|) + GROW_SIZE
                && Relocated(old(View()), View(), old(table), table, |parts|, physSize)
    {
      hide Blocks, Ordered, Threaded, Inserted, Fits, NoFit, LowestFit, Replaced;
      var low := FewFree();
      if !low { return false; }
      var size := PART_BYTES * (|parts| + GROW_SIZE);
      var newAdd, k := Place(size, SNOW_MM, 0, 0, 0);
      if newAdd == 0 { return true; }
      halted := false;
      FitsElsewhere(old(View()), newAdd, size, physSize, TableBlock(table, |parts|));
      MoveTable(newAdd, k, old(View()));
    }

    // The table is copied to its new block, the other slots cleared, and the old block freed.
    method MoveTable(newAdd: nat, ghost k: nat, ghost bs: seq<Block>)
      requires ListOk() && allocCount == freeCount + |chain| - 1 && instanceCount == 0
      requires 1 <= k <= |bs| && View() == Inserted(bs, k, TableBlock(newAdd, |parts| + GROW_SIZE))
      requires TableBlock(table, |parts|) in bs && table != newAdd && |chain| + 1 <= |parts|
      modifies this
      ensures Valid() && TableLive() && physSize == old(physSize)
      ensures |parts| == old(|parts|) + GROW_SIZE && table == newAdd && |chain| + 5 <= |parts|
      ensures Replaced(bs, View(), old(table), TableBlock(newAdd, |parts|))
    {
      hide Blocks, Ordered, Threaded, Inserted, Removed, Absent;
      InsertMembers(bs, k, TableBlock(newAdd, |parts| + GROW_SIZE));
      ghost var grown := View();
      var oldAddr := table;
      var free := seq(GROW_SIZE, i => Part(0, 0, 0, SNOW_FREE, 0, 0));
      GrowOk(parts, chain, tail, free, physSize);
      parts := parts + free;
      table := newAdd;
      var ret, m := FreeAddr(oldAddr);
      OldTableFound(grown, oldAddr, |parts| - GROW_SIZE, physSize);
      RemoveMembers(grown, m, physSize);
    }

    // The count of free slots stops once it passes four.
    method FewFree() returns (low: bool)
      requires ListOk()
      ensures low <==> |parts| <= |chain| + 4
    {
      FreeSlotCount(parts, chain, tail);
      var i, sum := 0, 0;
      low := true;
      while i < |parts|
        invariant i <= |parts| && sum <= 4
        invariant sum == |FreeUpTo(parts, i)|
      {
        FreeUpToNext(parts, i);
        sum := sum + if parts[i].state == SNOW_FREE then 1 else 0;
        if sum > 4 {
          FreeUpToAll(parts, i + 1);
          return false;
        }
        i := i + 1;
      }
      FreeUpToAll(parts, i);
    }

    method Unlink(lastIndex: nat, index: nat, ghost k: nat)
      requires ListOk() && 1 <= k < |chain| && index == chain[k] && lastIndex == chain[k - 1]
      modifies this`parts, this`chain, this`freeCount
      ensures ListOk() && |parts| == old(|parts|) && |chain| == old(|chain|) - 1
      ensures View() == Removed(old(View()), k) && chain == Removed(old(chain), k)
      ensures freeCount == old(freeCount) + 1
      ensures parts[old(chain)[k]].next == old(parts)[old(chain)[k]].next
    {
      hide Ordered, Removed, Blocks;
      ghost var before := parts;
      freeCount := freeCount + 1;
      parts := parts[lastIndex := parts[lastIndex].(next := parts[index].next)];
      parts := parts[index := parts[index].(state := SNOW_FREE)];
      RemovedAt(chain, k);
      RemoveOk(before, chain, tail, parts, k, physSize);
      chain := Removed(chain, k);
    }

    method FreeAddr(addr: nat) returns (ret: int, ghost k: nat)
      requires Valid()
      modifies this`parts, this`chain, this`freeCount, this`instanceCount
      ensures Valid() && |parts| == old(|parts|)
      ensures ret == 0 || ret == 1
      ensures ret == 0 ==> 1 <= k < old(|chain|) && old(View())[k].addr == addr && View() == Removed(old(View()), k)
                           && freeCount == old(freeCount) + 1
                           && chain == Removed(old(chain), k)
                           && parts[old(chain)[k]].next == old(parts)[old(chain)[k]].next
      ensures ret == 1 ==> parts == old(parts) && chain == old(chain) && freeCount == old(freeCount)
      ensures ret == 1 ==> View() == old(View()) && Absent(old(View()), addr)
      ensures old(TableLive()) && addr != table ==> TableLive()
    {
      hide Ordered, Removed, Threaded, Blocks, Absent;
      ghost var bs := View();
      instanceCount := instanceCount + 1;
      assert instanceCount <= 1;  // otherwise fatal: "Instance count is too high"
      var lastIndex := -1;
      var index := 0;
      k := 0;
      AtStart(parts, chain, tail);
      ThreadedInTable(parts, chain, tail);
      AbsentStart(bs, addr);
      while parts[index].state != SNOW_FREE
        invariant k <= |chain| && parts == old(parts) && chain == old(chain) && freeCount == old(freeCount)
                  && instanceCount == 1
        invariant index == At(chain, tail, k) < |parts|
        invariant lastIndex == if k > 0 then chain[k - 1] as int else -1
        invariant Absent(bs[..k], addr)
        decreases |chain| - k
      {
        AtUsed(parts, chain, tail, k);
        ViewAt(parts, chain, k);
        if !(parts[index].addr == addr && lastIndex != -1) {
          NextSlot(parts, chain, tail, k);
          AtUsed(parts, chain, tail, k + 1);
          AbsentNext(bs, k, addr);
          lastIndex := index;
          index := parts[index].next;
          k := k + 1;
        } else {
          NotBase(bs, k, physSize);
          assert parts[index].state != SNOW_BASE;  // otherwise refused: "Cannot free snowflake memory"
          Unlink(lastIndex, index, k);
          TableStays(bs, k, TableBlock(table, |parts|), physSize);
          instanceCount := instanceCount - 1;
          return 0, k;
        }
      }
      AtUsed(parts, chain, tail, k);
      ViewSize(parts, chain);
      assert bs[..k] == bs;
      instanceCount := instanceCount - 1;
      return 1, k;
    }

    // mem_alloc_func for an ordinary block; `mid` is the list once the table has made room for it.
    method AllocFunc(size: nat, state: nat, align: nat, pid: int, dir: nat)
        returns (addr: nat, halted: bool, ghost mid: seq<Block>)
      requires Valid() && TableLive() && state != SNOW_MM && state != SNOW_BASE
      modifies this
      ensures physSize == old(physSize)
      ensures size == 0 || state == SNOW_FREE ==>
                addr == 0 && Valid() && TableLive() && mid == View() == old(View()) && table == old(table)
                  && parts == old(parts)
      ensures halted <==> old(TableStuck()) && size > 0 && state != SNOW_FREE
      ensures !halted ==> Valid() && TableLive()
      ensures !halted && table == old(table) ==> mid == old(View())
      ensures !halted && table != old(table) ==> Relocated(old(View()), mid, old(table), table, |parts|, physSize)
      ensures !halted && size > 0 && state != SNOW_FREE ==>
                Allocated(mid, View(), addr, NewBlock(addr, size, state, pid, dir), align, physSize)
      ensures !halted && size > 0 && state != SNOW_FREE ==>
                && (table != old(table) <==> old(|parts| <= |chain| + 4))
                && |parts| == old(|parts|) + if old(|parts| <= |chain| + 4) then GROW_SIZE else 0
    {
      hide Blocks, Ordered, Threaded, Inserted, Fits, NoFit, LowestFit, Replaced;
      mid := View();
      if size == 0 || state == SNOW_FREE { return 0, false, mid; }
      halted := Dynamize();
      if halted { return 0, true, mid; }
      mid := View();
      instanceCount := instanceCount + 1;
      ghost var k;
      addr, k := Place(size, state, align, pid, dir);
      if addr != 0 { InsertMembers(mid, k, NewBlock(addr, size, state, pid, dir)); }
      instanceCount := instanceCount - 1;
    }

    // Plain memory belongs to the current process, that of arguments to the process `align` names, if it
    // names one, all other kinds to the kernel.
    method MemAlloc(size: nat, state: nat, align: nat, current: int)
        returns (addr: nat, halted: bool, ghost mid: seq<Block>)
      requires Valid() && TableLive() && state != SNOW_MM
      modifies this
      ensures physSize == old(physSize)
      ensures size == 0 || state in {SNOW_FREE, SNOW_BASE, SNOW_SCUBA} ==>
                addr == 0 && Valid() && TableLive() && mid == View() == old(View())
      ensures halted <==> old(TableStuck()) && size > 0 && state !in {SNOW_FREE, SNOW_BASE, SNOW_SCUBA}
      ensures !halted ==> Valid() && TableLive()
      ensures !halted && table == old(table) ==> mid == old(View())
      ensures !halted && table != old(table) ==> Relocated(old(View()), mid, old(table), table, |parts|, physSize)
      ensures !halted && size > 0 && state !in {SNOW_FREE, SNOW_BASE, SNOW_SCUBA} ==>
                exists pid ::
                  && Allocated(mid, View(), addr, Block(addr, size, state, 0, pid),
                               if state == SNOW_ARGS then 0 else align, physSize)
                  && (state == SNOW_SIMPLE || (state == SNOW_ARGS && align == 0) ==> pid == current)
                  && (state == SNOW_ARGS && align != 0 ==> pid == align)
                  && (state != SNOW_SIMPLE && state != SNOW_ARGS ==> pid == 0)
    {
      hide ChainOk, Relocated, Allocated, NoFit;
      if state == SNOW_BASE || state == SNOW_SCUBA { return 0, false, View(); }
      var pid, useAlign := 0, align;
      if state == SNOW_SIMPLE {
        pid := current;
      } else if state == SNOW_ARGS {
        pid := if align != 0 then align else current;
        useAlign := 0;
      }
      addr, halted, mid := AllocFunc(size, state, useAlign, pid, 0);
    }

    method MemAllocDir(size: nat, align: nat, pid: int, dir: nat)
        returns (addr: nat, halted: bool, ghost mid: seq<Block>)
      requires Valid() && TableLive()
      modifies this
      ensures physSize == old(physSize)
      ensures size == 0 ==>
                addr == 0 && Valid() && TableLive() && mid == View() == old(View()) && table == old(table)
                  && parts == old(parts)
      ensures halted <==> old(TableStuck()) && size > 0
      ensures !halted ==> Valid() && TableLive()
      ensures !halted && table == old(table) ==> mid == old(View())
      ensures !halted && table != old(table) ==> Relocated(old(View()), mid, old(table), table, |parts|, physSize)
      ensures !halted && size > 0 ==>
                Allocated(mid, View(), addr, NewBlock(addr, size, SNOW_SCUBA, pid, dir), align, physSize)
      ensures !halted && size > 0 ==>
                && (table != old(table) <==> old(|parts| <= |chain| + 4))
                && |parts| == old(|parts|) + if old(|parts| <= |chain| + 4) then GROW_SIZE else 0
    {
      addr, halted, mid := AllocFunc(size, SNOW_SCUBA, align, pid, dir);
    }

    // mem_init on `memory` bytes: the base block, then the table right above it.
    method MemInit(memory: nat) returns (halted: bool)
      modifies this
      ensures physSize == if memory > SCUBA_MAP_MAX then SCUBA_MAP_MAX else memory
      ensures halted <==> physSize < MEM_BASE_ADDR + 1 + PART_BYTES * PARTS_COUNT
      ensures !halted ==> Valid() && TableLive() && table == MEM_BASE_ADDR + 1
                          && View() == [BaseBlock(), TableBlock(table, PARTS_COUNT)]
    {
      hide Ordered, Threaded, Inserted, Fits;
      allocCount, freeCount, instanceCount := 0, 0, 0;
      physSize := if memory > SCUBA_MAP_MAX then SCUBA_MAP_MAX else memory;
      table := MEM_BASE_ADDR + 1;
      parts := seq(PARTS_COUNT, i => if i == 0 then Part(1, 1, MEM_BASE_ADDR, SNOW_BASE, 0, 0)
                   else Part(0, 0, 0, SNOW_FREE, 0, 0));
      chain, tail := [0], 1;
      FirstList(parts, physSize);
      var addr, k := Place(PART_BYTES * PARTS_COUNT, SNOW_MM, 0, 0, 0);
      FirstFit(addr, PART_BYTES * PARTS_COUNT, physSize);
      halted := addr != table;
      if !halted { SecondBlock(k, TableBlock(table, PARTS_COUNT)); }
    }

    // The walk that frees what matches, going on from each freed slot by its old link.
    method FreeWhere(v: Victims) returns (count: nat)
      requires Valid()
      modifies this`parts, this`chain, this`freeCount, this`instanceCount
      ensures Valid() && |parts| == old(|parts|)
      ensures View() == Kept(old(View()), v)
      ensures count == old(|chain|) - |chain| && freeCount == old(freeCount) + count
    {
      hide Ordered, Threaded, Kept, Removed, Absent, Blocks, WalkAt, Matches, Allocator.Walking;
      ghost var bs := View();
      ghost var j: nat := 0;
      ghost var k: nat := 0;
      var index: nat := 0;
      count := 0;
      StartWalk(v);
      while parts[index].state != SNOW_FREE
        invariant Valid() && |parts| == old(|parts|) && physSize == old(physSize)
        invariant index < |parts| && j <= |bs| && Walking(v, bs, index, j, k)
        invariant count == old(|chain|) - |chain| && freeCount == old(freeCount) + count
        decreases |bs| - j
      {
        var freed;
        freed, index, k := Visit(v, index, bs, j, k);
        count := count + if freed then 1 else 0;
        j := j + 1;
      }
      EndWalk(v, bs, index, j, k);
    }

    // The walk stands at `index`: the k-th block of the list, the j-th of the one it started with.
    ghost predicate Walking(v: Victims, bs: seq<Block>, index: nat, j: nat, k: nat)
      requires Valid()
      reads this
    {
      k <= |chain| && index == At(chain, tail, k) && WalkAt(View(), bs, v, j, k)
    }

    lemma StartWalk(v: Victims)
      requires Valid()
      ensures 0 < |parts| && Walking(v, View(), 0, 0, 0)
    {
      hide Ordered, Threaded, Kept, Blocks, WalkAt, Matches;
      WalkStart(View(), v);
      AtStart(parts, chain, tail);
    }

    lemma EndWalk(v: Victims, bs: seq<Block>, index: nat, j: nat, k: nat)
      requires Valid() && Walking(v, bs, index, j, k) && index < |parts| && parts[index].state == SNOW_FREE
      ensures View() == Kept(bs, v)
    {
      hide Ordered, Threaded, Kept, Blocks, WalkAt, Matches;
      AtUsed(parts, chain, tail, k);
      WalkEnds(View(), bs, v, j, k);
    }

    // One slot of that walk.
    method Visit(v: Victims, index: nat, ghost bs: seq<Block>, ghost j: nat, ghost k: nat)
        returns (freed: bool, next: nat, ghost k': nat)
      requires Valid() && Walking(v, bs, index, j, k) && index < |parts| && parts[index].state != SNOW_FREE
      modifies this`parts, this`chain, this`freeCount, this`instanceCount
      ensures Valid() && |parts| == old(|parts|)
      ensures |chain| == old(|chain|) - (if freed then 1 else 0) && freeCount == old(freeCount) + if freed then 1 else 0
      ensures next < |parts| && j < |bs| && Walking(v, bs, next, j + 1, k')
    {
      hide Ordered, Threaded, Kept, Removed, Absent, Blocks, WalkAt, Matches;
      ghost var view := View();
      AtUsed(parts, chain, tail, k);
      WalkInside(view, bs, v, j, k);
      ThreadedInTable(parts, chain, tail);
      ViewAt(parts, chain, k);
      NextSlot(parts, chain, tail, k);
      freed, k' := false, k + 1;
      if Matches(v, AsBlock(parts[index])) {
        var ret, m := FreeAddr(parts[index].addr);
        if ret == 0 {
          freed, k' := true, k;
          SameAddr(view, m, k, physSize);
          WalkFreed(view, bs, v, j, k);
          RemovedAt(old(chain), k);
        } else {
          WalkStays(view, bs, v, j, k);
        }
      } else {
        WalkKept(view, bs, v, j, k);
      }
      next := parts[index].next;
      AtUsed(parts, chain, tail, k');
    }

    method FreeAll(pid: int, state: nat) returns (ret: int)
      requires Valid() && TableLive()
      modifies this`parts, this`chain, this`freeCount, this`instanceCount
      ensures Valid() && TableLive()
      ensures pid == 0 ==> ret == -1 && View() == old(View())
      ensures pid != 0 ==> ret == old(|chain|) - |chain| && View() == Kept(old(View()), OfProcess(pid, state))
      ensures pid != 0 ==> forall b :: b in View() <==>
                b in old(View()) && (b == old(View())[0] || b.pid != pid || (state == 0 && b.state == SNOW_SCUBA)
                                     || (state != 0 && b.state != state))
    {
      hide Ordered, Threaded, Blocks, Kept;
      if pid == 0 { return -1; }
      ret := FreeWhere(OfProcess(pid, state));
      KeptMembers(old(View()), OfProcess(pid, state));
      TableKept(old(View()), OfProcess(pid, state), table, |parts|);
    }

    method FreeDir(dir: nat) returns (count: nat)
      requires Valid() && TableLive()
      modifies this`parts, this`chain, this`freeCount, this`instanceCount
      ensures Valid() && (dir != 0 ==> TableLive())
      ensures count == old(|chain|) - |chain| && View() == Kept(old(View()), OfDir(dir))
      ensures forall b :: b in View() <==> b in old(View()) && (b == old(View())[0] || b.dir != dir)
    {
      hide Ordered, Threaded, Blocks, Kept;
      count := FreeWhere(OfDir(dir));
      KeptMembers(old(View()), OfDir(dir));
      if dir != 0 { TableKept(old(View()), OfDir(dir), table, |parts|); }
    }
  }

  lemma BaseFirst(bs: seq<Block>, phys: nat)
    requires Ordered(bs, phys)
    ensures |bs| >= 1
  {
  }

  lemma IndexIsTail(parts: seq<Part>, chain: seq<nat>, tail: nat, k: nat, index: nat)
    requires Threaded(parts, chain, tail) && k < |chain| && parts[chain[k]].next == index
    requires index < |parts| && parts[index].state == SNOW_FREE
    ensures k == |chain| - 1 && index == tail
  {
    NextSlot(parts, chain, tail, k);
  }

  function NewBlock(addr: nat, size: nat, state: nat, pid: int, dir: nat): Block { Block(addr, size, state, dir, pid) }

  ghost predicate Ordinary(b: Block) { b.size > 0 && b.state != SNOW_BASE && b.state != SNOW_FREE }

  ghost predicate CanAppend(bs: seq<Block>, b: Block, phys: nat) {
    |bs| >= 1 && Ordinary(b) && bs[|bs| - 1].addr + bs[|bs| - 1].size <= b.addr && b.addr + b.size <= phys
  }

  ghost predicate CanInsert(bs: seq<Block>, k: nat, b: Block) {
    1 <= k < |bs| && Ordinary(b) && bs[k - 1].addr + bs[k - 1].size <= b.addr && b.addr + b.size <= bs[k].addr
  }

  lemma StillSpare(before: seq<Part>, after: seq<Part>, tail: nat)
    requires tail < |before| == |after| && exists i: nat :: i < |before| && before[i].state == SNOW_FREE && i != tail
    requires forall i :: 0 <= i < |before| && i != tail ==> after[i] == before[i]
    ensures exists i: nat :: i < |after| && after[i].state == SNOW_FREE && i != -1
  {
  }

  lemma AppendOk(parts: seq<Part>, chain: seq<nat>, tail: nat, parts': seq<Part>, t: nat, b: Block, phys: nat)
    requires ChainOk(parts, chain, tail, phys) && CanAppend(Blocks(parts, chain), b, phys)
    requires t < |parts| && t != tail && parts[t].state == SNOW_FREE
    requires parts' == parts[tail := Part(t, b.size, b.addr, b.state, b.dir, b.pid)]
    ensures ChainOk(parts', chain + [tail], t, phys)
    ensures Blocks(parts', chain + [tail]) == Inserted(Blocks(parts, chain), |chain|, b)
  {
    hide Ordered, Threaded, Blocks, Inserted;
    AppendThreads(parts, chain, tail, parts', Part(t, b.size, b.addr, b.state, b.dir, b.pid));
    InsertAtEnd(Blocks(parts, chain), b);
    InsertOrders(Blocks(parts, chain), |chain|, b, phys);
  }

  lemma InsertAtEnd(bs: seq<Block>, b: Block)
    ensures bs + [b] == Inserted(bs, |bs|, b)
  {
  }

  lemma ViewSize(parts: seq<Part>, chain: seq<nat>)
    requires InTable(parts, chain)
    ensures |Blocks(parts, chain)| == |chain|
  {
  }

  lemma InsertOk(parts: seq<Part>, chain: seq<nat>, tail: nat, parts': seq<Part>, k: nat, n: nat, b: Block, phys: nat)
    requires ChainOk(parts, chain, tail, phys) && CanInsert(Blocks(parts, chain), k, b)
    requires n < |parts| && n != tail && parts[n].state == SNOW_FREE && k < |chain|
    requires var p := Part(chain[k], b.size, b.addr, b.state, b.dir, b.pid);
             parts' == parts[chain[k - 1] := parts[chain[k - 1]].(next := n)][n := p]
    ensures ChainOk(parts', Inserted(chain, k, n), tail, phys)
    ensures Blocks(parts', Inserted(chain, k, n)) == Inserted(Blocks(parts, chain), k, b)
  {
    hide Ordered, Threaded, Blocks, Inserted;
    InsertThreads(parts, chain, tail, parts', k, n, Part(chain[k], b.size, b.addr, b.state, b.dir, b.pid));
    InsertOrders(Blocks(parts, chain), k, b, phys);
  }

  lemma InsertMembers(bs: seq<Block>, k: nat, x: Block)
    requires k <= |bs|
    ensures forall b :: b in Inserted(bs, k, x) <==> b in bs || b == x
  {
  }

  // Addresses are distinct, so one block goes.
  lemma RemoveMembers(bs: seq<Block>, k: nat, phys: nat)
    requires Ordered(bs, phys) && 1 <= k < |bs|
    ensures forall b :: b in Removed(bs, k) <==> b in bs && b.addr != bs[k].addr
  {
  }

  // No block but the base one starts at addr.
  ghost predicate Absent(bs: seq<Block>, addr: nat) {
    forall j :: 1 <= j < |bs| ==> bs[j].addr != addr
  }

  lemma AbsentStart(bs: seq<Block>, addr: nat)
    ensures Absent(bs[..0], addr)
  {
  }

  lemma AbsentNext(bs: seq<Block>, k: nat, addr: nat)
    requires k < |bs| && Absent(bs[..k], addr) && (k == 0 || bs[k].addr != addr)
    ensures Absent(bs[..k + 1], addr)
  {
  }

  lemma TableStays(bs: seq<Block>, k: nat, b: Block, phys: nat)
    requires Ordered(bs, phys) && 1 <= k < |bs|
    ensures b in bs && b.addr != bs[k].addr ==> b in Removed(bs, k)
  {
  }

  lemma NotBase(bs: seq<Block>, k: nat, phys: nat)
    requires Ordered(bs, phys) && 1 <= k < |bs|
    ensures bs[k].state != SNOW_BASE
  {
  }

  lemma FitsElsewhere(bs: seq<Block>, addr: nat, size: nat, phys: nat, b: Block)
    requires LowestFit(bs, addr, size, 0, phys) && b in bs && b.size > 0 && size > 0
    ensures addr != b.addr
  {
  }

  lemma OldTableFound(bs: seq<Block>, addr: nat, slots: nat, phys: nat)
    requires Ordered(bs, phys) && TableBlock(addr, slots) in bs
    ensures !Absent(bs, addr)
  {
  }

  lemma GrowOk(parts: seq<Part>, chain: seq<nat>, tail: nat, more: seq<Part>, phys: nat)
    requires ChainOk(parts, chain, tail, phys) && forall i :: 0 <= i < |more| ==> more[i].state == SNOW_FREE
    ensures ChainOk(parts + more, chain, tail, phys) && Blocks(parts + more, chain) == Blocks(parts, chain)
  {
    hide Ordered, Blocks, Threaded;
    GrowThreads(parts, chain, tail, more);
  }

  lemma RemoveOk(parts: seq<Part>, chain: seq<nat>, tail: nat, parts': seq<Part>, k: nat, phys: nat)
    requires ChainOk(parts, chain, tail, phys) && 1 <= k < |chain|
    requires parts' == parts[chain[k - 1] := parts[chain[k - 1]].(next := parts[chain[k]].next)]
                            [chain[k] := parts[chain[k]].(state := SNOW_FREE)]
    ensures ChainOk(parts', Removed(chain, k), tail, phys)
    ensures Blocks(parts', Removed(chain, k)) == Removed(Blocks(parts, chain), k)
  {
    hide Ordered, Threaded, Blocks, Removed;
    RemoveThreads(parts, chain, tail, parts', k);
    RemoveOrders(Blocks(parts, chain), k, phys);
  }

  ghost function FreeUpTo(parts: seq<Part>, n: nat): set<nat> {
    set i: nat | i < n && i < |parts| && parts[i].state == SNOW_FREE
  }

  lemma FreeUpToNext(parts: seq<Part>, n: nat)
    requires n < |parts|
    ensures |FreeUpTo(parts, n + 1)| == |FreeUpTo(parts, n)| + if parts[n].state == SNOW_FREE then 1 else 0
    ensures FreeUpTo(parts, 0) == {}
  {
    assert FreeUpTo(parts, n + 1) == if parts[n].state == SNOW_FREE then FreeUpTo(parts, n) + {n}
           else FreeUpTo(parts, n);
  }

  lemma FreeUpToAll(parts: seq<Part>, n: nat)
    requires n <= |parts|
    ensures |FreeUpTo(parts, n)| <= |FreeSlots(parts)|
    ensures n == |parts| ==> FreeUpTo(parts, n) == FreeSlots(parts)
  {
    SubsetSize(FreeUpTo(parts, n), FreeSlots(parts));
  }

  function BaseBlock(): Block { Block(MEM_BASE_ADDR, 1, SNOW_BASE, 0, 0) }

  // The table's block moved to the lowest place for a larger one, every other block staying.
  ghost predicate Relocated(bs: seq<Block>, bs': seq<Block>, from: nat, to: nat, slots: nat, phys: nat) {
    LowestFit(bs, to, PART_BYTES * slots, 0, phys) && Replaced(bs, bs', from, TableBlock(to, slots))
  }

  // First fit is lowest fit, and fails exactly when nothing fits.
  ghost predicate Allocated(bs: seq<Block>, bs': seq<Block>, addr: nat, b: Block, align: nat, phys: nat) {
    if addr == 0 then bs' == bs && NoFit(bs, b.size, align, phys)
    else LowestFit(bs, addr, b.size, align, phys) && forall x :: x in bs' <==> x in bs || x == b
  }

  // --------------------------------------------------- freeing while walking the list

  function At(chain: seq<nat>, tail: nat, k: nat): nat
    requires k <= |chain|
  {
    if k < |chain| then chain[k] else tail
  }

  // Before block j of the original list: the survivors so far, then the rest.
  ghost predicate WalkAt(view: seq<Block>, bs: seq<Block>, v: Victims, j: nat, k: nat) {
    j <= |bs| && k == |Kept(bs[..j], v)| && view == Kept(bs[..j], v) + bs[j..]
  }

  lemma KeptNext(bs: seq<Block>, v: Victims, j: nat)
    requires j < |bs|
    ensures Kept(bs[..j + 1], v) == if j > 0 && Matches(v, bs[j]) then Kept(bs[..j], v) else Kept(bs[..j], v) + [bs[j]]
  {
    assert bs[..j + 1][..j] == bs[..j];
    if j == 0 { assert bs[..1] == [bs[0]]; }
  }

  lemma WalkStart(bs: seq<Block>, v: Victims)
    ensures WalkAt(bs, bs, v, 0, 0)
  {
  }

  lemma WalkEnds(view: seq<Block>, bs: seq<Block>, v: Victims, j: nat, k: nat)
    requires WalkAt(view, bs, v, j, k) && k == |view|
    ensures view == Kept(bs, v)
  {
    assert bs[..j] == bs;
  }

  lemma WalkInside(view: seq<Block>, bs: seq<Block>, v: Victims, j: nat, k: nat)
    requires WalkAt(view, bs, v, j, k) && k < |view|
    ensures j < |bs| && view[k] == bs[j] && (k == 0 <==> j == 0)
  {
  }

  lemma WalkKept(view: seq<Block>, bs: seq<Block>, v: Victims, j: nat, k: nat)
    requires WalkAt(view, bs, v, j, k) && j < |bs| && k < |view| && (j == 0 || !Matches(v, view[k]))
    ensures WalkAt(view, bs, v, j + 1, k + 1)
  {
    hide Kept;
    KeptNext(bs, v, j);
  }

  // Only the base block has its address twice refused.
  lemma WalkStays(view: seq<Block>, bs: seq<Block>, v: Victims, j: nat, k: nat)
    requires WalkAt(view, bs, v, j, k) && j < |bs| && k < |view| && Absent(view, view[k].addr)
    ensures WalkAt(view, bs, v, j + 1, k + 1)
  {
  }

  lemma WalkFreed(view: seq<Block>, bs: seq<Block>, v: Victims, j: nat, k: nat)
    requires WalkAt(view, bs, v, j, k) && j < |bs| && 1 <= k < |view| && Matches(v, view[k])
    ensures WalkAt(Removed(view, k), bs, v, j + 1, k)
  {
    hide Kept;
    KeptNext(bs, v, j);
  }

  lemma SameAddr(bs: seq<Block>, m: nat, k: nat, phys: nat)
    requires Ordered(bs, phys) && 1 <= m < |bs| && k < |bs| && bs[m].addr == bs[k].addr
    ensures m == k
  {
  }

  lemma AtStart(parts: seq<Part>, chain: seq<nat>, tail: nat)
    requires Threaded(parts, chain, tail)
    ensures At(chain, tail, 0) == 0 < |parts|
  {
  }

  // A slot of the walk is in use exactly when the walk is not over.
  lemma AtUsed(parts: seq<Part>, chain: seq<nat>, tail: nat, k: nat)
    requires Threaded(parts, chain, tail) && k <= |chain|
    ensures At(chain, tail, k) < |parts| && (parts[At(chain, tail, k)].state != SNOW_FREE <==> k < |chain|)
  {
  }

  lemma NextSlot(parts: seq<Part>, chain: seq<nat>, tail: nat, k: nat)
    requires Threaded(parts, chain, tail) && k < |chain|
    ensures chain[k] < |parts| && parts[chain[k]].next == At(chain, tail, k + 1)
  {
  }

  lemma ViewAt(parts: seq<Part>, chain: seq<nat>, k: nat)
    requires InTable(parts, chain) && k < |chain|
    ensures |Blocks(parts, chain)| == |chain| && Blocks(parts, chain)[k] == AsBlock(parts[chain[k]])
  {
  }

  lemma {:induction false} KeptMembers(bs: seq<Block>, v: Victims)
    ensures forall b :: b in Kept(bs, v) <==> b in bs && (b == bs[0] || !Matches(v, b))
  {
    if |bs| <= 1 {
    } else {
      var n := |bs| - 1;
      KeptMembers(bs[..n], v);
    }
  }

  lemma TableKept(bs: seq<Block>, v: Victims, table: nat, slots: nat)
    requires TableBlock(table, slots) in bs && !Matches(v, TableBlock(table, slots))
    ensures TableBlock(table, slots) in Kept(bs, v)
  {
  }

  // ------------------------------------------------------------------ the first table

  lemma FirstList(parts: seq<Part>, phys: nat)
    requires |parts| == PARTS_COUNT && parts[0] == Part(1, 1, MEM_BASE_ADDR, SNOW_BASE, 0, 0)
    requires forall i :: 1 <= i < |parts| ==> parts[i].state == SNOW_FREE
    ensures ChainOk(parts, [0], 1, phys) && Blocks(parts, [0]) == [BaseBlock()]
  {
  }

  lemma FirstFit(addr: nat, size: nat, phys: nat)
    requires size > 0
    requires addr == 0 <==> NoFit([BaseBlock()], size, 0, phys)
    requires addr != 0 ==> LowestFit([BaseBlock()], addr, size, 0, phys)
    ensures addr == MEM_BASE_ADDR + 1 <==> MEM_BASE_ADDR + 1 + size <= phys
  {
    if MEM_BASE_ADDR + 1 + size <= phys {
      assert Fits([BaseBlock()], MEM_BASE_ADDR + 1, size, 0, phys);
    }
  }

  lemma SecondBlock(k: nat, b: Block)
    requires k == 1
    ensures Inserted([BaseBlock()], k, b) == [BaseBlock(), b]
  {
  }

  // The matching blocks above the base.
  ghost function Hits(bs: seq<Block>, v: Victims): set<nat> { set k: nat | 1 <= k < |bs| && Matches(v, bs[k]) }

  // What is freed is counted: one for each matching block above the base.
  lemma {:induction false} KeptCount(bs: seq<Block>, v: Victims)
    ensures |bs| - |Kept(bs, v)| == |Hits(bs, v)|
  {
    if |bs| <= 1 {
    } else {
      KeptCount(bs[..|bs| - 1], v);
      HitsNext(bs, v);
    }
  }

  lemma HitsNext(bs: seq<Block>, v: Victims)
    requires |bs| > 1
    ensures |Hits(bs, v)| == |Hits(bs[..|bs| - 1], v)| + if Matches(v, bs[|bs| - 1]) then 1 else 0
  {
    var n := |bs| - 1;
    var front := Hits(bs[..n], v);
    assert Hits(bs, v) == if Matches(v, bs[n]) then front + {n} else front;
  }

  // Members fix the whole list, so the statements about members above say all there is to say.
  lemma {:induction false} MembersDecide(a: seq<Block>, b: seq<Block>, phys: nat)
    requires Ordered(a, phys) && Ordered(b, phys) && forall x :: x in a <==> x in b
    ensures a == b
  {
    hide Ordered;
    SameLast(a, b, phys);
    var n, m := |a| - 1, |b| - 1;
    if n == 0 {
    } else {
      forall x ensures x in a[..n] <==> x in b[..m] {
        FrontMember(a, x, phys);
        FrontMember(b, x, phys);
      }
      FrontOrdered(a, phys);
      FrontOrdered(b, phys);
      MembersDecide(a[..n], b[..m], phys);
    }
  }

  lemma FrontOrdered(a: seq<Block>, phys: nat)
    requires Ordered(a, phys) && |a| > 1
    ensures Ordered(a[..|a| - 1], phys)
  {
  }

  lemma FrontMember(a: seq<Block>, x: Block, phys: nat)
    requires Ordered(a, phys)
    ensures x in a[..|a| - 1] <==> x in a && x != a[|a| - 1]
  {
  }

  lemma SameLast(a: seq<Block>, b: seq<Block>, phys: nat)
    requires Ordered(a, phys) && Ordered(b, phys) && forall x :: x in a <==> x in b
    ensures |a| > 0 && |b| > 0 && a[|a| - 1] == b[|b| - 1] && (|a| == 1 <==> |b| == 1)
  {
    var p, q := a[|a| - 1], b[|b| - 1];
    assert p in b && q in a;
    var i :| 0 <= i < |b| && b[i] == p;
    var j :| 0 <= j < |a| && a[j] == q;
  }
}
