/** The elementary changes of the block list, and why each keeps it threaded and ordered. */
module SnowSteps {
  import opened Lists
  import opened SnowState

  ghost predicate InTable(parts: seq<Part>, chain: seq<nat>) {
    forall k :: 0 <= k < |chain| ==> chain[k] < |parts|
  }

  // ------------------------------------------------------------------- threading

  // The tail slot becomes the last block, t the new tail.
  lemma AppendThreads(parts: seq<Part>, chain: seq<nat>, tail: nat, parts': seq<Part>, p: Part)
    requires Threaded(parts, chain, tail) && p.state != SNOW_FREE && parts' == parts[tail := p]
    requires p.next < |parts| && p.next != tail && parts[p.next].state == SNOW_FREE
    ensures Threaded(parts', chain + [tail], p.next)
    ensures InTable(parts, chain) && InTable(parts', chain + [tail])
    ensures Blocks(parts', chain + [tail]) == Blocks(parts, chain) + [AsBlock(p)]
  {
    var chain' := chain + [tail];
    assert tail !in chain;
    forall k | 0 <= k < |chain| ensures chain[k] != tail { assert chain[k] in chain; }
    forall i: nat | i < |parts'| && parts'[i].state != SNOW_FREE ensures i in chain' {
    }
    assert Blocks(parts', chain') == Blocks(parts, chain) + [AsBlock(p)];
  }

  // The last block is linked to another free slot.
  lemma RedirectThreads(parts: seq<Part>, chain: seq<nat>, tail: nat, parts': seq<Part>, t: nat)
    requires Threaded(parts, chain, tail) && t < |parts| && parts[t].state == SNOW_FREE
    requires parts' == parts[chain[|chain| - 1] := parts[chain[|chain| - 1]].(next := t)]
    ensures Threaded(parts', chain, t)
    ensures InTable(parts, chain) && InTable(parts', chain) && Blocks(parts', chain) == Blocks(parts, chain)
  {
  }

  ghost predicate ChainLinked(parts: seq<Part>, chain: seq<nat>, tail: nat) {
    && InTable(parts, chain) && |chain| >= 1 && chain[0] == 0
    && (forall k :: 0 <= k < |chain| ==> parts[chain[k]].state != SNOW_FREE)
    && (forall k :: 0 <= k < |chain| - 1 ==> parts[chain[k]].next == chain[k + 1])
    && parts[chain[|chain| - 1]].next == tail
  }

  lemma InsertKeepsNoDup(chain: seq<nat>, k: nat, n: nat)
    requires NoDup(chain) && k <= |chain| && n !in chain
    ensures NoDup(Inserted(chain, k, n))
  {
  }

  lemma RemoveKeepsNoDup(chain: seq<nat>, k: nat)
    requires NoDup(chain) && k < |chain|
    ensures NoDup(Removed(chain, k)) && chain[k] !in Removed(chain, k)
  {
  }

  lemma InsertCovers(chain: seq<nat>, k: nat, n: nat)
    requires k <= |chain|
    ensures forall i: nat :: i in Inserted(chain, k, n) <==> i in chain || i == n
  {
  }

  lemma RemoveCovers(chain: seq<nat>, k: nat)
    requires k < |chain|
    ensures forall i: nat :: i in chain <==> i in Removed(chain, k) || i == chain[k]
  {
  }

  // Slot n, free and not the tail, becomes block k.
  lemma InsertedParts(parts: seq<Part>, chain: seq<nat>, tail: nat, parts': seq<Part>, k: nat, n: nat, p: Part)
    requires Threaded(parts, chain, tail) && 1 <= k < |chain| && n < |parts| && n !in chain
    requires parts' == parts[chain[k - 1] := parts[chain[k - 1]].(next := n)][n := p]
    ensures forall j :: 0 <= j < |chain| && j != k - 1 ==> chain[j] != n && parts'[chain[j]] == parts[chain[j]]
    ensures chain[k - 1] != n && parts'[chain[k - 1]] == parts[chain[k - 1]].(next := n)
  {
  }

  lemma InsertLinks(parts: seq<Part>, chain: seq<nat>, tail: nat, parts': seq<Part>, k: nat, n: nat, p: Part)
    requires Threaded(parts, chain, tail) && 1 <= k < |chain| && n < |parts| && n !in chain
    requires p.state != SNOW_FREE && p.next == chain[k]
    requires parts' == parts[chain[k - 1] := parts[chain[k - 1]].(next := n)][n := p]
    ensures ChainLinked(parts', Inserted(chain, k, n), tail)
  {
    hide Inserted;
    InsertedAt(chain, k, n);
    InsertedParts(parts, chain, tail, parts', k, n, p);
  }

  lemma InsertView(parts: seq<Part>, chain: seq<nat>, tail: nat, parts': seq<Part>, k: nat, n: nat, p: Part)
    requires Threaded(parts, chain, tail) && 1 <= k < |chain| && n < |parts| && n !in chain
    requires parts' == parts[chain[k - 1] := parts[chain[k - 1]].(next := n)][n := p]
    requires InTable(parts', Inserted(chain, k, n))
    ensures Blocks(parts', Inserted(chain, k, n)) == Inserted(Blocks(parts, chain), k, AsBlock(p))
  {
  }

  lemma ThreadedInTable(parts: seq<Part>, chain: seq<nat>, tail: nat)
    requires Threaded(parts, chain, tail)
    ensures InTable(parts, chain)
  {
  }

  lemma InsertThreads(parts: seq<Part>, chain: seq<nat>, tail: nat, parts': seq<Part>, k: nat, n: nat, p: Part)
    requires Threaded(parts, chain, tail) && 1 <= k < |chain|
    requires n < |parts| && n != tail && parts[n].state == SNOW_FREE
    requires p.state != SNOW_FREE && p.next == chain[k]
    requires parts' == parts[chain[k - 1] := parts[chain[k - 1]].(next := n)][n := p]
    ensures Threaded(parts', Inserted(chain, k, n), tail)
    ensures InTable(parts, chain) && InTable(parts', Inserted(chain, k, n))
    ensures Blocks(parts', Inserted(chain, k, n)) == Inserted(Blocks(parts, chain), k, AsBlock(p))
  {
    hide Inserted, Blocks;
    assert tail !in chain;
    InsertKeepsNoDup(chain, k, n);
    InsertCovers(chain, k, n);
    InsertLinks(parts, chain, tail, parts', k, n, p);
    InsertView(parts, chain, tail, parts', k, n, p);
  }

  lemma RemoveLinks(parts: seq<Part>, chain: seq<nat>, tail: nat, parts': seq<Part>, k: nat)
    requires Threaded(parts, chain, tail) && 1 <= k < |chain|
    requires parts' == parts[chain[k - 1] := parts[chain[k - 1]].(next := parts[chain[k]].next)]
                            [chain[k] := parts[chain[k]].(state := SNOW_FREE)]
    ensures ChainLinked(parts', Removed(chain, k), tail)
  {
    hide Removed;
    RemovedAt(chain, k);
  }

  lemma RemoveView(parts: seq<Part>, chain: seq<nat>, tail: nat, parts': seq<Part>, k: nat)
    requires Threaded(parts, chain, tail) && 1 <= k < |chain| && InTable(parts, chain)
    requires parts' == parts[chain[k - 1] := parts[chain[k - 1]].(next := parts[chain[k]].next)]
                            [chain[k] := parts[chain[k]].(state := SNOW_FREE)]
    requires InTable(parts', Removed(chain, k))
    ensures Blocks(parts', Removed(chain, k)) == Removed(Blocks(parts, chain), k)
  {
  }

  lemma RemoveThreads(parts: seq<Part>, chain: seq<nat>, tail: nat, parts': seq<Part>, k: nat)
    requires Threaded(parts, chain, tail) && 1 <= k < |chain|
    requires parts' == parts[chain[k - 1] := parts[chain[k - 1]].(next := parts[chain[k]].next)]
                            [chain[k] := parts[chain[k]].(state := SNOW_FREE)]
    ensures Threaded(parts', Removed(chain, k), tail)
    ensures InTable(parts, chain) && InTable(parts', Removed(chain, k))
    ensures Blocks(parts', Removed(chain, k)) == Removed(Blocks(parts, chain), k)
  {
    hide Removed, Blocks;
    RemoveKeepsNoDup(chain, k);
    RemoveCovers(chain, k);
    RemoveLinks(parts, chain, tail, parts', k);
    RemoveView(parts, chain, tail, parts', k);
    assert chain[k] in chain && chain[k - 1] in chain && tail !in chain;
  }

  // The table is copied into a larger one, the rest being free.
  lemma GrowThreads(parts: seq<Part>, chain: seq<nat>, tail: nat, more: seq<Part>)
    requires Threaded(parts, chain, tail) && forall i :: 0 <= i < |more| ==> more[i].state == SNOW_FREE
    ensures Threaded(parts + more, chain, tail)
    ensures InTable(parts, chain) && InTable(parts + more, chain) && Blocks(parts + more, chain) == Blocks(parts, chain)
  {
  }

  // -------------------------------------------------------------------- ordering

  lemma InsertOrders(bs: seq<Block>, k: nat, b: Block, phys: nat)
    requires Ordered(bs, phys) && 1 <= k <= |bs| && b.size > 0 && b.state != SNOW_BASE && b.state != SNOW_FREE
    requires bs[k - 1].addr + bs[k - 1].size <= b.addr
    requires b.addr + b.size <= if k < |bs| then bs[k].addr else phys
    ensures Ordered(Inserted(bs, k, b), phys)
  {
    hide Inserted;
    InsertedAt(bs, k, b);
  }

  lemma RemoveOrders(bs: seq<Block>, k: nat, phys: nat)
    requires Ordered(bs, phys) && 1 <= k < |bs|
    ensures Ordered(Removed(bs, k), phys)
  {
  }

  // ------------------------------------------------------- the walk for a first fit

  // Where the walk stands before block k: everything below `last` has been ruled out.
  ghost predicate Ruled(bs: seq<Block>, k: nat, last: nat, size: nat, align: nat, phys: nat) {
    && k <= |bs|
    && last == (if k == 0 then MEM_BASE_ADDR else bs[k - 1].addr + bs[k - 1].size)
    && forall a: nat :: Fits(bs, a, size, align, phys) ==> a >= last
  }

  lemma RuledStart(bs: seq<Block>, size: nat, align: nat, phys: nat)
    ensures Ruled(bs, 0, MEM_BASE_ADDR, size, align, phys)
  {
  }

  lemma RuledStep(bs: seq<Block>, k: nat, last: nat, size: nat, align: nat, phys: nat)
    requires Ordered(bs, phys) && Ruled(bs, k, last, size, align, phys) && k < |bs| && size > 0
    requires !(bs[k].addr - last >= size + Gap(last, align) && last != MEM_BASE_ADDR)
    ensures Ruled(bs, k + 1, bs[k].addr + bs[k].size, size, align, phys)
  {
    GapIsLeast(last, align);
  }

  // The walk stops: at a hole before block k that is large enough ...
  lemma HoleFits(bs: seq<Block>, k: nat, last: nat, size: nat, align: nat, phys: nat)
    requires Ordered(bs, phys) && Ruled(bs, k, last, size, align, phys) && 1 <= k <= |bs| && size > 0
    requires last + Gap(last, align) + size <= if k < |bs| then bs[k].addr else phys
    ensures Fits(bs, last + Gap(last, align), size, align, phys)
    ensures forall a: nat :: Fits(bs, a, size, align, phys) ==> last + Gap(last, align) <= a
  {
    GapIsLeast(last, align);
    var c := last + Gap(last, align);
    forall j | 0 <= j < |bs| ensures c + size <= bs[j].addr || bs[j].addr + bs[j].size <= c {
      if j < k - 1 { assert bs[j].addr + bs[j].size <= bs[k - 1].addr; }
      if j > k { assert bs[k].addr + bs[k].size <= bs[j].addr; }
    }
  }

  // ... or at the end of memory, where nothing fits any more.
  lemma NothingFits(bs: seq<Block>, last: nat, size: nat, align: nat, phys: nat)
    requires Ordered(bs, phys) && Ruled(bs, |bs|, last, size, align, phys)
    requires last + size + Gap(last, align) > phys
    ensures forall a: nat :: !Fits(bs, a, size, align, phys)
  {
    GapIsLeast(last, align);
  }
}
