/** What a container is: a header, a chain of locators and a list of cores on one disk,
    and the byte array they stand for. */
module Containers {
  import opened Lists
  import opened Layout
  import opened VirtualDisk

  // Sector numbers of one container, in chain order.
  datatype Container = Container(head: nat, locas: seq<nat>, cores: seq<nat>, size: nat)

  ghost predicate Disjoint(s: seq<nat>, t: seq<nat>) {
    forall i, j :: 0 <= i < |s| && 0 <= j < |t| ==> s[i] != t[j]
  }

  ghost predicate Separate(locas: seq<nat>, cores: seq<nat>) {
    NoDup(locas) && NoDup(cores) && Disjoint(locas, cores)
  }

  ghost predicate Owns(c: Container, s: nat) {
    s == c.head || s in c.locas || s in c.cores
  }

  // A stored link names entry j of the list, or is null past its end.
  ghost predicate LinkTo(w: word, id: nat, list: seq<nat>, j: nat) {
    if j < |list| then list[j] < MAX_SECTORS && id < 256 && w == SidFormat(id, list[j]) else w == SID_NULL
  }

  ghost predicate LocaOk(s: Sector, id: nat, locas: seq<nat>, cores: seq<nat>, k: nat) {
    && Tag(s) == SF_LOCA
    && LinkTo(Last(s), id, locas, k + 1)
    && forall i :: 0 <= i < LINKS_IN_LOCA ==> LinkTo(Link(s, i), id, cores, LINKS_IN_LOCA * k + i)
  }

  // All locators but the last are full; the last may be empty.
  ghost predicate ShapeOk(locas: seq<nat>, cores: seq<nat>) {
    && |locas| >= 1
    && LINKS_IN_LOCA * (|locas| - 1) <= |cores| <= LINKS_IN_LOCA * |locas|
    && Separate(locas, cores)
  }

  // Locators `from` onwards, and their cores, are stored on the disk.
  ghost predicate ChainOk(d: Disk, id: nat, locas: seq<nat>, cores: seq<nat>, from: nat) {
    && |d.used| == |d.sectors|
    && ShapeOk(locas, cores)
    && (forall k :: from <= k < |locas| ==>
          InUse(d, locas[k]) && LocaOk(d.sectors[locas[k]], id, locas, cores, k))
    && (forall j :: LINKS_IN_LOCA * from <= j < |cores| ==>
          InUse(d, cores[j]) && Tag(d.sectors[cores[j]]) == SF_CORE)
  }

  ghost predicate HeadOk(s: Sector, id: nat, c: Container) {
    Tag(s) == SF_HEAD && SizeField(s) == c.size && LinkTo(Last(s), id, c.locas, 0)
  }

  ghost predicate ContainerOk(d: Disk, id: nat, c: Container) {
    && ChainOk(d, id, c.locas, c.cores, 0)
    && InUse(d, c.head) && c.head !in c.locas && c.head !in c.cores
    && HeadOk(d.sectors[c.head], id, c)
    && c.size <= BYTE_IN_CORE * |c.cores|
  }

  // ------------------------------------------------------------------ contents

  ghost predicate CoresIn(d: Disk, cores: seq<nat>) {
    forall j :: 0 <= j < |cores| ==> cores[j] < |d.sectors|
  }

  // Byte q of the payload: cores in order, skipping each core's identifier byte.
  ghost function ByteAt(d: Disk, cores: seq<nat>, q: nat): byte
    requires CoresIn(d, cores) && q < BYTE_IN_CORE * |cores|
  {
    d.sectors[cores[q / BYTE_IN_CORE]][1 + q % BYTE_IN_CORE]
  }

  ghost function Payload(d: Disk, cores: seq<nat>, n: nat): (bs: seq<byte>)
    requires CoresIn(d, cores) && n <= BYTE_IN_CORE * |cores|
    ensures |bs| == n
  {
    seq(n, q requires 0 <= q < n => ByteAt(d, cores, q))
  }

  // The byte array a container stands for.
  ghost function Content(d: Disk, id: nat, c: Container): (bs: seq<byte>)
    requires ContainerOk(d, id, c)
    ensures |bs| == c.size
  {
    Payload(d, c.cores, c.size)
  }

  // A container depends on nothing but the sectors it owns.
  lemma ContainerFrame(d: Disk, e: Disk, id: nat, c: Container)
    requires ContainerOk(d, id, c) && |e.used| == |e.sectors|
    requires forall s: nat :: Owns(c, s) ==> InUse(e, s) && e.sectors[s] == d.sectors[s]
    ensures ContainerOk(e, id, c)
    ensures Content(e, id, c) == Content(d, id, c)
  {
  }

  // --------------------------------------------------- many containers on a disk

  ghost predicate Apart(c1: Container, c2: Container) {
    forall s: nat :: !(Owns(c1, s) && Owns(c2, s))
  }

  ghost predicate Owned(cs: map<nat, Container>, s: nat) {
    exists h :: h in cs && Owns(cs[h], s)
  }

  ghost predicate NoLeak(d: Disk, cs: map<nat, Container>) {
    forall s: nat {:trigger Owned(cs, s)} :: InUse(d, s) ==> Owned(cs, s)
  }

  // Containers are well formed and pairwise disjoint, and own every used sector of the disk.
  ghost predicate FsOk(d: Disk, id: nat, cs: map<nat, Container>) {
    && DiskOk(d)
    && (forall h :: h in cs ==> cs[h].head == h && ContainerOk(d, id, cs[h]))
    && (forall h1, h2 :: h1 in cs && h2 in cs && h1 != h2 ==> Apart(cs[h1], cs[h2]))
    && NoLeak(d, cs)
  }

  // Nothing of the disk changed outside the sectors s with Owns(c, s) before or after,
  // which were c's own or unused.
  ghost predicate OnlyTouches(d: Disk, e: Disk, c: Container, c': Container) {
    && DiskOk(d) && DiskOk(e) && |d.used| <= |e.used|
    && (forall s: nat :: Owns(c', s) ==> InUse(e, s) && (Owns(c, s) || !InUse(d, s)))
    && (forall s: nat :: InUse(e, s) ==> Owns(c', s) || InUse(d, s))
    && (forall s: nat :: Owns(c, s) && !Owns(c', s) ==> !InUse(e, s))
    && (forall s: nat :: InUse(d, s) && !Owns(c, s) ==> InUse(e, s) && e.sectors[s] == d.sectors[s])
  }

  lemma OwnsUsed(d: Disk, id: nat, c: Container)
    requires ContainerOk(d, id, c)
    ensures forall s: nat :: Owns(c, s) ==> InUse(d, s)
  {
  }

  // Every container other than h0 is found again, byte for byte, after a step
  // that left alone the used sectors that h0 does not own.
  lemma OthersKept(d: Disk, e: Disk, id: nat, cs: map<nat, Container>, h0: nat)
    requires FsOk(d, id, cs) && DiskOk(e) && |d.used| <= |e.used|
    requires forall s: nat :: InUse(d, s) && !(h0 in cs && Owns(cs[h0], s)) ==>
               InUse(e, s) && e.sectors[s] == d.sectors[s]
    ensures forall h :: h in cs && h != h0 ==>
              ContainerOk(e, id, cs[h]) && Content(e, id, cs[h]) == Content(d, id, cs[h])
  {
    hide ContainerOk, Content, NoLeak;
    forall h | h in cs && h != h0
      ensures ContainerOk(e, id, cs[h]) && Content(e, id, cs[h]) == Content(d, id, cs[h])
    {
      OwnsUsed(d, id, cs[h]);
      ContainerFrame(d, e, id, cs[h]);
    }
  }

  // After putting c' in the place of its head, no used sector is left without an owner.
  lemma NoLeakAfterPut(d: Disk, e: Disk, cs: map<nat, Container>, c': Container)
    requires NoLeak(d, cs)
    requires forall s: nat :: InUse(e, s) ==> Owns(c', s) || (InUse(d, s) && !(c'.head in cs && Owns(cs[c'.head], s)))
    ensures NoLeak(e, cs[c'.head := c'])
  {
    var cs' := cs[c'.head := c'];
    forall s: nat | InUse(e, s) ensures Owned(cs', s) {
      if Owns(c', s) {
        assert c'.head in cs' && Owns(cs'[c'.head], s);
      } else {
        assert Owned(cs, s);
        var h :| h in cs && Owns(cs[h], s);
        assert h in cs' && cs'[h] == cs[h];
      }
    }
  }

  // Replacing one container keeps the file system sound and every other container's bytes.
  lemma ReplaceContainer(d: Disk, e: Disk, id: nat, cs: map<nat, Container>, c': Container)
    requires FsOk(d, id, cs) && c'.head in cs
    requires ContainerOk(e, id, c') && OnlyTouches(d, e, cs[c'.head], c')
    ensures FsOk(e, id, cs[c'.head := c'])
    ensures forall h :: h in cs && h != c'.head ==>
              ContainerOk(e, id, cs[h]) && Content(e, id, cs[h]) == Content(d, id, cs[h])
  {
    hide NoLeak, ContainerOk, Content, DiskOk;
    OthersKept(d, e, id, cs, c'.head);
    NoLeakAfterPut(d, e, cs, c');
    forall h | h in cs && h != c'.head ensures Apart(cs[h], c') && Apart(c', cs[h]) {
      OwnsUsed(d, id, cs[h]);
    }
  }

  lemma HeadIsNew(d: Disk, id: nat, cs: map<nat, Container>, c': Container)
    requires FsOk(d, id, cs) && forall s: nat :: Owns(c', s) ==> !InUse(d, s)
    ensures c'.head !in cs
  {
  }

  // Adding a container made of unused sectors.
  lemma AddContainer(d: Disk, e: Disk, id: nat, cs: map<nat, Container>, c': Container)
    requires FsOk(d, id, cs) && ContainerOk(e, id, c') && DiskOk(e) && |d.used| <= |e.used|
    requires forall s: nat :: Owns(c', s) ==> !InUse(d, s)
    requires forall s: nat :: InUse(e, s) <==> InUse(d, s) || Owns(c', s)
    requires forall s: nat :: InUse(d, s) ==> e.sectors[s] == d.sectors[s]
    ensures c'.head !in cs && FsOk(e, id, cs[c'.head := c'])
    ensures forall h :: h in cs ==> ContainerOk(e, id, cs[h]) && Content(e, id, cs[h]) == Content(d, id, cs[h])
  {
    hide NoLeak, ContainerOk, Content, DiskOk;
    HeadIsNew(d, id, cs, c');
    OthersKept(d, e, id, cs, c'.head);
    NoLeakAfterPut(d, e, cs, c');
    forall h | h in cs ensures Apart(cs[h], c') && Apart(c', cs[h]) {
      OwnsUsed(d, id, cs[h]);
    }
  }

  // Removing a container gives back exactly its sectors.
  lemma RemoveContainer(d: Disk, e: Disk, id: nat, cs: map<nat, Container>, h0: nat)
    requires FsOk(d, id, cs) && h0 in cs && DiskOk(e)
    requires |e.used| == |d.used| && forall s: nat :: InUse(e, s) <==> InUse(d, s) && !Owns(cs[h0], s)
    requires forall s: nat :: InUse(e, s) ==> e.sectors[s] == d.sectors[s]
    ensures FsOk(e, id, cs - {h0})
    ensures forall h :: h in cs && h != h0 ==>
              ContainerOk(e, id, cs[h]) && Content(e, id, cs[h]) == Content(d, id, cs[h])
  {
    hide NoLeak, ContainerOk, Content, DiskOk;
    NoLeakAfterRemove(d, e, cs, h0);
    OthersKept(d, e, id, cs, h0);
  }

  lemma NoLeakAfterRemove(d: Disk, e: Disk, cs: map<nat, Container>, h0: nat)
    requires NoLeak(d, cs) && h0 in cs && forall s: nat :: InUse(e, s) ==> InUse(d, s) && !Owns(cs[h0], s)
    ensures NoLeak(e, cs - {h0})
  {
    forall s: nat | InUse(e, s) ensures Owned(cs - {h0}, s) {
      assert Owned(cs, s);
      var h :| h in cs && Owns(cs[h], s);
      assert h in cs - {h0};
    }
  }
}
