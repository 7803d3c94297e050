/** What the headers of containers say about them, seen as a map from container heads to names. */
module Metadata {
  import opened Layout
  import opened VirtualDisk
  import opened Containers
  import CtrInit
  import CtrDelete

  ghost function Metas(d: Disk, id: nat, cs: map<nat, Container>): (m: map<nat, seq<byte>>)
    requires FsOk(d, id, cs)
    ensures m.Keys == cs.Keys && forall h :: h in cs ==> h < |d.sectors| && m[h] == Meta(d.sectors[h])
  {
    map h | h in cs :: Meta(d.sectors[h])
  }

  // A step that leaves alone the used sectors that h0 does not own leaves the other headers.
  lemma HeadersStay(d: Disk, e: Disk, id: nat, cs: map<nat, Container>, h0: nat)
    requires FsOk(d, id, cs)
    requires forall s: nat :: InUse(d, s) && !(h0 in cs && Owns(cs[h0], s)) ==>
               InUse(e, s) && e.sectors[s] == d.sectors[s]
    ensures forall h :: h in cs && h != h0 ==>
              h < |d.sectors| && h < |e.sectors| && Meta(e.sectors[h]) == Meta(d.sectors[h])
  {
    hide NoLeak, DiskOk, Meta;
    forall h | h in cs && h != h0
      ensures h < |d.sectors| && h < |e.sectors| && Meta(e.sectors[h]) == Meta(d.sectors[h])
    {
      HeadOwned(d, id, cs, h);
      if h0 in cs { assert Apart(cs[h], cs[h0]); }
    }
  }

  lemma HeadOwned(d: Disk, id: nat, cs: map<nat, Container>, h: nat)
    requires FsOk(d, id, cs) && h in cs
    ensures InUse(d, h) && Owns(cs[h], h)
  {
  }

  lemma MetasReplaced(d: Disk, e: Disk, id: nat, cs: map<nat, Container>, c': Container)
    requires FsOk(d, id, cs) && FsOk(e, id, cs[c'.head := c']) && c'.head in cs
    requires OnlyTouches(d, e, cs[c'.head], c')
    requires c'.head < |d.sectors| && c'.head < |e.sectors|
             && Meta(e.sectors[c'.head]) == Meta(d.sectors[c'.head])
    ensures Metas(e, id, cs[c'.head := c']) == Metas(d, id, cs)
  {
    hide FsOk, DiskOk, Meta;
    HeadersStay(d, e, id, cs, c'.head);
  }

  lemma MetasAdded(d: Disk, e: Disk, id: nat, cs: map<nat, Container>, c: Container)
    requires FsOk(d, id, cs) && FsOk(e, id, cs[c.head := c]) && c.head !in cs
    requires CtrInit.Allocated(d, e, [c.head] + c.locas) && c.head < |e.sectors|
    ensures Metas(e, id, cs[c.head := c]) == Metas(d, id, cs)[c.head := Meta(e.sectors[c.head])]
  {
    hide FsOk, DiskOk, Meta;
    HeadersStay(d, e, id, cs, c.head);
  }

  lemma MetasRemoved(d: Disk, e: Disk, id: nat, cs: map<nat, Container>, h: nat)
    requires FsOk(d, id, cs) && FsOk(e, id, cs - {h}) && h in cs && CtrDelete.Deleted(d, e, cs[h])
    ensures Metas(e, id, cs - {h}) == Metas(d, id, cs) - {h}
  {
    hide FsOk, DiskOk, Meta;
    HeadersStay(d, e, id, cs, h);
  }
}
