/** Reading and writing the bytes of a container (ctr_rw.c). */
module CtrRw {
  import opened Lists
  import opened Layout
  import opened VirtualDisk
  import opened Containers
  import opened CtrGrow
  import opened CtrSize
  import CtrDelete

  function Min(a: int, b: int): int { if a < b then a else b }
  function Max(a: int, b: int): int { if a > b then a else b }

  // Bytes off .. off + n of the payload of a list of cores.
  ghost function Slice(d: Disk, cores: seq<nat>, off: nat, n: nat): (bs: seq<byte>)
    requires CoresIn(d, cores) && off + n <= BYTE_IN_CORE * |cores|
    ensures |bs| == n
  {
    Payload(d, cores, off + n)[off..]
  }

  // e is d with bs written over the payload from off on; nothing outside the cores changed.
  ghost predicate Wrote(d: Disk, e: Disk, cores: seq<nat>, off: nat, bs: seq<byte>) {
    && CoresIn(d, cores) && off + |bs| <= BYTE_IN_CORE * |cores|
    && e.used == d.used && e.free == d.free && e.usedCount == d.usedCount && |e.sectors| == |d.sectors|
    && (forall s: nat :: s < |d.sectors| ==> Tag(e.sectors[s]) == Tag(d.sectors[s]))
    && (forall s: nat :: s < |d.sectors| && s !in cores ==> e.sectors[s] == d.sectors[s])
    && (forall q: nat :: q < BYTE_IN_CORE * |cores| ==>
          ByteAt(e, cores, q) == if off <= q < off + |bs| then bs[q - off] else ByteAt(d, cores, q))
  }

  // What has happened after n of the requested bytes.
  ghost predicate RwDone(d: Disk, e: Disk, cores: seq<nat>, b0: seq<byte>, b: seq<byte>, off: nat, n: nat,
                         isRead: bool) {
    && CoresIn(d, cores) && off + n <= BYTE_IN_CORE * |cores| && n <= |b0|
    && if isRead then e == d && b == Slice(d, cores, off, n) + b0[n..]
       else b == b0 && Wrote(d, e, cores, off, b0[..n])
  }

  lemma RwStart(d: Disk, cores: seq<nat>, b0: seq<byte>, off: nat, isRead: bool)
    requires CoresIn(d, cores) && off <= BYTE_IN_CORE * |cores|
    ensures RwDone(d, d, cores, b0, b0, off, 0, isRead)
  {
  }

  // One piece, inside core j.
  lemma ReadPiece(d: Disk, cores: seq<nat>, b0: seq<byte>, b: seq<byte>, off: nat, n: nat, j: nat, o: nat, m: nat)
    requires RwDone(d, d, cores, b0, b, off, n, true)
    requires j < |cores| && o + m <= BYTE_IN_CORE && off + n == BYTE_IN_CORE * j + o && n + m <= |b|
    ensures RwDone(d, d, cores, b0, Put(b, n, d.sectors[cores[j]][1 + o..1 + o + m]), off, n + m, true)
  {
  }

  lemma WritePiece(d: Disk, e: Disk, cores: seq<nat>, off: nat, bs: seq<byte>, j: nat, o: nat, piece: seq<byte>)
    requires Wrote(d, e, cores, off, bs) && NoDup(cores)
    requires j < |cores| && o + |piece| <= BYTE_IN_CORE && off + |bs| == BYTE_IN_CORE * j + o
    ensures Wrote(d, Written(e, cores[j], Put(e.sectors[cores[j]], 1 + o, piece)), cores, off, bs + piece)
  {
    var f := Written(e, cores[j], Put(e.sectors[cores[j]], 1 + o, piece));
    forall q: nat | q < BYTE_IN_CORE * |cores|
      ensures ByteAt(f, cores, q) == if off <= q < off + |bs + piece| then (bs + piece)[q - off]
              else ByteAt(d, cores, q)
    {
      WrittenByte(e, cores, j, o, piece, q);
    }
  }

  lemma WrittenByte(d: Disk, cores: seq<nat>, j: nat, o: nat, piece: seq<byte>, q: nat)
    requires CoresIn(d, cores) && NoDup(cores) && j < |cores| && o + |piece| <= BYTE_IN_CORE
    requires q < BYTE_IN_CORE * |cores|
    ensures var e := Written(d, cores[j], Put(d.sectors[cores[j]], 1 + o, piece));
            var at := BYTE_IN_CORE * j + o;
            ByteAt(e, cores, q) == if at <= q < at + |piece| then piece[q - at] else ByteAt(d, cores, q)
  {
  }

  // Either way, moving a piece between core j and the buffer advances the request by m bytes.
  lemma RwPiece(d: Disk, e: Disk, f: Disk, cores: seq<nat>, b0: seq<byte>, b: seq<byte>, b': seq<byte>,
                off: nat, n: nat, j: nat, o: nat, m: nat, isRead: bool)
    requires RwDone(d, e, cores, b0, b, off, n, isRead) && NoDup(cores)
    requires j < |cores| && o + m <= BYTE_IN_CORE && off + n == BYTE_IN_CORE * j + o && n + m <= |b|
    requires cores[j] < |e.sectors|
    requires if isRead then f == e && b' == Put(b, n, e.sectors[cores[j]][1 + o..1 + o + m])
             else b' == b && f == Written(e, cores[j], Put(e.sectors[cores[j]], 1 + o, b[n..n + m]))
    ensures RwDone(d, f, cores, b0, b', off, n + m, isRead)
  {
    hide Wrote, ByteAt, Put;
    if isRead {
      ReadPiece(d, cores, b0, b, off, n, j, o, m);
    } else {
      WritePiece(d, e, cores, off, b0[..n], j, o, b0[n..n + m]);
      assert b0[..n] + b0[n..n + m] == b0[..n + m];
    }
  }

  // fs_cnt_rw_core: `at` is where in buf the bytes go to or come from.
  method RwCore(disk: Vdisk, coreSid: word, buf: array<byte>, at: nat, offset: nat, size: nat, isRead: bool)
      returns (ret: int)
    requires disk.Valid() && disk.Within(coreSid) && at + size <= buf.Length
    modifies disk, buf
    ensures disk.Valid()
    ensures var d := old(disk.View());
            var s := SidSector(coreSid);
            var n := Min(size, BYTE_IN_CORE - offset);
            if offset >= BYTE_IN_CORE || SidDisk(coreSid) != disk.id || !InUse(d, s) || Tag(d.sectors[s]) != SF_CORE
            then ret == -1 && disk.View() == d && buf[..] == old(buf[..])
            else
              && ret == n + offset
              && (isRead ==>
                  disk.View() == d && buf[..] == Put(old(buf[..]), at, d.sectors[s][1 + offset..1 + offset + n]))
              && (!isRead ==> buf[..] == old(buf[..]) &&
                              disk.View() == Written(d, s, Put(d.sectors[s], 1 + offset, old(buf[at..at + n]))))
  {
    hide DiskOk;
    if offset >= BYTE_IN_CORE {
      return -1;
    }
    if SidDisk(coreSid) != disk.id {
      return -1;
    }
    var inUse := disk.IsSectorUsed(coreSid);
    if !inUse {
      return -1;
    }
    var ok, data := disk.LoadSector(coreSid);
    if Tag(data) != SF_CORE {
      return -1;
    }
    var n := Min(size, BYTE_IN_CORE - offset);
    var from := offset + 1;
    if !isRead {
      data := Put(data, from, buf[at..at + n]);
      var _ := disk.WriteSector(coreSid, data);
    } else {
      forall t | 0 <= t < n {
        buf[at + t] := data[from + t];
      }
      assert buf[..] == Put(old(buf[..]), at, data[from..from + n]);
    }
    return n + from - 1;
  }

  // The request fits the chain and `index` is where it stands when core j comes up: either done,
  // or core j starts `index` bytes after the start of the request (before it when negative).
  ghost predicate RwAt(cores: seq<nat>, offset: nat, size: nat, index: int, j: nat) {
    && offset + size <= BYTE_IN_CORE * |cores|
    && index <= size
    && (index == size || index == BYTE_IN_CORE * j - offset)
  }

  lemma CoreLink(d: Disk, data: Sector, id: nat, locas: seq<nat>, cores: seq<nat>, k: nat, i: nat)
    requires ChainOk(d, id, locas, cores, 0) && LocaOk(data, id, locas, cores, k) && i < LINKS_IN_LOCA && 0 < id < 256
    requires LINKS_IN_LOCA * k + i < |cores|
    ensures var s := CtrDelete.CoreAt(cores, k, i); var w := Link(data, i);
            && w != SID_NULL && SidSector(w) == s && SidDisk(w) == id
            && InUse(d, s) && Tag(d.sectors[s]) == SF_CORE && NoDup(cores)
  {
    CountLinks(data, id, locas, cores, k, i);
  }

  // A chain is still stored after bytes were written to its cores.
  lemma ChainAfterWrote(d: Disk, e: Disk, id: nat, locas: seq<nat>, cores: seq<nat>, off: nat, bs: seq<byte>)
    requires DiskOk(d) && ChainOk(d, id, locas, cores, 0) && Wrote(d, e, cores, off, bs)
    ensures DiskOk(e) && ChainOk(e, id, locas, cores, 0)
    ensures forall s: nat :: InUse(e, s) <==> InUse(d, s)
  {
    hide LocaOk;
    assert UsedSet(e) == UsedSet(d);
  }

  lemma RwStored(d: Disk, e: Disk, id: nat, locas: seq<nat>, cores: seq<nat>,
                 b0: seq<byte>, b: seq<byte>, off: nat, n: nat, isRead: bool)
    requires DiskOk(d) && ChainOk(d, id, locas, cores, 0) && RwDone(d, e, cores, b0, b, off, n, isRead)
    ensures DiskOk(e) && ChainOk(e, id, locas, cores, 0) && |b| == |b0|
  {
    hide DiskOk, ChainOk, Wrote;
    if !isRead {
      ChainAfterWrote(d, e, id, locas, cores, off, b0[..n]);
    }
  }

  lemma RwIndex(cores: seq<nat>, offset: nat, size: nat, index: int, j: nat)
    requires RwAt(cores, offset, size, index, j) && index < size && index + BYTE_IN_CORE > 0
    ensures j < |cores|
    ensures offset + Max(index, 0) == BYTE_IN_CORE * j + Max(0, -index)
    ensures var m := Min(size - Max(index, 0), BYTE_IN_CORE - Max(0, -index));
            && 0 <= m && RwAt(cores, offset, size, index + m + Max(0, -index), j + 1)
            && Max(index + m + Max(0, -index), 0) == Max(index, 0) + m
  {
  }

  // One core of the inner loop.
  method RwLink(disk: Vdisk, data: Sector, i: nat, buf: array<byte>, index: int, size: nat, isRead: bool,
                ghost d: Disk, ghost locas: seq<nat>, ghost cores: seq<nat>, ghost k: nat, ghost b0: seq<byte>,
                    ghost offset: nat)
    returns (ret: int, index': int)
    requires disk.Valid() && i < LINKS_IN_LOCA && size <= buf.Length
    requires DiskOk(d) && ChainOk(d, disk.id, locas, cores, 0) && LocaOk(data, disk.id, locas, cores, k)
    requires RwAt(cores, offset, size, index, LINKS_IN_LOCA * k + i) && index < size && index + BYTE_IN_CORE > 0
    requires RwDone(d, disk.View(), cores, b0, buf[..], offset, Max(index, 0), isRead)
    modifies disk, buf
    ensures disk.Valid() && ret == 0
    ensures RwAt(cores, offset, size, index', LINKS_IN_LOCA * k + i + 1)
    ensures RwDone(d, disk.View(), cores, b0, buf[..], offset, Max(index', 0), isRead)
  {
    hide DiskOk, ChainOk, LocaOk, RwDone;
    ghost var e := disk.View();
    ghost var j := LINKS_IN_LOCA * k + i;
    ghost var b := buf[..];
    index' := index;
    RwStored(d, e, disk.id, locas, cores, b0, b, offset, Max(index, 0), isRead);
    RwIndex(cores, offset, size, index, j);
    CoreLink(e, data, disk.id, locas, cores, k, i);
    var coreSid := Link(data, i);
    if coreSid == SID_NULL {
      return 1, index';
    }
    var tmp := RwCore(disk, coreSid, buf, Max(index, 0), Max(0, -index), size - Max(index, 0), isRead);
    if tmp == -1 {
      return 1, index';
    }
    ghost var o, n, m := Max(0, -index), Max(index, 0), Min(size - Max(index, 0), BYTE_IN_CORE - Max(0, -index));
    RwPiece(d, e, disk.View(), cores, b0, b, buf[..], offset, n, j, o, m, isRead);
    return 0, index + tmp;
  }

  // The inner loop over one locator's links.
  method RwLinks(disk: Vdisk, data: Sector, buf: array<byte>, index: int, size: nat, isRead: bool,
                 ghost d: Disk, ghost locas: seq<nat>, ghost cores: seq<nat>, ghost k: nat, ghost b0: seq<byte>,
                     ghost offset: nat)
    returns (ret: int, index': int, finished: bool)
    requires disk.Valid() && size <= buf.Length
    requires DiskOk(d) && ChainOk(d, disk.id, locas, cores, 0) && LocaOk(data, disk.id, locas, cores, k)
    requires RwAt(cores, offset, size, index, LINKS_IN_LOCA * k)
    requires RwDone(d, disk.View(), cores, b0, buf[..], offset, Max(index, 0), isRead)
    modifies disk, buf
    ensures disk.Valid() && ret == 0 && (finished ==> index' == size)
    ensures RwAt(cores, offset, size, index', LINKS_IN_LOCA * (k + 1))
    ensures RwDone(d, disk.View(), cores, b0, buf[..], offset, Max(index', 0), isRead)
  {
    hide DiskOk, ChainOk, LocaOk, RwDone;
    index' := index;
    var i := 0;
    while i < LINKS_IN_LOCA
      invariant 0 <= i <= LINKS_IN_LOCA && disk.Valid()
      invariant RwAt(cores, offset, size, index', LINKS_IN_LOCA * k + i)
      invariant RwDone(d, disk.View(), cores, b0, buf[..], offset, Max(index', 0), isRead)
    {
      if index' >= size {
        return 0, index', true;
      }
      if index' + BYTE_IN_CORE <= 0 {
        index' := index' + BYTE_IN_CORE;
      } else {
        ret, index' := RwLink(disk, data, i, buf, index', size, isRead, d, locas, cores, k, b0, offset);
        if ret != 0 {
          return 1, index', false;
        }
      }
      i := i + 1;
    }
    return 0, index', false;
  }

  // fs_cnt_rw_loca: the signed index slides along the chain, negative until the request starts.
  method RwLoca(disk: Vdisk, locaSid: word, buf: array<byte>, offset: nat, size: nat, isRead: bool,
                ghost locas: seq<nat>, ghost cores: seq<nat>)
    returns (ret: int)
    requires disk.Valid() && ChainOk(disk.View(), disk.id, locas, cores, 0) && LinkTo(locaSid, disk.id, locas, 0)
    requires CoresIn(disk.View(), cores) && offset + size <= BYTE_IN_CORE * |cores| && size <= buf.Length
    modifies disk, buf
    ensures disk.Valid() && ret == 0
    ensures RwDone(old(disk.View()), disk.View(), cores, old(buf[..]), buf[..], offset, size, isRead)
  {
    hide DiskOk, ChainOk, LocaOk, RwDone, LinkTo;
    ghost var d := disk.View();
    ghost var b0 := buf[..];
    ChainEnds(d, disk.id, locas, cores);
    FollowLink(locaSid, disk.id, locas, 0);
    RwStart(d, cores, b0, offset, isRead);
    if SidDisk(locaSid) != disk.id {
      return 1;
    }
    var loca := locaSid;
    var index := -(offset as int);
    ghost var k := 0;
    while index < size
      invariant disk.Valid() && RwAt(cores, offset, size, index, LINKS_IN_LOCA * k)
      invariant RwDone(d, disk.View(), cores, b0, buf[..], offset, Max(index, 0), isRead)
      invariant index < size ==> k < |locas| && LinkTo(loca, disk.id, locas, k)
      decreases |locas| - k, if index < size then 1 else 0
    {
      RwStored(d, disk.View(), disk.id, locas, cores, b0, buf[..], offset, Max(index, 0), isRead);
      CtrDelete.StoredLoca(disk.View(), disk.id, locas, cores, 0, k);
      FollowLink(loca, disk.id, locas, k);
      var inUse := disk.IsSectorUsed(loca);
      if !inUse {
        return 1;
      }
      var ok, data := disk.LoadSector(loca);
      if Tag(data) != SF_LOCA {
        return 1;
      }
      var nextSid := Last(data);
      FollowLink(nextSid, disk.id, locas, k + 1);
      if index + LINKS_IN_LOCA * BYTE_IN_CORE < 0 {
        index := index + LINKS_IN_LOCA * BYTE_IN_CORE;
      } else {
        var finished;
        ret, index, finished := RwLinks(disk, data, buf, index, size, isRead, d, locas, cores, k, b0, offset);
        if ret != 0 {
          return 1;
        }
        if finished {
          return 0;
        }
      }
      if nextSid == SID_NULL && index < size {
        return 1;
      }
      loca := nextSid;
      k := k + 1;
    }
    return 0;
  }

  // fs_cnt_rw: fs_cnt_read and fs_cnt_write are this with isRead true and false.
  method Rw(disk: Vdisk, headSid: word, buf: array<byte>, offset: nat, size: nat, isRead: bool, ghost c: Container)
    returns (ret: int)
    requires disk.Valid() && disk.Within(headSid) && size <= buf.Length
    requires NamesHead(disk.View(), disk.id, headSid) ==>
               c.head == SidSector(headSid) && ContainerOk(disk.View(), disk.id, c)
    modifies disk, buf
    ensures disk.Valid()
    ensures ret == if NamesHead(old(disk.View()), disk.id, headSid) && offset + size <= c.size then 0 else 1
    ensures ret == 1 ==> disk.View() == old(disk.View()) && buf[..] == old(buf[..])
    ensures ret == 0 ==>
              RwDone(old(disk.View()), disk.View(), c.cores, old(buf[..]), buf[..], offset, size, isRead)
  {
    hide DiskOk, ChainOk, RwDone, Word;
    ghost var d := disk.View();
    if SidDisk(headSid) != disk.id {
      return 1;
    }
    var inUse := disk.IsSectorUsed(headSid);
    if !inUse {
      return 1;
    }
    var ok, data := disk.LoadSector(headSid);
    if Tag(data) != SF_HEAD {
      return 1;
    }
    if offset + size > SizeField(data) {
      return 1;
    }
    ContainerParts(d, disk.id, c);
    CoresUsed(d, disk.id, c.locas, c.cores);
    var locaSid := Last(data);
    if locaSid != 0 {
      ret := RwLoca(disk, locaSid, buf, offset, size, isRead, c.locas, c.cores);
      if ret != 0 {
        return 1;
      }
    } else {
      return 1;
    }
    return 0;
  }

  lemma CoresUsed(d: Disk, id: nat, locas: seq<nat>, cores: seq<nat>)
    requires ChainOk(d, id, locas, cores, 0)
    ensures CoresIn(d, cores) && NoDup(cores)
  {
  }

  // In terms of the byte array: a read returns the slice, a write replaces it.
  lemma RwContent(d: Disk, e: Disk, id: nat, c: Container, b0: seq<byte>, b: seq<byte>, off: nat, n: nat, isRead: bool)
    requires DiskOk(d) && ContainerOk(d, id, c) && off + n <= c.size
    requires RwDone(d, e, c.cores, b0, b, off, n, isRead)
    ensures DiskOk(e) && ContainerOk(e, id, c) && OnlyTouches(d, e, c, c)
    ensures isRead ==> Content(e, id, c) == Content(d, id, c) && b == Content(d, id, c)[off..off + n] + b0[n..]
    ensures !isRead ==> b == b0 && Content(e, id, c) == Put(Content(d, id, c), off, b0[..n])
  {
    hide DiskOk, ChainOk, ByteAt, LocaOk;
    ContainerParts(d, id, c);
    if isRead {
    } else {
      ChainAfterWrote(d, e, id, c.locas, c.cores, off, b0[..n]);
    }
  }

  lemma ReadLeavesDisk(d: Disk, e: Disk, cores: seq<nat>, b0: seq<byte>, b: seq<byte>, off: nat, n: nat)
    requires RwDone(d, e, cores, b0, b, off, n, true)
    ensures e == d
  {
  }
}
