/** Byte layout of the Butterfly sectors: little-endian words inside byte buffers,
    and the fields of header, locator and core sectors. */
module Layout {
  type byte = b: int | 0 <= b < 256
  type word = w: int | 0 <= w < 0x1_0000_0000

  const SECTOR_SIZE := 512
  const META_MAXLEN := 64
  const LAST_SID_OFFSET := 508   // SECTOR_SIZE - 4
  const LINKS_IN_LOCA := 126     // SECTOR_SIZE / 4 - 2
  const BYTE_IN_CORE := 511      // SECTOR_SIZE - 1
  const SIZE_OFFSET := 65        // 1 + META_MAXLEN

  const SF_HEAD := 1
  const SF_LOCA := 2
  const SF_CORE := 3

  const SID_NULL: word := 0
  const MAX_SECTORS := 0x100_0000

  type Sector = s: seq<byte> | |s| == SECTOR_SIZE witness seq(512, _ => 0)

  // ---------------------------------------------------------------- sector ids

  function SidFormat(disk: nat, sector: nat): (sid: word)
    requires disk < 256 && sector < MAX_SECTORS
  {
    disk * 0x100_0000 + sector
  }

  function SidDisk(sid: word): nat { sid / 0x100_0000 }

  function SidSector(sid: word): nat { sid % 0x100_0000 }

  // A sector id names its disk and sector, and on a mounted disk (ids start at 1)
  // it is never the null id.
  lemma SidRoundTrip(disk: nat, sector: nat)
    requires disk < 256 && sector < MAX_SECTORS
    ensures SidDisk(SidFormat(disk, sector)) == disk
    ensures SidSector(SidFormat(disk, sector)) == sector
    ensures SidFormat(disk, sector) == SID_NULL <==> disk == 0 && sector == 0
  {
    var sid: int := disk * 0x100_0000 + sector;
    assert disk * 0x100_0000 <= sid < (disk + 1) * 0x100_0000;
  }

  // ------------------------------------------------------- words inside buffers

  function Word(s: seq<byte>, o: nat): (w: word)
    requires o + 4 <= |s|
  {
    s[o] as int + 0x100 * s[o + 1] as int + 0x1_0000 * s[o + 2] as int + 0x100_0000 * s[o + 3] as int
  }

  function Bytes4(v: word): (bs: seq<byte>)
    ensures |bs| == 4
  {
    [v % 256, v / 0x100 % 256, v / 0x1_0000 % 256, v / 0x100_0000]
  }

  // mem_copy(s + o, bs, |bs|)
  function Put(s: seq<byte>, o: nat, bs: seq<byte>): (r: seq<byte>)
    requires o + |bs| <= |s|
    ensures |r| == |s|
    ensures forall i :: 0 <= i < |s| ==> r[i] == if o <= i < o + |bs| then bs[i - o] else s[i]
  {
    s[..o] + bs + s[o + |bs|..]
  }

  function SetWord(s: seq<byte>, o: nat, v: word): (r: seq<byte>)
    requires o + 4 <= |s|
    ensures |r| == |s|
  {
    Put(s, o, Bytes4(v))
  }

  // The lowest byte comes first.
  lemma LittleEndian(s: seq<byte>, o: nat, v: word)
    requires o + 4 <= |s|
    ensures Word(SetWord(s, o, v), o) == v
    ensures SetWord(s, o, v)[o] == v % 0x100 && SetWord(s, o, v)[o + 1] == v / 0x100 % 0x100
    ensures SetWord(s, o, v)[o + 2] == v / 0x1_0000 % 0x100 && SetWord(s, o, v)[o + 3] == v / 0x100_0000
    ensures forall q :: 0 <= q < |s| && !(o <= q < o + 4) ==> SetWord(s, o, v)[q] == s[q]
  {
    SetWordSame(s, o, v);
  }

  lemma SetWordSame(s: seq<byte>, o: nat, v: word)
    requires o + 4 <= |s|
    ensures Word(SetWord(s, o, v), o) == v
  {
    BytesOfWord(v);
  }

  lemma BytesOfWord(v: word)
    ensures v == v % 256 + 0x100 * (v / 0x100 % 256) + 0x1_0000 * (v / 0x1_0000 % 256) + 0x100_0000 * (v / 0x100_0000)
  {
  }

  lemma SetWordOther(s: seq<byte>, o: nat, v: word, p: nat)
    requires o + 4 <= |s| && p + 4 <= |s|
    requires p + 4 <= o || o + 4 <= p
    ensures Word(SetWord(s, o, v), p) == Word(s, p)
  {
  }

  // ------------------------------------------------------------- sector fields

  function Tag(s: Sector): byte { s[0] }

  function Link(s: Sector, i: nat): word
    requires i < LINKS_IN_LOCA
  {
    Word(s, 4 * (i + 1))
  }

  function SetLink(s: Sector, i: nat, v: word): Sector
    requires i < LINKS_IN_LOCA
  {
    SetWord(s, 4 * (i + 1), v)
  }

  // The last word of a sector: the next locator of a locator, the first locator of a header.
  function Last(s: Sector): word { Word(s, LAST_SID_OFFSET) }

  function SetLast(s: Sector, v: word): Sector { SetWord(s, LAST_SID_OFFSET, v) }

  // What a header says about its container: a name, up to its last byte.
  function Meta(s: Sector): (m: seq<byte>)
    ensures |m| == META_MAXLEN - 1
  {
    s[1..META_MAXLEN]
  }

  // All bytes of the sector but those of the word at o.
  ghost predicate SameBut(s: Sector, s': Sector, o: nat) {
    forall q :: 0 <= q < SECTOR_SIZE && !(o <= q < o + 4) ==> s'[q] == s[q]
  }

  ghost predicate SameButSize(s: Sector, s': Sector) { SameBut(s, s', SIZE_OFFSET) }

  function SizeField(s: Sector): word { Word(s, SIZE_OFFSET) }

  function SetSizeField(s: Sector, v: word): Sector { SetWord(s, SIZE_OFFSET, v) }

  // calloc'ed sector with its identifier byte set
  function Blank(tag: byte): Sector { seq(SECTOR_SIZE, i => if i == 0 then tag else 0) }

  lemma BlankFields(tag: byte)
    ensures Tag(Blank(tag)) == tag && Last(Blank(tag)) == 0 && SizeField(Blank(tag)) == 0
    ensures forall i :: 0 <= i < LINKS_IN_LOCA ==> Link(Blank(tag), i) == 0
  {
  }

  lemma SetLinkFields(s: Sector, i: nat, v: word)
    requires i < LINKS_IN_LOCA
    ensures Tag(SetLink(s, i, v)) == Tag(s) && Last(SetLink(s, i, v)) == Last(s)
    ensures SameBut(s, SetLink(s, i, v), 4 * (i + 1))
    ensures forall j :: 0 <= j < LINKS_IN_LOCA ==> Link(SetLink(s, i, v), j) == if j == i then v else Link(s, j)
  {
    hide Word;
    SetWordOther(s, 4 * (i + 1), v, LAST_SID_OFFSET);
    forall j | 0 <= j < LINKS_IN_LOCA
      ensures Link(SetLink(s, i, v), j) == if j == i then v else Link(s, j)
    {
      if j == i {
        SetWordSame(s, 4 * (i + 1), v);
      } else {
        SetWordOther(s, 4 * (i + 1), v, 4 * (j + 1));
      }
    }
  }

  lemma SetLastFields(s: Sector, v: word)
    ensures Tag(SetLast(s, v)) == Tag(s) && Last(SetLast(s, v)) == v
    ensures SizeField(SetLast(s, v)) == SizeField(s) && SameBut(s, SetLast(s, v), LAST_SID_OFFSET)
    ensures forall j :: 0 <= j < LINKS_IN_LOCA ==> Link(SetLast(s, v), j) == Link(s, j)
  {
    hide Word;
    SetWordSame(s, LAST_SID_OFFSET, v);
    SetWordOther(s, LAST_SID_OFFSET, v, SIZE_OFFSET);
    forall j | 0 <= j < LINKS_IN_LOCA
      ensures Link(SetLast(s, v), j) == Link(s, j)
    {
      SetWordOther(s, LAST_SID_OFFSET, v, 4 * (j + 1));
    }
  }

  lemma SetSizeFields(s: Sector, v: word)
    ensures Tag(SetSizeField(s, v)) == Tag(s) && Last(SetSizeField(s, v)) == Last(s)
    ensures SizeField(SetSizeField(s, v)) == v && SameButSize(s, SetSizeField(s, v))
  {
    hide Word;
    SetWordSame(s, SIZE_OFFSET, v);
    SetWordOther(s, SIZE_OFFSET, v, LAST_SID_OFFSET);
  }

  lemma SameMeta(s: Sector, s': Sector)
    requires SameButSize(s, s')
    ensures Meta(s') == Meta(s)
  {
  }
}
