/** The on-disk layout read by the FAT16/FAT32 reader (sd_driver.c): boot sector, allocation
    table and cluster chains, with the C code's 32-bit arithmetic.  A card is a function from
    sector numbers to 512 bytes, or to nothing when the read fails. */
module FatLayout {
  import opened Machine
  import opened Options

  const SECTOR_SIZE := 512

  type Sector = s: seq<Byte> | |s| == SECTOR_SIZE witness seq(SECTOR_SIZE, i => 0)

  type Disk = U32 -> Option<Sector>

  function Ru16(s: seq<Byte>, i: nat): (r: nat)
    requires i + 2 <= |s|
    ensures r < 0x1_0000
  {
    s[i] as int + 0x100 * s[i + 1] as int
  }

  function Ru32(s: seq<Byte>, i: nat): U32
    requires i + 4 <= |s|
  {
    s[i] as int + 0x100 * s[i + 1] as int + 0x1_0000 * s[i + 2] as int + 0x100_0000 * s[i + 3] as int
  }

  /** Consecutive sector numbers, wrapping like the C code's counters. */
  function Run(start: U32, len: nat): (r: seq<U32>)
    ensures |r| == len && forall i :: 0 <= i < len ==> r[i] == Word(start + i)
  {
    seq<U32>(len, (i: nat) => Word(start + i))
  }

  // ---------- boot sector ----------

  datatype Bpb = Bpb(
    sectorsPerCluster: nat,
    fat32: bool,
    rootCluster: U32,
    fatStart: U32,
    sectorsPerFat: U32,
    rootDirSector: U32,
    rootDirSectors: U32,
    dataStart: U32)

  predicate Sane(b: Bpb) {
    0 < b.sectorsPerCluster < 256
  }

  /** The partition's boot sector: sector 0 itself, or the first partition of an MBR. */
  function FindVbr(s: Sector): U32 {
    if s[0] == 0xEB || s[0] == 0xE9 then 0
    else if s[510] == 0x55 && s[511] == 0xAA then Ru32(s, 446 + 8)
    else 0
  }

  /** The boot-sector fields the reader uses. */
  datatype Fields = Fields(
    bytesPerSector: nat,
    sectorsPerCluster: nat,
    reserved: nat,
    numFats: nat,
    rootEntries: nat,
    sectorsPerFat: U32,
    rootCluster: U32)

  function ReadFields(s: Sector): (f: Fields)
    ensures f.sectorsPerCluster < 256 && f.rootEntries < 0x1_0000
  {
    var size16 := Ru16(s, 22);
    Fields(Ru16(s, 11), s[13], Ru16(s, 14), s[16], Ru16(s, 17), if size16 != 0 then size16 else Ru32(s, 36), Ru32(s, 44))
  }

  predicate Accepted(s: Sector) {
    var f := ReadFields(s);
    s[510] == 0x55 && s[511] == 0xAA && f.bytesPerSector == SECTOR_SIZE && f.sectorsPerCluster != 0 && f.numFats != 0
  }

  function Place(f: Fields, vbr: U32): Bpb
    requires f.rootEntries < 0x1_0000
  {
    var fatStart := Word(vbr + f.reserved);
    var rootSectors := (f.rootEntries * 32 + SECTOR_SIZE - 1) / SECTOR_SIZE;
    var rootSector := Word(fatStart + Tables(f));
    Bpb(f.sectorsPerCluster, f.rootEntries == 0, f.rootCluster, fatStart, f.sectorsPerFat,
        rootSector, rootSectors, Word(rootSector + rootSectors))
  }

  function Tables(f: Fields): nat {
    Product(f.numFats, f.sectorsPerFat);
    f.numFats * f.sectorsPerFat
  }

  function ParseBpb(s: Sector, vbr: U32): (r: Option<Bpb>)
    ensures r.Some? <==> Accepted(s)
    ensures r.Some? ==> Sane(r.value)
  {
    if s[510] != 0x55 || s[511] != 0xAA then None else
      var f := ReadFields(s);
      if f.bytesPerSector != SECTOR_SIZE then None
      else if f.sectorsPerCluster == 0 then None
      else if f.numFats == 0 then None
      else Some(Place(f, vbr))
  }

  /** On a volume whose regions 32-bit sector numbers can reach, the tables, the root directory
      and the data follow one another without overlap, and the root region is just large enough
      for its 32-byte entries. */
  lemma RegionsFollow(f: Fields, vbr: U32)
    requires f.rootEntries < 0x1_0000 && vbr + f.reserved + Tables(f) + 0x1000 < WRAP
    ensures var b := Place(f, vbr);
            && b.fatStart == vbr + f.reserved && b.rootDirSector == b.fatStart + Tables(f)
            && b.dataStart == b.rootDirSector + b.rootDirSectors
            && 32 * f.rootEntries <= SECTOR_SIZE * b.rootDirSectors < 32 * f.rootEntries + SECTOR_SIZE
            && (b.fat32 <==> b.rootDirSectors == 0)
  {
    RegionsAdd(vbr + f.reserved, Tables(f), f.rootEntries);
  }

  lemma RegionsAdd(start: nat, tables: nat, entries: nat)
    requires entries < 0x1_0000 && start + tables + 0x1000 < WRAP
    ensures var n := (entries * 32 + SECTOR_SIZE - 1) / SECTOR_SIZE;
            && Word(start) == start && Word(start + tables) == start + tables && Word(start + tables + n) == start + tables + n
            && 32 * entries <= SECTOR_SIZE * n < 32 * entries + SECTOR_SIZE && (entries == 0 <==> n == 0)
  {
  }

  // ---------- clusters ----------

  /** First sector of a cluster, as the C code computes it on unsigned 32-bit values. */
  function ClusterStart(b: Bpb, c: U32): U32 {
    Word(b.dataStart + Word(c + WRAP - 2) * b.sectorsPerCluster)
  }

  function ClusterSectors(b: Bpb, c: U32): (r: seq<U32>)
    ensures |r| == b.sectorsPerCluster
  {
    Run(ClusterStart(b, c), b.sectorsPerCluster)
  }

  /** Different clusters of a volume that fits never share a sector, nor do they reach into the
      tables or the root directory. */
  lemma ClustersDisjoint(b: Bpb, c: U32, d: U32, i: nat, j: nat)
    requires Sane(b) && 2 <= c < d && b.dataStart + (d - 1) * b.sectorsPerCluster <= WRAP
    requires i < b.sectorsPerCluster && j < b.sectorsPerCluster
    ensures ClusterSectors(b, c)[i] == b.dataStart + (c - 2) * b.sectorsPerCluster + i
    ensures b.dataStart <= ClusterSectors(b, c)[i] < ClusterSectors(b, d)[j]
  {
    var p := b.sectorsPerCluster;
    Spread(c - 2, d - 2, p);
    Spread(d - 2, d - 1, p);
    SectorInRange(b, c, i);
    SectorInRange(b, d, j);
  }

  lemma SectorInRange(b: Bpb, c: U32, i: nat)
    requires 2 <= c && i < b.sectorsPerCluster && b.dataStart + (c - 2) * b.sectorsPerCluster + i < WRAP
    ensures ClusterSectors(b, c)[i] == b.dataStart + (c - 2) * b.sectorsPerCluster + i
  {
    var k := Word(c + WRAP - 2);
    assert k == c - 2;
    Product(k, b.sectorsPerCluster);
    assert k * b.sectorsPerCluster == (c - 2) * b.sectorsPerCluster;
    assert ClusterStart(b, c) == b.dataStart + k * b.sectorsPerCluster;
  }

  lemma {:induction false} Product(x: nat, p: nat)
    ensures 0 <= x * p
  {
    if x != 0 {
      Product(x - 1, p);
      assert x * p == (x - 1) * p + p;
    }
  }

  lemma Spread(x: nat, y: nat, p: nat)
    requires x < y
    ensures 0 <= x * p && x * p + p <= y * p
  {
    Product(x, p);
    Product(y - x - 1, p);
    assert y * p == x * p + p + (y - x - 1) * p;
  }

  // ---------- the allocation table ----------

  predicate EndOfChain(b: Bpb, c: U32) {
    if b.fat32 then c >= 0x0FFF_FFF8 else c >= 0xFFF8
  }

  predicate ValidCluster(b: Bpb, c: U32) {
    c >= 2 && !EndOfChain(b, c)
  }

  function EntrySize(b: Bpb): nat {
    if b.fat32 then 4 else 2
  }

  /** An entry lies inside one sector, whatever the cluster number. */
  lemma NoStraddling(b: Bpb, c: U32)
    ensures Word(c * EntrySize(b)) % SECTOR_SIZE + EntrySize(b) <= SECTOR_SIZE
  {
    if b.fat32 {
      Aligned(4 * c, 0x4000_0000, 4);
    } else {
      Aligned(2 * c, 0x8000_0000, 2);
    }
  }

  lemma Aligned(off: nat, k: nat, w: nat)
    requires w in {2, 4} && k * w == WRAP && off % w == 0
    ensures Word(off) % SECTOR_SIZE + w <= SECTOR_SIZE
  {
    var q := off / WRAP;
    var x := Word(off);
    assert x == off - WRAP * q;
    assert x % w == 0 by {
      if w == 2 {
        assert x == 2 * (off / 2 - 0x8000_0000 * q);
      } else {
        assert x == 4 * (off / 4 - 0x4000_0000 * q);
      }
    }
    assert x % SECTOR_SIZE == x - SECTOR_SIZE * (x / SECTOR_SIZE);
  }

  /** The sector of the table that says what follows a cluster. */
  function TableSector(b: Bpb, c: U32): U32 {
    Word(b.fatStart + Word(c * EntrySize(b)) / SECTOR_SIZE)
  }

  /** The lookup split into a sector and an index; a table sector that cannot be read ends the
      chain. */
  function NextCluster(disk: Disk, b: Bpb, c: U32): U32 {
    var off := Word(c * EntrySize(b));
    var sec := disk(TableSector(b, c));
    NoStraddling(b, c);
    if b.fat32 then
      if sec.None? then 0x0FFF_FFF8 else Ru32(sec.value, off % SECTOR_SIZE) % 0x1000_0000
    else
      if sec.None? then 0xFFFF else Ru16(sec.value, off % SECTOR_SIZE)
  }

  /** The bytes of a list of sectors, one after the other. */
  function Join(disk: Disk, secs: seq<U32>): (r: seq<Byte>)
    requires Readable(disk, secs)
    ensures |r| == SECTOR_SIZE * |secs|
  {
    if secs == [] then [] else Join(disk, secs[..|secs| - 1]) + disk(secs[|secs| - 1]).value
  }

  predicate Readable(disk: Disk, secs: seq<U32>) {
    forall k :: 0 <= k < |secs| ==> disk(secs[k]).Some?
  }

  lemma {:induction false} JoinAt(disk: Disk, secs: seq<U32>, i: nat)
    requires Readable(disk, secs) && i < SECTOR_SIZE * |secs|
    ensures i / SECTOR_SIZE < |secs| && Join(disk, secs)[i] == disk(secs[i / SECTOR_SIZE]).value[i % SECTOR_SIZE]
  {
    var n := |secs| - 1;
    if i < SECTOR_SIZE * n {
      JoinAt(disk, secs[..n], i);
    } else {
      assert i / SECTOR_SIZE == n;
    }
  }

  /** The whole table as one little-endian array of entries. */
  function FlatFat(disk: Disk, b: Bpb): seq<Byte>
    requires Readable(disk, Run(b.fatStart, b.sectorsPerFat))
  {
    Join(disk, Run(b.fatStart, b.sectorsPerFat))
  }

  /** The split lookup is indexing in the flat table, for every cluster the table has room for. */
  lemma LookupIsIndexing(disk: Disk, b: Bpb, c: U32)
    requires Readable(disk, Run(b.fatStart, b.sectorsPerFat))
    requires EntrySize(b) * (c + 1) <= SECTOR_SIZE * b.sectorsPerFat && EntrySize(b) * c < WRAP
    ensures var fat := FlatFat(disk, b);
            NextCluster(disk, b, c)
            == if b.fat32 then Ru32(fat, 4 * c) % 0x1000_0000 else Ru16(fat, 2 * c)
  {
    var off := EntrySize(b) * c;
    NoStraddling(b, c);
    assert Word(off) == off;
    FatByte(disk, b, off, 0);
    FatByte(disk, b, off, 1);
    if b.fat32 {
      FatByte(disk, b, off, 2);
      FatByte(disk, b, off, 3);
    }
  }

  lemma FatByte(disk: Disk, b: Bpb, off: nat, j: nat)
    requires Readable(disk, Run(b.fatStart, b.sectorsPerFat))
    requires off + j < SECTOR_SIZE * b.sectorsPerFat && off % SECTOR_SIZE + j < SECTOR_SIZE
    ensures disk(Word(b.fatStart + off / SECTOR_SIZE)).Some?
    ensures FlatFat(disk, b)[off + j] == disk(Word(b.fatStart + off / SECTOR_SIZE)).value[off % SECTOR_SIZE + j]
  {
    JoinAt(disk, Run(b.fatStart, b.sectorsPerFat), off + j);
    assert (off + j) / SECTOR_SIZE == off / SECTOR_SIZE && (off + j) % SECTOR_SIZE == off % SECTOR_SIZE + j;
    assert Run(b.fatStart, b.sectorsPerFat)[off / SECTOR_SIZE] == Word(b.fatStart + off / SECTOR_SIZE);
  }

  // ---------- cluster chains ----------

  /** The first k clusters of a file's chain, fewer if the chain ends. */
  function Chain(disk: Disk, b: Bpb, c: U32, k: nat): (r: seq<U32>)
    ensures |r| <= k
    decreases k
  {
    if k == 0 || !ValidCluster(b, c) then [] else [c] + Chain(disk, b, NextCluster(disk, b, c), k - 1)
  }

  /** The sectors of a list of clusters, in reading order. */
  function Flat(b: Bpb, cs: seq<U32>): (r: seq<U32>)
    requires Sane(b)
    ensures |cs| <= |r| && (cs == [] ==> r == [])
  {
    if cs == [] then [] else Flat(b, cs[..|cs| - 1]) + ClusterSectors(b, cs[|cs| - 1])
  }

  lemma {:induction false} FlatAppend(b: Bpb, cs: seq<U32>, ds: seq<U32>)
    requires Sane(b)
    ensures Flat(b, cs + ds) == Flat(b, cs) + Flat(b, ds)
  {
    if ds == [] {
      assert cs + ds == cs;
    } else {
      var n := |ds| - 1;
      var last := ClusterSectors(b, ds[n]);
      FlatAppend(b, cs, ds[..n]);
      assert (cs + ds)[..|cs + ds| - 1] == cs + ds[..n] && (cs + ds)[|cs + ds| - 1] == ds[n];
      calc {
        Flat(b, cs + ds);
        Flat(b, cs + ds[..n]) + last;
        (Flat(b, cs) + Flat(b, ds[..n])) + last;
        Flat(b, cs) + (Flat(b, ds[..n]) + last);
      }
    }
  }

  lemma {:induction false} JoinAppend(disk: Disk, s: seq<U32>, t: seq<U32>)
    requires Readable(disk, s) && Readable(disk, t)
    ensures Readable(disk, s + t) && Join(disk, s + t) == Join(disk, s) + Join(disk, t)
  {
    if t == [] {
      assert s + t == s;
    } else {
      var n := |t| - 1;
      var last := disk(t[n]).value;
      JoinAppend(disk, s, t[..n]);
      assert (s + t)[..|s + t| - 1] == s + t[..n] && (s + t)[|s + t| - 1] == t[n];
      calc {
        Join(disk, s + t);
        Join(disk, s + t[..n]) + last;
        (Join(disk, s) + Join(disk, t[..n])) + last;
        Join(disk, s) + (Join(disk, t[..n]) + last);
        Join(disk, s) + Join(disk, t);
      }
    }
  }

  /** Chains of different lengths agree as far as both go. */
  lemma {:induction false} LongerChain(disk: Disk, b: Bpb, c: U32, k: nat, more: nat)
    requires k <= more
    ensures Chain(disk, b, c, k) <= Chain(disk, b, c, more)
    ensures |Chain(disk, b, c, k)| < k ==> Chain(disk, b, c, k) == Chain(disk, b, c, more)
    decreases k
  {
    if k != 0 && ValidCluster(b, c) {
      LongerChain(disk, b, NextCluster(disk, b, c), k - 1, more - 1);
    }
  }
}
