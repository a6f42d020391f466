/** Small cards that show each of the reader's shortcomings: a FAT32 volume of two-sector
    clusters without a partition table, its one-sector table in sector 1 and its root directory
    in cluster 2, that is in sectors 2 and 3. */
module FatExamples {
  import opened Machine
  import opened Options
  import opened FatLayout
  import opened FatReader
  import opened FatNames
  import opened FatCard

  function BootByte(i: nat): Byte {
    match i
    case 0 => 0xEB
    case 12 => 0x02      // 512 bytes per sector
    case 13 => 2         // sectors per cluster
    case 14 => 1         // reserved sectors
    case 16 => 1         // tables
    case 22 => 1         // sectors per table
    case 44 => 2         // root cluster
    case 510 => 0x55
    case 511 => 0xAA
    case _ => 0
  }

  function Boot(): Sector {
    seq(SECTOR_SIZE, (i: nat) => BootByte(i))
  }

  const LAYOUT := Bpb(2, true, 2, 1, 1, 2, 0, 2)

  function Filled(b: Byte): Sector {
    seq(SECTOR_SIZE, (i: nat) => b)
  }

  /** A volume with this table, first sector of the root directory, content everywhere else, and
      one sector that cannot be read. */
  function Volume(table: Sector, root: Sector, rest: Sector, bad: U32): Disk {
    (s: U32) =>
      if s == 0 then Some(Boot())
      else if s == bad then None
      else if s == 1 then Some(table)
      else if s == 2 then Some(root)
      else Some(rest)
  }

  lemma VolumeMounts(table: Sector, root: Sector, rest: Sector, bad: U32)
    ensures Mount(Volume(table, root, rest, bad)) == Some(LAYOUT)
  {
    var boot := Boot();
    assert Volume(table, root, rest, bad)(0) == Some(boot);
    assert boot[0] == 0xEB && FindVbr(boot) == 0;
    BootFields(boot);
    assert Place(ReadFields(boot), 0) == LAYOUT;
  }

  lemma BootFields(boot: Sector)
    requires boot == Boot()
    ensures Accepted(boot) && ReadFields(boot) == Fields(512, 2, 1, 1, 0, 1, 2)
  {
    assert boot[510] == 0x55 && boot[511] == 0xAA;
    assert boot[11] == 0 && boot[12] == 2 && boot[13] == 2 && boot[14] == 1 && boot[15] == 0 && boot[16] == 1;
    assert boot[17] == 0 && boot[18] == 0 && boot[22] == 1 && boot[23] == 0;
    assert boot[44] == 2 && boot[45] == 0 && boot[46] == 0 && boot[47] == 0;
  }

  lemma ClusterIs(c: U32)
    requires 2 <= c < 100
    ensures ClusterSectors(LAYOUT, c) == [2 * c - 2, 2 * c - 1]
  {
    assert Word(c + WRAP - 2) == c - 2;
    assert ClusterStart(LAYOUT, c) == 2 * c - 2;
  }

  lemma TwoSectors(disk: Disk, x: U32, y: U32, p: Pattern)
    requires disk(x).Some? && disk(y).Some?
    ensures Judge(disk, [x, y], p) == OrElse(JudgeSector(disk(x).value, p, 0), JudgeSector(disk(y).value, p, 0))
  {
    assert [x, y][1..] == [y];
    JudgesOne(disk, y, p);
  }

  // ---------- a circular directory ----------

  /** Cluster 2 follows itself, and every directory entry is a deleted one. */
  function CircularCard(): Disk {
    Volume(Filled(0)[8 := 2], Filled(0xE5), Filled(0xE5), WRAP - 1)
  }

  lemma {:induction false} DeletedSector(p: Pattern, i: nat)
    requires i <= ENTRIES_PER_SECTOR
    ensures JudgeSector(Filled(0xE5), p, i) == Open
    decreases ENTRIES_PER_SECTOR - i
  {
    if i < ENTRIES_PER_SECTOR {
      assert EntryAt(Filled(0xE5), i)[0] == 0xE5;
      DeletedSector(p, i + 1);
    }
  }

  lemma CircularNext()
    ensures NextCluster(CircularCard(), LAYOUT, 2) == 2
  {
    var table: Sector := Filled(0)[8 := 2];
    assert Word(8) % SECTOR_SIZE == 8 && Word(1 + 8 / SECTOR_SIZE) == 1;
    assert CircularCard()(1) == Some(table);
    assert table[8] == 2 && table[9] == 0 && table[10] == 0 && table[11] == 0;
  }

  /** Whatever a call on this card looks for, its scan of the root directory never ends. */
  lemma CircularCardIsScannedForEver(name: string, p: Pattern, k: nat)
    ensures !NoCircle(CircularCard(), NamesFor(name))
    ensures !ScanEnds(CircularCard(), LAYOUT, 2, p, k)
  {
    VolumeMounts(Filled(0)[8 := 2], Filled(0xE5), Filled(0xE5), WRAP - 1);
    CircularCardCircles(FilePattern(NamesFor(name)));
    CircularCardCircles(p);
    CirclingNeverEnds(CircularCard(), LAYOUT, 2, p, k);
  }

  lemma CircularCardCircles(p: Pattern)
    ensures Circles(CircularCard(), LAYOUT, 2, p)
  {
    var disk := CircularCard();
    ClusterIs(2);
    DeletedSector(p, 0);
    TwoSectors(disk, 2, 3, p);
    CircularNext();
    assert DirChain(disk, LAYOUT, 2, 2) == [2, 2];
    JudgeTwice(disk, p);
    assert ComesBack(disk, LAYOUT, 2, p, 0, 1);
  }

  lemma JudgeTwice(disk: Disk, p: Pattern)
    requires Judge(disk, ClusterSectors(LAYOUT, 2), p) == Open
    ensures JudgeClusters(disk, LAYOUT, [2, 2][..1], p) == Open
  {
    OneMoreCluster(disk, LAYOUT, 2, [], p);
    assert [2, 2][..1] == [2] + [];
  }

  // ---------- a card with one file ----------

  /** The root directory holds this entry and nothing else. */
  function FileCard(table: Sector, e: DirEntry, bad: U32): Disk {
    Volume(table, e + Filled(0)[32..], Filled(0), bad)
  }

  /** ... and every chain is one cluster. */
  function OneFileCard(e: DirEntry, bad: U32): Disk {
    FileCard(Filled(0xFF), e, bad)
  }

  lemma OneFileVerdict(table: Sector, e: DirEntry, bad: U32, p: Pattern)
    requires bad !in {0, 2}
    ensures RootVerdict(FileCard(table, e, bad), LAYOUT, p) == Closed(if Matches(e, p) then Some(e) else None)
  {
    var disk, root: Sector := FileCard(table, e, bad), e + Filled(0)[32..];
    EntriesAre(e, Filled(0)[32..], root);
    OneEntryDecides(root, p);
    ClusterIs(2);
    assert disk(2) == Some(root);
    FirstSectorDecides(disk, 2, 3, root, p);
    OneMoreCluster(disk, LAYOUT, 2, [], p);
    assert [2] + [] == [2];
    assert DirChain(disk, LAYOUT, 2, 1) == [2];
    ChainVerdictIs(disk, LAYOUT, 2, p, 1);
  }

  lemma EntriesAre(e: DirEntry, tail: seq<Byte>, root: Sector)
    requires root == e + tail && tail[0] == 0
    ensures EntryAt(root, 0) == e && EntryAt(root, 1)[0] == 0
  {
    var first := EntryAt(root, 0);
    assert |first| == |e| == 32;
    forall i | 0 <= i < 32
      ensures first[i] == e[i]
    {
      assert first[i] == root[i];
    }
    assert root[32] == tail[0];
  }

  lemma OneEntryDecides(s: Sector, p: Pattern)
    requires EntryAt(s, 1)[0] == 0
    ensures JudgeSector(s, p, 0) == Closed(if Matches(EntryAt(s, 0), p) then Some(EntryAt(s, 0)) else None)
  {
    assert JudgeSector(s, p, 1) == Closed(None);
  }

  lemma FirstSectorDecides(disk: Disk, x: U32, y: U32, s: Sector, p: Pattern)
    requires disk(x) == Some(s) && JudgeSector(s, p, 0).Closed?
    ensures Judge(disk, [x, y], p) == JudgeSector(s, p, 0)
  {
  }

  /** A name that is no end mark, deleted entry or dot entry. */
  predicate Usable(name: seq<Byte>) {
    |name| == 11 && name[0] != 0x00 && name[0] != 0xE5 && name[0] != 0x2E
  }

  /** A file's entry: start cluster 65536 * high + low, size 256 * size. */
  function FileEntry(name: seq<Byte>, high: Byte, low: Byte, size: Byte): DirEntry
    requires Usable(name)
  {
    name + [0x20, 0, 0, 0, 0, 0, 0, 0, 0, high, 0, 0, 0, 0, 0, low, 0, 0, size, 0, 0]
  }

  lemma FileEntryIs(n: Names, high: Byte, low: Byte, size: Byte)
    requires Usable(n.name)
    ensures var e := FileEntry(n.name, high, low, size);
            && FullStartCluster(e) == 0x1_0000 * high + low && StartCluster(e) == low && FileSize(e) == 256 * size
            && Matches(e, FilePattern(n)) && !Matches(e, TablesPattern(n))
  {
    var e := FileEntry(n.name, high, low, size);
    assert e[..11] == n.name && e[11] == 0x20;
    assert e[20] == high && e[21] == 0 && e[26] == low && e[27] == 0;
    assert e[28] == 0 && e[29] == size && e[30] == 0 && e[31] == 0;
  }

  lemma OneFileDelivers(table: Sector, n: Names, high: Byte, low: Byte, size: Byte, bad: U32, bufSize: int)
    requires Usable(n.name) && bad !in {0, 2}
    ensures var e := FileEntry(n.name, high, low, size);
            var disk := FileCard(table, e, bad);
            && Mount(disk) == Some(LAYOUT) && RootVerdict(disk, LAYOUT, FilePattern(n)) == Closed(Some(e))
            && FileSize(e) == 256 * size && FullStartCluster(e) == 0x1_0000 * high + low
            && Delivered(disk, n, bufSize) == Fetched(disk, LAYOUT, (low, 256 * size), bufSize)
  {
    var e := FileEntry(n.name, high, low, size);
    FileEntryIs(n, high, low, size);
    VolumeMounts(table, e + Filled(0)[32..], Filled(0), bad);
    OneFileVerdict(table, e, bad, FilePattern(n));
    OneFileVerdict(table, e, bad, TablesPattern(n));
    RootFileIsFetched(FileCard(table, e, bad), n, bufSize, LAYOUT, e);
  }

  /** For every name there is a card on which an empty file of that name, and one on which a
      file of 512 bytes that starts in cluster 65536, is the first match in the root directory,
      every sector but the last can be read, and the call reports that there is no such file. */
  lemma MatchIsNotFound(n: Names, bufSize: int, empty: bool)
    requires Usable(n.name)
    ensures var e := FileEntry(n.name, if empty then 0 else 1, 0, if empty then 0 else 2);
            var disk := OneFileCard(e, WRAP - 1);
            && Mount(disk) == Some(LAYOUT) && RootVerdict(disk, LAYOUT, FilePattern(n)) == Closed(Some(e))
            && FileSize(e) == (if empty then 0 else 512) && Delivered(disk, n, bufSize) == None
  {
    var high: Byte, size: Byte := if empty then 0 else 1, if empty then 0 else 2;
    OneFileDelivers(Filled(0xFF), n, high, 0, size, WRAP - 1, bufSize);
  }

  /** For every name there is a card on which a file of 512 bytes is refused although the one
      sector it lies in can be read: the second sector of its cluster cannot. */
  lemma ReadableFileIsRefused(n: Names)
    requires Usable(n.name)
    ensures var e := FileEntry(n.name, 0, 3, 2);
            var disk := OneFileCard(e, 5);
            && Mount(disk) == Some(LAYOUT) && RootVerdict(disk, LAYOUT, FilePattern(n)) == Closed(Some(e))
            && FileSize(e) == 512 && Needed(disk, LAYOUT, FullStartCluster(e), 512) == [4] && disk(4).Some?
            && Delivered(disk, n, 512) == None
  {
    OneFileDelivers(Filled(0xFF), n, 0, 3, 2, 5, 512);
    SecondSectorSpoilsIt(FileEntry(n.name, 0, 3, 2));
  }

  lemma SecondSectorSpoilsIt(e: DirEntry)
    ensures Needed(OneFileCard(e, 5), LAYOUT, 3, 512) == [4] && OneFileCard(e, 5)(4).Some?
    ensures Fetched(OneFileCard(e, 5), LAYOUT, (3, 512), 512) == None
  {
    ThirdCluster(e);
    assert Readable(OneFileCard(e, 5), [4]);
    FailsNeedlesslyIff(OneFileCard(e, 5), LAYOUT, 3, 512);
  }

  lemma ThirdCluster(e: DirEntry)
    ensures Flat(LAYOUT, Chain(OneFileCard(e, 5), LAYOUT, 3, 2)) == [4, 5]
  {
    var disk, table := OneFileCard(e, 5), Filled(0xFF);
    assert Word(12) % SECTOR_SIZE == 12 && Word(1 + 12 / SECTOR_SIZE) == 1;
    assert disk(1) == Some(table);
    assert table[12] == 0xFF && table[13] == 0xFF && table[14] == 0xFF && table[15] == 0xFF;
    assert NextCluster(disk, LAYOUT, 3) == 0x0FFF_FFFF;
    assert Chain(disk, LAYOUT, 3, 2) == [3];
    OneCluster(LAYOUT, 3);
    ClusterIs(3);
  }

  // ---------- a file cut short ----------

  /** Cluster 4 follows cluster 3, and every other chain is one cluster. */
  const LINKED: Sector := Filled(0xFF)[12 := 4][13 := 0][14 := 0][15 := 0]

  lemma LinkedNext(e: DirEntry, bad: U32)
    requires bad > 2
    ensures NextCluster(FileCard(LINKED, e, bad), LAYOUT, 3) == 4
    ensures NextCluster(FileCard(LINKED, e, bad), LAYOUT, 4) == 0x0FFF_FFFF
  {
    var disk := FileCard(LINKED, e, bad);
    assert TableSector(LAYOUT, 3) == 1 == TableSector(LAYOUT, 4) && disk(1) == Some(LINKED);
    assert Word(12) % SECTOR_SIZE == 12 && Word(16) % SECTOR_SIZE == 16;
    assert LINKED[12] == 4 && LINKED[13] == 0 && LINKED[14] == 0 && LINKED[15] == 0;
    assert LINKED[16] == 0xFF && LINKED[17] == 0xFF && LINKED[18] == 0xFF && LINKED[19] == 0xFF;
  }

  lemma LinkedChain(e: DirEntry, bad: U32)
    requires bad == 1 || bad > 2
    ensures Chain(FileCard(LINKED, e, bad), LAYOUT, 3, 5) == if bad == 1 then [3] else [3, 4]
  {
    var disk := FileCard(LINKED, e, bad);
    if bad == 1 {
      assert TableSector(LAYOUT, 3) == 1 && disk(1) == None;
      assert NextCluster(disk, LAYOUT, 3) == 0x0FFF_FFF8;
    } else {
      LinkedNext(e, bad);
      assert Chain(disk, LAYOUT, 4, 4) == [4];
    }
  }

  lemma TwoClusters()
    ensures Flat(LAYOUT, [3]) == [4, 5] && Flat(LAYOUT, [3, 4]) == [4, 5, 6, 7]
  {
    OneCluster(LAYOUT, 3);
    OneCluster(LAYOUT, 4);
    ClusterIs(3);
    ClusterIs(4);
    FlatAppend(LAYOUT, [3], [4]);
    assert [3] + [4] == [3, 4];
  }

  /** For every name there is a card with a file of 2048 bytes of which the call delivers the
      first 1024 as if they were all, because the table cannot be read; without that fault it
      delivers all of them. */
  lemma FileIsCutShort(n: Names, faulty: bool)
    requires Usable(n.name)
    ensures var e := FileEntry(n.name, 0, 3, 8);
            var disk := FileCard(LINKED, e, if faulty then 1 else WRAP - 1);
            && Mount(disk) == Some(LAYOUT) && RootVerdict(disk, LAYOUT, FilePattern(n)) == Closed(Some(e))
            && FileSize(e) == 2048 && Delivered(disk, n, 2048).Some?
            && |Delivered(disk, n, 2048).value| == if faulty then 1024 else 2048
  {
    var bad := if faulty then 1 else WRAP - 1;
    OneFileDelivers(LINKED, n, 0, 3, 8, bad, 2048);
    LinkedReads(FileEntry(n.name, 0, 3, 8), bad);
  }

  lemma LinkedReads(e: DirEntry, bad: U32)
    requires bad == 1 || bad > 7
    ensures var r := ReadResult(FileCard(LINKED, e, bad), LAYOUT, 3, 2048);
            r.Some? && |r.value| == if bad == 1 then 1024 else 2048
  {
    LinkedChain(e, bad);
    TwoClusters();
    assert Readable(FileCard(LINKED, e, bad), if bad == 1 then [4, 5] else [4, 5, 6, 7]);
  }
}
