/** The reader's code (sd_driver.c): two sector buffers, the directory scan and the copy loop,
    each proved against FatReader. */
module FatCard {
  import opened Machine
  import opened Options
  import opened FatLayout
  import opened FatReader
  import opened FatNames

  datatype Names = Names(name: seq<Byte>, alias: seq<Byte>, tables: seq<Byte>)

  /** What an array of C characters keeps of a text. */
  function Codes(s: string): seq<Byte> {
    seq(|s|, i requires 0 <= i < |s| => s[i] as int % 256)
  }

  /** The names a call looks for: the 8.3 name, the guessed alias, and the subdirectory. */
  function NamesFor(name: string): Names {
    Names(Codes(Name83(name)), Codes(AliasGuess(name)), Codes(Name83("tables")))
  }

  function FilePattern(n: Names): Pattern {
    Pattern(n.name, Some(n.alias), false)
  }

  function TablesPattern(n: Names): Pattern {
    Pattern(n.tables, None, true)
  }

  // ---------- the whole call as a function ----------

  function Mount(disk: Disk): (r: Option<Bpb>)
    ensures r.Some? ==> Sane(r.value)
  {
    match disk(0)
    case None => None
    case Some(first) =>
      var vbr := FindVbr(first);
      if vbr == 0 then ParseBpb(first, 0)
      else match disk(vbr)
        case None => None
        case Some(s) => ParseBpb(s, vbr)
  }

  /** A scan's two results: start cluster, zero when there is no hit, and size. */
  function Hit(v: Verdict): (U32, U32) {
    if v.Closed? && v.hit.Some? then (StartCluster(v.hit.value), FileSize(v.hit.value)) else (0, 0)
  }

  ghost function RootVerdict(disk: Disk, b: Bpb, p: Pattern): Verdict
    requires Sane(b)
  {
    if b.fat32 then DirVerdict(disk, b, 0, 0, b.rootCluster, p)
    else DirVerdict(disk, b, b.rootDirSector, b.rootDirSectors, 0, p)
  }

  ghost function ScanRoot(disk: Disk, b: Bpb, p: Pattern): (U32, U32)
    requires Sane(b)
  {
    Hit(RootVerdict(disk, b, p))
  }

  /** Root directory first, then the tables subdirectory. */
  ghost function FileVerdict(disk: Disk, b: Bpb, n: Names): Verdict
    requires Sane(b)
  {
    var root, tables := RootVerdict(disk, b, FilePattern(n)), ScanRoot(disk, b, TablesPattern(n)).0;
    if Hit(root).0 == 0 && tables != 0 then DirVerdict(disk, b, 0, 0, tables, FilePattern(n)) else root
  }

  ghost function Locate(disk: Disk, b: Bpb, n: Names): (U32, U32)
    requires Sane(b)
  {
    Hit(FileVerdict(disk, b, n))
  }

  ghost predicate RootCircles(disk: Disk, b: Bpb, p: Pattern)
    requires Sane(b)
  {
    b.fat32 && Circles(disk, b, b.rootCluster, p)
  }

  /** None of the directory scans this call makes comes back to a cluster it has scanned. */
  ghost predicate NoCircle(disk: Disk, n: Names) {
    match Mount(disk)
    case None => true
    case Some(b) =>
      && !RootCircles(disk, b, FilePattern(n))
      && (ScanRoot(disk, b, FilePattern(n)).0 == 0 ==>
            && !RootCircles(disk, b, TablesPattern(n))
            && !Circles(disk, b, ScanRoot(disk, b, TablesPattern(n)).0, FilePattern(n)))
  }

  /** A card without circular chains never gets there, whatever it is asked for. */
  lemma AcyclicCardHasNoCircle(disk: Disk, n: Names)
    requires Mount(disk).Some? ==> forall c: U32 :: Acyclic(disk, Mount(disk).value, c)
    ensures NoCircle(disk, n)
  {
    if Mount(disk).Some? {
      var b := Mount(disk).value;
      AcyclicScanEnds(disk, b, b.rootCluster, FilePattern(n));
      AcyclicScanEnds(disk, b, b.rootCluster, TablesPattern(n));
      AcyclicScanEnds(disk, b, ScanRoot(disk, b, TablesPattern(n)).0, FilePattern(n));
    }
  }

  /** What sd_read_file delivers: nothing stands for its -1. */
  ghost function Delivered(disk: Disk, n: Names, bufSize: int): Option<seq<Byte>> {
    match Mount(disk)
    case None => None
    case Some(b) => Fetched(disk, b, Locate(disk, b, n), bufSize)
  }

  function Fetched(disk: Disk, b: Bpb, found: (U32, U32), bufSize: int): Option<seq<Byte>>
    requires Sane(b)
  {
    if found.0 == 0 then None
    else if found.1 == 0 then Some([])
    else ReadResult(disk, b, found.0, Limit(found.1, bufSize))
  }

  function Limit(fileSize: U32, bufSize: int): nat {
    if bufSize <= 0 then 0 else if bufSize < fileSize then bufSize else fileSize
  }

  /** The call for a file whose entry is the first match in the root directory, on a card
      without a tables directory, fails exactly when the low 16 bits of the entry's start
      cluster are zero - as they are for every empty file - or a sector it looks at cannot be
      read. */
  lemma RootFileFailsIff(disk: Disk, n: Names, bufSize: int, b: Bpb, e: DirEntry)
    requires Mount(disk) == Some(b) && RootVerdict(disk, b, FilePattern(n)) == Closed(Some(e))
    requires ScanRoot(disk, b, TablesPattern(n)).0 == 0
    ensures Delivered(disk, n, bufSize) == None
            <==> FullStartCluster(e) % 0x1_0000 == 0
                 || (FileSize(e) != 0 && !Readable(disk, Wanted(disk, b, StartCluster(e), Limit(FileSize(e), bufSize))))
  {
    RootFileIsFetched(disk, n, bufSize, b, e);
    LowHalf(e);
    FetchFailsIff(disk, b, StartCluster(e), FileSize(e), bufSize);
  }

  lemma RootFileIsFetched(disk: Disk, n: Names, bufSize: int, b: Bpb, e: DirEntry)
    requires Mount(disk) == Some(b) && RootVerdict(disk, b, FilePattern(n)) == Closed(Some(e))
    requires ScanRoot(disk, b, TablesPattern(n)).0 == 0
    ensures Delivered(disk, n, bufSize) == Fetched(disk, b, (StartCluster(e), FileSize(e)), bufSize)
  {
    assert Locate(disk, b, n) == (StartCluster(e), FileSize(e));
  }

  lemma LowHalf(e: DirEntry)
    ensures FullStartCluster(e) % 0x1_0000 == StartCluster(e)
  {
  }

  lemma FetchFailsIff(disk: Disk, b: Bpb, cluster: U32, size: U32, bufSize: int)
    requires Sane(b)
    ensures Fetched(disk, b, (cluster, size), bufSize) == None
            <==> cluster == 0 || (size != 0 && !Readable(disk, Wanted(disk, b, cluster, Limit(size, bufSize))))
  {
  }

  /** list is the flat list of the directory's entries, as far as a scan for p may have to look. */
  ghost predicate Lists(disk: Disk, b: Bpb, start: U32, len: U32, c: U32, p: Pattern, list: seq<DirEntry>)
    requires Sane(b)
  {
    if c >= 2 then exists k: nat :: ScanEnds(disk, b, c, p, k) && list == Listing(disk, Flat(b, DirChain(disk, b, c, k)))
    else list == Listing(disk, Run(start, len))
  }

  ghost predicate RootLists(disk: Disk, b: Bpb, p: Pattern, list: seq<DirEntry>)
    requires Sane(b)
  {
    if b.fat32 then Lists(disk, b, 0, 0, b.rootCluster, p, list)
    else Lists(disk, b, b.rootDirSector, b.rootDirSectors, 0, p, list)
  }

  lemma DirVerdictIsList(disk: Disk, b: Bpb, start: U32, len: U32, c: U32, p: Pattern, list: seq<DirEntry>)
    requires Sane(b) && (forall s: U32 :: disk(s).Some?) && Lists(disk, b, start, len, c, p, list)
    ensures DirVerdict(disk, b, start, len, c, p) == JudgeList(list, p)
  {
    if c >= 2 {
      var k: nat :| ScanEnds(disk, b, c, p, k) && list == Listing(disk, Flat(b, DirChain(disk, b, c, k)));
      ChainVerdictIs(disk, b, c, p, k);
      ClustersAreSectors(disk, b, DirChain(disk, b, c, k), p);
      ScanIsList(disk, Flat(b, DirChain(disk, b, c, k)), p);
    } else {
      ScanIsList(disk, Run(start, len), p);
    }
  }

  /** Start cluster of the first match in a flat list, or zero. */
  function FirstStart(list: seq<DirEntry>, p: Pattern): U32 {
    Hit(JudgeList(list, p)).0
  }

  /** With every sector readable the call succeeds exactly when the first match in the root
      directory's list has a start cluster, or the first match in the list of the tables
      directory does. */
  lemma SucceedsIffListed(
    disk: Disk, n: Names, bufSize: int, b: Bpb, root: seq<DirEntry>, tables: seq<DirEntry>)
    requires Mount(disk) == Some(b) && forall s: U32 :: disk(s).Some?
    requires RootLists(disk, b, FilePattern(n), root) && RootLists(disk, b, TablesPattern(n), root)
    requires Lists(disk, b, 0, 0, FirstStart(root, TablesPattern(n)), FilePattern(n), tables)
    ensures Delivered(disk, n, bufSize).Some?
            <==> FirstStart(root, FilePattern(n)) != 0
                 || (FirstStart(root, TablesPattern(n)) != 0 && FirstStart(tables, FilePattern(n)) != 0)
  {
    RootVerdictIsList(disk, b, FilePattern(n), root);
    RootVerdictIsList(disk, b, TablesPattern(n), root);
    DirVerdictIsList(disk, b, 0, 0, FirstStart(root, TablesPattern(n)), FilePattern(n), tables);
    LocateByLists(disk, n, b, root, tables);
    SucceedsIffLocated(disk, n, bufSize, b);
  }

  lemma SucceedsIffLocated(disk: Disk, n: Names, bufSize: int, b: Bpb)
    requires Mount(disk) == Some(b) && forall s: U32 :: disk(s).Some?
    ensures Delivered(disk, n, bufSize).Some? <==> Locate(disk, b, n).0 != 0
  {
    var found := Locate(disk, b, n);
    FetchFailsIff(disk, b, found.0, found.1, bufSize);
  }

  lemma LocateByLists(disk: Disk, n: Names, b: Bpb, root: seq<DirEntry>, tables: seq<DirEntry>)
    requires Sane(b)
    requires RootVerdict(disk, b, FilePattern(n)) == JudgeList(root, FilePattern(n))
    requires RootVerdict(disk, b, TablesPattern(n)) == JudgeList(root, TablesPattern(n))
    requires DirVerdict(disk, b, 0, 0, FirstStart(root, TablesPattern(n)), FilePattern(n)) == JudgeList(tables, FilePattern(n))
    ensures Locate(disk, b, n).0 != 0
            <==> FirstStart(root, FilePattern(n)) != 0
                 || (FirstStart(root, TablesPattern(n)) != 0 && FirstStart(tables, FilePattern(n)) != 0)
  {
  }

  lemma RootVerdictIsList(disk: Disk, b: Bpb, p: Pattern, root: seq<DirEntry>)
    requires Sane(b) && (forall s: U32 :: disk(s).Some?) && RootLists(disk, b, p, root)
    ensures RootVerdict(disk, b, p) == JudgeList(root, p)
  {
    if b.fat32 {
      DirVerdictIsList(disk, b, 0, 0, b.rootCluster, p, root);
    } else {
      DirVerdictIsList(disk, b, b.rootDirSector, b.rootDirSectors, 0, p, root);
    }
  }

  /** With every sector readable, a file found in one of the two directories, whose start
      cluster is below 65536, is delivered as the first min(size, buffer, chain) bytes of its
      own cluster chain. */
  lemma LocatedFileIsDelivered(disk: Disk, n: Names, bufSize: int, b: Bpb, e: DirEntry, len: nat)
    requires Mount(disk) == Some(b) && FileVerdict(disk, b, n) == Closed(Some(e))
    requires 0 < FullStartCluster(e) < 0x1_0000 && forall s: U32 :: disk(s).Some?
    requires |Chain(disk, b, FullStartCluster(e), len + 1)| <= len
    ensures var file := Join(disk, Flat(b, Chain(disk, b, FullStartCluster(e), len)));
            Delivered(disk, n, bufSize) == Some(First(file, Limit(FileSize(e), bufSize)))
  {
    var cluster, size := FullStartCluster(e), FileSize(e);
    StartIsExactIffSmall(e);
    if size != 0 {
      ReadIsChainPrefix(disk, b, cluster, Limit(size, bufSize), len);
    } else {
      assert First(Join(disk, Flat(b, Chain(disk, b, cluster, len))), 0) == [];
    }
  }

  // ---------- the code ----------

  datatype Scan = More | Over(cluster: U32, size: U32)

  function Report(v: Verdict): Scan {
    if v.Open? then More else Over(Hit(v).0, Hit(v).1)
  }

  class Card {
    const disk: Disk
    const secBuf: array<Byte>
    const dirBuf: array<Byte>

    ghost predicate Valid() {
      secBuf.Length == SECTOR_SIZE && dirBuf.Length == SECTOR_SIZE && secBuf != dirBuf
    }

    constructor (card: Disk)
      ensures Valid() && disk == card && fresh(secBuf) && fresh(dirBuf)
    {
      disk := card;
      secBuf := new Byte[SECTOR_SIZE](i => 0);
      dirBuf := new Byte[SECTOR_SIZE](i => 0);
    }

    method ReadSector(sec: U32, into: array<Byte>) returns (ok: bool)
      requires into.Length == SECTOR_SIZE
      modifies into
      ensures ok <==> disk(sec).Some?
      ensures ok ==> into[..] == disk(sec).value
    {
      match disk(sec)
      case None => ok := false;
      case Some(s) =>
        forall i | 0 <= i < SECTOR_SIZE {
          into[i] := s[i];
        }
        ok := true;
    }

    method FatNextCluster(b: Bpb, c: U32) returns (next: U32)
      requires Valid()
      modifies secBuf
      ensures next == NextCluster(disk, b, c)
    {
      NoStraddling(b, c);
      if b.fat32 {
        var off := Word(c * 4);
        var ok := ReadSector(Word(b.fatStart + off / SECTOR_SIZE), secBuf);
        if !ok {
          return 0x0FFF_FFF8;
        }
        next := Ru32(secBuf[..], off % SECTOR_SIZE) % 0x1000_0000;
      } else {
        var off := Word(c * 2);
        var ok := ReadSector(Word(b.fatStart + off / SECTOR_SIZE), secBuf);
        if !ok {
          return 0xFFFF;
        }
        next := Ru16(secBuf[..], off % SECTOR_SIZE);
      }
    }

    /** One entry: the end, a hit, or one to pass over. */
    method ScanEntry(de: DirEntry, p: Pattern) returns (r: Scan)
      ensures r == if LastEntry(de) then Over(0, 0) else if Matches(de, p) then Over(StartCluster(de), FileSize(de)) else More
    {
      if de[0] == 0x00 {
        return Over(0, 0);
      }
      if de[0] == 0xE5 {
        return More;
      }
      var attr := de[11];
      if attr == 0x0F {
        return More;
      }
      if attr / 0x08 % 2 == 1 {
        return More;
      }
      if de[0] == 0x2E {
        return More;
      }
      if p.wantDir && attr / 0x10 % 2 == 0 {
        return More;
      }
      if !p.wantDir && attr / 0x10 % 2 == 1 {
        return More;
      }
      if de[..11] == p.name || (p.alias.Some? && de[..11] == p.alias.value) {
        return Over(Ru16(de, 26), Ru32(de, 28));
      }
      return More;
    }

    /** The 16 entries of the sector in dirBuf. */
    method ScanSector(p: Pattern) returns (r: Scan)
      requires Valid()
      ensures r == Report(JudgeSector(dirBuf[..], p, 0))
    {
      var entry := 0;
      while entry < ENTRIES_PER_SECTOR
        invariant 0 <= entry <= ENTRIES_PER_SECTOR
        invariant JudgeSector(dirBuf[..], p, 0) == JudgeSector(dirBuf[..], p, entry)
      {
        var de: DirEntry := dirBuf[32 * entry..32 * entry + 32];
        assert de == EntryAt(dirBuf[..], entry);
        r := ScanEntry(de, p);
        if r.Over? {
          return;
        }
        entry := entry + 1;
      }
      r := More;
    }

    /** One pass of the scan: consecutive sectors, of the region or of one cluster. */
    method ScanRun(first: U32, len: nat, p: Pattern) returns (r: Scan)
      requires Valid()
      modifies dirBuf
      ensures r == Report(Judge(disk, Run(first, len), p))
    {
      var s := 0;
      while s < len
        invariant 0 <= s <= len
        invariant Judge(disk, Run(first, s), p) == Open
      {
        var sec := Word(first + s);
        ScanStep(disk, first, len, s, p);
        var ok := ReadSector(sec, dirBuf);
        if !ok {
          return Over(0, 0);
        }
        r := ScanSector(p);
        if r.Over? {
          return r;
        }
        s := s + 1;
      }
      return More;
    }

    /** The scan of a cluster chain that does not come back. */
    method ScanChain(b: Bpb, startCluster: U32, p: Pattern) returns (cluster: U32, size: U32)
      requires Valid() && Sane(b) && startCluster >= 2 && !Circles(disk, b, startCluster, p)
      modifies secBuf, dirBuf
      ensures (cluster, size) == Hit(ChainVerdict(disk, b, startCluster, p))
    {
      var c := startCluster;
      ghost var left := Enough(disk, b, c, p);
      while true
        invariant Finishes(disk, b, c, p, left)
        invariant ChainVerdict(disk, b, startCluster, p) == ScanFrom(disk, b, c, p, left)
        decreases left
      {
        left := left - 1;
        var r := ScanRun(ClusterStart(b, c), b.sectorsPerCluster, p);
        if r.Over? {
          return r.cluster, r.size;
        }
        c := FatNextCluster(b, c);
        if !ValidCluster(b, c) {
          return 0, 0;
        }
      }
    }

    /** fat_scan_dir. */
    method ScanDir(b: Bpb, startSector: U32, maxSectors: U32, startCluster: U32, p: Pattern)
      returns (cluster: U32, size: U32)
      requires Valid() && Sane(b) && !Circles(disk, b, startCluster, p)
      modifies secBuf, dirBuf
      ensures (cluster, size) == Hit(DirVerdict(disk, b, startSector, maxSectors, startCluster, p))
    {
      if startCluster >= 2 {
        cluster, size := ScanChain(b, startCluster, p);
      } else {
        var r := ScanRun(startSector, maxSectors, p);
        if r.Over? {
          return r.cluster, r.size;
        }
        return 0, 0;
      }
    }

    // ---------- copying ----------

    /** Copies one sector from secBuf, up to the limits; done as soon as a byte beyond the
        limit is about to be copied. */
    method CopySector(buf: array<Byte>, start: nat, fileSize: U32, bufSize: int) returns (bytesRead: nat, done: bool)
      requires Valid() && buf != secBuf && bufSize <= buf.Length && start <= Limit(fileSize, bufSize)
      modifies buf
      ensures var n := Limit(fileSize, bufSize);
              && bytesRead == (if start + SECTOR_SIZE <= n then start + SECTOR_SIZE else n)
              && (done <==> n < start + SECTOR_SIZE)
      ensures buf[..bytesRead] == old(buf[..start]) + secBuf[..bytesRead - start]
      ensures buf[bytesRead..] == old(buf[bytesRead..])
    {
      bytesRead, done := start, false;
      var i := 0;
      while i < SECTOR_SIZE && !done
        invariant 0 <= i <= SECTOR_SIZE && bytesRead == start + i <= Limit(fileSize, bufSize)
        invariant !done
        invariant forall k :: 0 <= k < start ==> buf[k] == old(buf[k])
        invariant forall k :: start <= k < bytesRead ==> buf[k] == secBuf[k - start]
        invariant forall k :: bytesRead <= k < buf.Length ==> buf[k] == old(buf[k])
      {
        if bytesRead >= fileSize || bytesRead >= bufSize {
          done := true;
          break;
        }
        buf[bytesRead] := secBuf[i];
        bytesRead, i := bytesRead + 1, i + 1;
      }
    }

    /** Reads one more sector and copies it; taken lists the sectors copied before. */
    method TakeSector(sec: U32, buf: array<Byte>, start: nat, fileSize: U32, bufSize: int, ghost taken: seq<U32>)
      returns (ok: bool, bytesRead: nat, done: bool)
      requires Valid() && buf != secBuf && bufSize <= buf.Length && start <= buf.Length
      requires Copied(disk, taken, Limit(fileSize, bufSize), buf[..start], false)
      modifies buf, secBuf
      ensures ok <==> disk(sec).Some?
      ensures ok ==> bytesRead <= buf.Length && Copied(disk, taken + [sec], Limit(fileSize, bufSize), buf[..bytesRead], done)
      ensures ok ==> start <= bytesRead && buf[bytesRead..] == old(buf[bytesRead..])
    {
      ok := ReadSector(sec, secBuf);
      if !ok {
        return false, start, false;
      }
      OneMoreSector(disk, taken, sec, Limit(fileSize, bufSize));
      bytesRead, done := CopySector(buf, start, fileSize, bufSize);
    }

    /** The sectors of one cluster, until done. */
    method ReadCluster(b: Bpb, c: U32, buf: array<Byte>, start: nat, fileSize: U32, bufSize: int, ghost taken: seq<U32>)
      returns (ok: bool, bytesRead: nat, done: bool)
      requires Valid() && Sane(b) && buf != secBuf && bufSize <= buf.Length && start <= buf.Length
      requires Copied(disk, taken, Limit(fileSize, bufSize), buf[..start], false)
      modifies buf, secBuf
      ensures var more := MoreSectors(b, c, Limit(fileSize, bufSize), taken);
              && (ok <==> Readable(disk, more))
              && (ok ==> bytesRead <= buf.Length && Copied(disk, taken + more, Limit(fileSize, bufSize), buf[..bytesRead], done))
      ensures ok ==> start <= bytesRead && buf[bytesRead..] == old(buf[bytesRead..])
    {
      ghost var all := MoreSectors(b, c, Limit(fileSize, bufSize), taken);
      ghost var got := taken;
      bytesRead, done := start, false;
      var s := 0;
      while s < b.sectorsPerCluster && !done
        invariant 0 <= s <= |all| && got == taken + all[..s]
        invariant start <= bytesRead <= buf.Length && Copied(disk, got, Limit(fileSize, bufSize), buf[..bytesRead], done)
        invariant buf[bytesRead..] == old(buf[bytesRead..])
        decreases b.sectorsPerCluster - s
      {
        var sec := Word(ClusterStart(b, c) + s);
        assert sec == all[s];
        ok, bytesRead, done := TakeSector(sec, buf, bytesRead, fileSize, bufSize, got);
        if !ok {
          return;
        }
        got := got + [sec];
        s := s + 1;
      }
      assert all[..s] == all;
      PartsReadable(disk, taken, all);
      ok := true;
    }

    /** One turn of the copy loop: a cluster, then the look-up of the next one. */
    method ReadTurn(b: Bpb, c: U32, buf: array<Byte>, start: nat, fileSize: U32, bufSize: int,
                    ghost fileCluster: U32, ghost left: nat, ghost taken: seq<U32>)
      returns (ok: bool, bytesRead: nat, done: bool, next: U32, ghost left': nat, ghost taken': seq<U32>)
      requires Valid() && Sane(b) && buf != secBuf && bufSize <= buf.Length && start <= buf.Length
      requires Copied(disk, taken, Limit(fileSize, bufSize), buf[..start], false)
      requires Standing(disk, b, fileCluster, Limit(fileSize, bufSize), c, left, taken, false) && ValidCluster(b, c)
      modifies buf, secBuf
      ensures !ok ==> ReadResult(disk, b, fileCluster, Limit(fileSize, bufSize)) == None
      ensures ok ==> start <= bytesRead <= buf.Length && left' < left
      ensures ok ==> Copied(disk, taken', Limit(fileSize, bufSize), buf[..bytesRead], done)
      ensures ok ==> Standing(disk, b, fileCluster, Limit(fileSize, bufSize), next, left', taken', done)
      ensures ok ==> buf[bytesRead..] == old(buf[bytesRead..])
    {
      ghost var n := Limit(fileSize, bufSize);
      left', taken', next := left, taken, c;
      ClusterIsWanted(disk, b, fileCluster, n, c, left, taken);
      ok, bytesRead, done := ReadCluster(b, c, buf, start, fileSize, bufSize, taken);
      if !ok {
        return;
      }
      next := FatNextCluster(b, c);
      left', taken' := NextStanding(disk, b, fileCluster, n, c, left, taken, done);
    }

    /** The copy loop of sd_read_file: it ends on every table, even a circular one, because a
        cluster that does not set done copies at least one sector. */
    method ReadChain(b: Bpb, buf: array<Byte>, fileCluster: U32, fileSize: U32, bufSize: int) returns (r: int)
      requires Valid() && Sane(b) && buf != secBuf && bufSize <= buf.Length
      modifies buf, secBuf
      ensures r == Count(ReadResult(disk, b, fileCluster, Limit(fileSize, bufSize)))
      ensures r >= 0 ==> r <= buf.Length && buf[..r] == ReadResult(disk, b, fileCluster, Limit(fileSize, bufSize)).value
      ensures r >= 0 ==> buf[r..] == old(buf[r..])
    {
      ghost var n := Limit(fileSize, bufSize);
      ghost var taken: seq<U32> := [];
      ghost var left: nat := n / SECTOR_SIZE + 1;
      var bytesRead: nat, done, cluster := 0, false, fileCluster;
      StartsWalking(disk, b, fileCluster, n);
      while !done && ValidCluster(b, cluster)
        invariant bytesRead <= buf.Length && Copied(disk, taken, n, buf[..bytesRead], done)
        invariant Standing(disk, b, fileCluster, n, cluster, left, taken, done)
        invariant buf[bytesRead..] == old(buf[bytesRead..])
        decreases left
      {
        var ok;
        ok, bytesRead, done, cluster, left, taken :=
          ReadTurn(b, cluster, buf, bytesRead, fileSize, bufSize, fileCluster, left, taken);
        if !ok {
          return -1;
        }
      }
      ChainIsRead(disk, b, fileCluster, n, cluster, left, taken, buf[..bytesRead], done);
      return bytesRead;
    }

    // ---------- the whole call ----------

    method MountCard() returns (b: Option<Bpb>)
      requires Valid()
      modifies secBuf
      ensures b == Mount(disk)
    {
      var ok := ReadSector(0, secBuf);
      if !ok {
        return None;
      }
      var vbr := FindVbr(secBuf[..]);
      if vbr != 0 {
        ok := ReadSector(vbr, secBuf);
        if !ok {
          return None;
        }
      }
      b := ParseBpb(secBuf[..], vbr);
    }

    method ScanRootDir(b: Bpb, p: Pattern) returns (cluster: U32, size: U32)
      requires Valid() && Sane(b) && !RootCircles(disk, b, p)
      modifies secBuf, dirBuf
      ensures (cluster, size) == ScanRoot(disk, b, p)
    {
      if b.fat32 {
        cluster, size := ScanDir(b, 0, 0, b.rootCluster, p);
      } else {
        cluster, size := ScanDir(b, b.rootDirSector, b.rootDirSectors, 0, p);
      }
    }

    method MakeNames(name: string) returns (n: Names)
      ensures n == NamesFor(name)
    {
      var name83, alias83, tables83 := new char[11], new char[11], new char[11];
      To83(name, name83);
      To83AliasGuess(name, alias83);
      To83("tables", tables83);
      n := Names(Codes(name83[..]), Codes(alias83[..]), Codes(tables83[..]));
    }

    /** The search of sd_read_file: the root directory, then the tables directory. */
    method Find(b: Bpb, n: Names) returns (cluster: U32, size: U32)
      requires Valid() && Mount(disk) == Some(b) && NoCircle(disk, n)
      modifies secBuf, dirBuf
      ensures (cluster, size) == Locate(disk, b, n)
    {
      cluster, size := ScanRootDir(b, FilePattern(n));
      if cluster == 0 {
        var tablesCluster, _ := ScanRootDir(b, TablesPattern(n));
        if tablesCluster != 0 {
          cluster, size := ScanDir(b, 0, 0, tablesCluster, FilePattern(n));
        }
      }
    }

    /** sd_read_file; like the source it relies on directory scans that do not circle. */
    method SdReadFile(name: string, buf: array<Byte>, bufSize: int) returns (r: int)
      requires Valid() && buf != secBuf && buf != dirBuf && bufSize <= buf.Length && NoCircle(disk, NamesFor(name))
      modifies buf, secBuf, dirBuf
      ensures var bytes := Delivered(disk, NamesFor(name), bufSize);
              && r == Count(bytes)
              && (r >= 0 ==> r <= buf.Length && buf[..r] == bytes.value && buf[r..] == old(buf[r..]))
    {
      var n := MakeNames(name);
      var mounted := MountCard();
      if mounted.None? {
        return -1;
      }
      var b := mounted.value;
      var fileCluster, fileSize := Find(b, n);
      if fileCluster == 0 {
        return -1;
      }
      if fileSize == 0 {
        return 0;
      }
      r := ReadChain(b, buf, fileCluster, fileSize, bufSize);
    }
  }

  function Count(bytes: Option<seq<Byte>>): int {
    if bytes.Some? then |bytes.value| else -1
  }

  /** The sectors of a cluster that are still wanted after those in taken. */
  function MoreSectors(b: Bpb, c: U32, n: nat, taken: seq<U32>): seq<U32>
    requires SECTOR_SIZE * |taken| <= n
  {
    First(ClusterSectors(b, c), n / SECTOR_SIZE + 1 - |taken|)
  }

  /** The sectors taken so far have been read, and bytes is what they hold, up to the limit n. */
  predicate Copied(disk: Disk, taken: seq<U32>, n: nat, bytes: seq<Byte>, done: bool) {
    && Readable(disk, taken) && bytes == First(Join(disk, taken), n)
    && (done <==> n < SECTOR_SIZE * |taken|)
  }

  lemma OneMoreSector(disk: Disk, taken: seq<U32>, sec: U32, n: nat)
    requires Readable(disk, taken) && disk(sec).Some? && SECTOR_SIZE * |taken| <= n
    ensures Readable(disk, taken + [sec])
    ensures First(Join(disk, taken), n) == Join(disk, taken)
    ensures First(Join(disk, taken + [sec]), n) == Join(disk, taken) + First(disk(sec).value, n - SECTOR_SIZE * |taken|)
  {
    JoinAppend(disk, taken, [sec]);
    assert Join(disk, [sec]) == disk(sec).value by {
      assert [sec][..0] == [];
    }
    FirstConcat(Join(disk, taken), disk(sec).value, n);
  }

  lemma FirstConcat<T>(a: seq<T>, b: seq<T>, n: nat)
    requires |a| <= n
    ensures First(a, n) == a && First(a + b, n) == a + First(b, n - |a|)
  {
  }

  lemma PartsReadable(disk: Disk, a: seq<U32>, b: seq<U32>)
    requires Readable(disk, a + b)
    ensures Readable(disk, a) && Readable(disk, b)
  {
    forall k | 0 <= k < |b| ensures disk(b[k]).Some? {
      assert (a + b)[|a| + k] == b[k];
    }
    forall k | 0 <= k < |a| ensures disk(a[k]).Some? {
      assert (a + b)[k] == a[k];
    }
  }

  /** Where the copy loop stands before a cluster: what it has taken and what the next left
      clusters hold make up the sectors of the chain. */
  predicate Walking(disk: Disk, b: Bpb, start: U32, n: nat, c: U32, left: nat, taken: seq<U32>)
    requires Sane(b)
  {
    && Flat(b, Chain(disk, b, start, n / SECTOR_SIZE + 1)) == taken + Flat(b, Chain(disk, b, c, left))
    && |taken| <= n / SECTOR_SIZE < |taken| + left
  }

  predicate Standing(disk: Disk, b: Bpb, start: U32, n: nat, c: U32, left: nat, taken: seq<U32>, done: bool)
    requires Sane(b)
  {
    if done then taken == Wanted(disk, b, start, n) else Walking(disk, b, start, n, c, left, taken)
  }

  lemma StartsWalking(disk: Disk, b: Bpb, start: U32, n: nat)
    requires Sane(b)
    ensures Standing(disk, b, start, n, start, n / SECTOR_SIZE + 1, [], false)
  {
    var all := Flat(b, Chain(disk, b, start, n / SECTOR_SIZE + 1));
    assert [] + all == all;
  }

  lemma NextOfChain(disk: Disk, b: Bpb, c: U32, left: nat)
    requires Sane(b) && left > 0 && ValidCluster(b, c)
    ensures Flat(b, Chain(disk, b, c, left))
            == ClusterSectors(b, c) + Flat(b, Chain(disk, b, NextCluster(disk, b, c), left - 1))
  {
    var rest := Chain(disk, b, NextCluster(disk, b, c), left - 1);
    assert Chain(disk, b, c, left) == [c] + rest;
    FlatAppend(b, [c], rest);
    OneCluster(b, c);
  }

  /** The sectors of the cluster the loop stands before are the next wanted ones. */
  lemma ClusterIsWanted(disk: Disk, b: Bpb, start: U32, n: nat, c: U32, left: nat, taken: seq<U32>)
    requires Sane(b) && Walking(disk, b, start, n, c, left, taken) && ValidCluster(b, c)
    ensures taken + MoreSectors(b, c, n, taken) <= Wanted(disk, b, start, n)
    ensures !Readable(disk, MoreSectors(b, c, n, taken)) ==> ReadResult(disk, b, start, n) == None
  {
    NextOfChain(disk, b, c, left);
    var more, all := MoreSectors(b, c, n, taken), taken + MoreSectors(b, c, n, taken);
    assert all <= Wanted(disk, b, start, n);
    if Readable(disk, Wanted(disk, b, start, n)) {
      PartsReadable(disk, all, Wanted(disk, b, start, n)[|all|..]);
      PartsReadable(disk, taken, more);
    }
  }

  lemma WalksOn(disk: Disk, b: Bpb, start: U32, n: nat, c: U32, left: nat, taken: seq<U32>)
    requires Sane(b) && Walking(disk, b, start, n, c, left, taken) && ValidCluster(b, c)
    requires SECTOR_SIZE * |taken + MoreSectors(b, c, n, taken)| <= n
    ensures Walking(disk, b, start, n, NextCluster(disk, b, c), left - 1, taken + MoreSectors(b, c, n, taken))
  {
    NextOfChain(disk, b, c, left);
    var rest := Flat(b, Chain(disk, b, NextCluster(disk, b, c), left - 1));
    assert MoreSectors(b, c, n, taken) == ClusterSectors(b, c);
    Regroup(taken, ClusterSectors(b, c), rest);
  }

  lemma Regroup<T>(a: seq<T>, b: seq<T>, c: seq<T>)
    ensures a + (b + c) == a + b + c
  {
  }

  lemma NextStanding(disk: Disk, b: Bpb, start: U32, n: nat, c: U32, left: nat, taken: seq<U32>, done: bool)
    returns (left': nat, taken': seq<U32>)
    requires Sane(b) && Walking(disk, b, start, n, c, left, taken) && ValidCluster(b, c)
    requires done <==> n < SECTOR_SIZE * |taken + MoreSectors(b, c, n, taken)|
    ensures left' < left && taken' == taken + MoreSectors(b, c, n, taken)
    ensures Standing(disk, b, start, n, NextCluster(disk, b, c), left', taken', done)
  {
    left', taken' := left - 1, taken + MoreSectors(b, c, n, taken);
    if done {
      ClusterIsWanted(disk, b, start, n, c, left, taken);
      WantedIsShort(disk, b, start, n);
      AllWanted(taken', Wanted(disk, b, start, n), n / SECTOR_SIZE + 1);
    } else {
      WalksOn(disk, b, start, n, c, left, taken);
    }
  }

  lemma WantedIsShort(disk: Disk, b: Bpb, start: U32, n: nat)
    requires Sane(b)
    ensures |Wanted(disk, b, start, n)| <= n / SECTOR_SIZE + 1
  {
  }

  lemma AllWanted(a: seq<U32>, wanted: seq<U32>, m: nat)
    requires a <= wanted && |wanted| <= m <= |a|
    ensures a == wanted
  {
  }

  lemma ChainIsRead(
    disk: Disk, b: Bpb, start: U32, n: nat, c: U32, left: nat, taken: seq<U32>, bytes: seq<Byte>, done: bool)
    requires Sane(b) && Standing(disk, b, start, n, c, left, taken, done) && (done || !ValidCluster(b, c))
    requires Copied(disk, taken, n, bytes, done)
    ensures ReadResult(disk, b, start, n) == Some(bytes)
  {
    if !done {
      assert taken + Flat(b, Chain(disk, b, c, left)) == taken;
    }
  }

  /** The scan of a chain from a cluster, at most left clusters long ... */
  function ScanFrom(disk: Disk, b: Bpb, c: U32, p: Pattern, left: nat): Verdict
    decreases left
  {
    if left == 0 then Open
    else
      var v, next := Judge(disk, ClusterSectors(b, c), p), NextCluster(disk, b, c);
      if v.Closed? || !ValidCluster(b, next) then v else ScanFrom(disk, b, next, p, left - 1)
  }

  /** ... and that it needs no more of them. */
  predicate Finishes(disk: Disk, b: Bpb, c: U32, p: Pattern, left: nat)
    decreases left
  {
    left > 0 &&
    (Judge(disk, ClusterSectors(b, c), p).Closed? || !ValidCluster(b, NextCluster(disk, b, c))
     || Finishes(disk, b, NextCluster(disk, b, c), p, left - 1))
  }

  lemma JudgeNext(disk: Disk, b: Bpb, c: U32, p: Pattern, k: nat)
    requires k > 0
    ensures var v, next := Judge(disk, ClusterSectors(b, c), p), NextCluster(disk, b, c);
            JudgeClusters(disk, b, DirChain(disk, b, c, k), p)
            == if v.Closed? || !ValidCluster(b, next) then v else JudgeClusters(disk, b, DirChain(disk, b, next, k - 1), p)
  {
    if ValidCluster(b, NextCluster(disk, b, c)) {
      OneMoreCluster(disk, b, c, DirChain(disk, b, NextCluster(disk, b, c), k - 1), p);
    } else {
      OneMoreCluster(disk, b, c, [], p);
      assert [c] + [] == [c];
    }
  }

  lemma EndsFromNext(disk: Disk, b: Bpb, c: U32, p: Pattern, k: nat)
    requires Sane(b) && c >= 2 && ScanEnds(disk, b, c, p, k)
    ensures k > 0
    ensures var next := NextCluster(disk, b, c);
            Judge(disk, ClusterSectors(b, c), p).Closed? || !ValidCluster(b, next) || ScanEnds(disk, b, next, p, k - 1)
  {
    if k > 0 {
      JudgeNext(disk, b, c, p, k);
    }
  }

  lemma {:induction false} EndedFinishes(disk: Disk, b: Bpb, c: U32, p: Pattern, k: nat)
    requires Sane(b) && c >= 2 && ScanEnds(disk, b, c, p, k)
    ensures Finishes(disk, b, c, p, k)
    decreases k
  {
    var next := NextCluster(disk, b, c);
    EndsFromNext(disk, b, c, p, k);
    if Judge(disk, ClusterSectors(b, c), p).Open? {
      if ValidCluster(b, next) {
        EndedFinishes(disk, b, next, p, k - 1);
      }
    }
  }

  lemma {:induction false} ScanFromIs(disk: Disk, b: Bpb, c: U32, p: Pattern, k: nat)
    ensures ScanFrom(disk, b, c, p, k) == JudgeClusters(disk, b, DirChain(disk, b, c, k), p)
    decreases k
  {
    if k > 0 {
      JudgeNext(disk, b, c, p, k);
      if Judge(disk, ClusterSectors(b, c), p).Open? {
        if ValidCluster(b, NextCluster(disk, b, c)) {
          ScanFromIs(disk, b, NextCluster(disk, b, c), p, k - 1);
        }
      }
    }
  }

  /** A scan that does not come back needs only so many clusters. */
  lemma Enough(disk: Disk, b: Bpb, c: U32, p: Pattern) returns (k: nat)
    requires Sane(b) && c >= 2 && !Circles(disk, b, c, p)
    ensures Finishes(disk, b, c, p, k) && ChainVerdict(disk, b, c, p) == ScanFrom(disk, b, c, p, k)
  {
    ScanEndsIffNoCircle(disk, b, c, p);
    k :| ScanEnds(disk, b, c, p, k);
    ChainVerdictIs(disk, b, c, p, k);
    EndedFinishes(disk, b, c, p, k);
    ScanFromIs(disk, b, c, p, k);
  }

  /** The next sector of a run decides an open scan, or leaves it open. */
  lemma ScanStep(disk: Disk, first: U32, len: nat, s: nat, p: Pattern)
    requires s < len && Judge(disk, Run(first, s), p) == Open
    ensures var v := JudgeOne(disk, Word(first + s), p);
            Judge(disk, Run(first, s + 1), p) == v && (v.Closed? ==> Judge(disk, Run(first, len), p) == v)
  {
    var run, sec := Run(first, len), Word(first + s);
    assert Run(first, s) == run[..s] && Run(first, s + 1) == run[..s + 1];
    assert run[..s + 1] == run[..s] + [sec] && run == run[..s + 1] + run[s + 1..];
    JudgeAppend(disk, run[..s], [sec], p);
    JudgesOne(disk, sec, p);
    JudgeAppend(disk, run[..s + 1], run[s + 1..], p);
  }

  lemma JudgesOne(disk: Disk, sec: U32, p: Pattern)
    ensures Judge(disk, [sec], p) == JudgeOne(disk, sec, p)
  {
    assert Judge(disk, [sec][1..], p) == Open;
  }

  function JudgeOne(disk: Disk, sec: U32, p: Pattern): Verdict {
    match disk(sec)
    case None => Closed(None)
    case Some(s) => JudgeSector(s, p, 0)
  }
}
