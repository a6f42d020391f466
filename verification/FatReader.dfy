/** Directory scan and file reading on a FAT16/FAT32 volume (sd_driver.c), over the layout of
    FatLayout.  The card's content does not change while a file is read. */
module FatReader {
  import opened Machine
  import opened Options
  import opened FatLayout

  // ---------- directory entries ----------

  const ENTRIES_PER_SECTOR := 16

  type DirEntry = e: seq<Byte> | |e| == 32 witness seq(32, i => 0)

  /** What a scan looks for: an 8.3 name, possibly a second one, and a file or a directory. */
  datatype Pattern = Pattern(name: seq<Byte>, alias: Option<seq<Byte>>, wantDir: bool)

  predicate LastEntry(e: DirEntry) {
    e[0] == 0x00
  }

  predicate IsDir(e: DirEntry) {
    e[11] / 0x10 % 2 == 1
  }

  /** Deleted, long-name, volume-label and dot entries, and entries of the other kind. */
  predicate Skipped(e: DirEntry, p: Pattern) {
    e[0] == 0xE5 || e[11] == 0x0F || e[11] / 0x08 % 2 == 1 || e[0] == 0x2E || p.wantDir != IsDir(e)
  }

  predicate Matches(e: DirEntry, p: Pattern) {
    !LastEntry(e) && !Skipped(e, p) && (e[..11] == p.name || (p.alias.Some? && e[..11] == p.alias.value))
  }

  predicate Stops(e: DirEntry, p: Pattern) {
    LastEntry(e) || Matches(e, p)
  }

  function FileSize(e: DirEntry): U32 {
    Ru32(e, 28)
  }

  /** The start cluster the reader uses. */
  function StartCluster(e: DirEntry): U32 {
    Ru16(e, 26)
  }

  /** The start cluster a FAT32 entry stands for. */
  function FullStartCluster(e: DirEntry): U32 {
    Ru16(e, 26) + 0x1_0000 * Ru16(e, 20)
  }

  /** The reader follows the right chain exactly for start clusters below 65536. */
  lemma StartIsExactIffSmall(e: DirEntry)
    ensures StartCluster(e) == FullStartCluster(e) <==> FullStartCluster(e) < 0x1_0000
  {
  }

  // ---------- a scan as a first-match search ----------

  /** Open: nothing decided yet.  Closed: the scan is over, with or without an entry. */
  datatype Verdict = Open | Closed(hit: Option<DirEntry>)

  function EntryAt(s: Sector, i: nat): DirEntry
    requires i < ENTRIES_PER_SECTOR
  {
    s[32 * i..32 * i + 32]
  }

  function JudgeSector(s: Sector, p: Pattern, i: nat): Verdict
    requires i <= ENTRIES_PER_SECTOR
    decreases |s| - 32 * i
  {
    if i == ENTRIES_PER_SECTOR then Open
    else if LastEntry(EntryAt(s, i)) then Closed(None)
    else if Matches(EntryAt(s, i), p) then Closed(Some(EntryAt(s, i)))
    else JudgeSector(s, p, i + 1)
  }

  /** Scanning sectors in order; one that cannot be read ends the scan without a hit. */
  function Judge(disk: Disk, secs: seq<U32>, p: Pattern): Verdict {
    if secs == [] then Open
    else match disk(secs[0])
      case None => Closed(None)
      case Some(s) =>
        var v := JudgeSector(s, p, 0);
        if v.Closed? then v else Judge(disk, secs[1..], p)
  }

  lemma {:induction false} JudgeAppend(disk: Disk, s: seq<U32>, t: seq<U32>, p: Pattern)
    ensures Judge(disk, s + t, p) == if Judge(disk, s, p).Closed? then Judge(disk, s, p) else Judge(disk, t, p)
  {
    if s == [] {
      assert s + t == t;
    } else {
      assert (s + t)[1..] == s[1..] + t;
      JudgeAppend(disk, s[1..], t, p);
    }
  }

  /** The flat list of 32-byte entries of a list of sectors, up to the first unreadable one. */
  function Listing(disk: Disk, secs: seq<U32>): seq<DirEntry> {
    if secs == [] || disk(secs[0]).None? then [] else EntriesFrom(disk(secs[0]).value, 0) + Listing(disk, secs[1..])
  }

  function EntriesFrom(s: Sector, i: nat): seq<DirEntry>
    requires i <= ENTRIES_PER_SECTOR
    decreases |s| - 32 * i
  {
    if i == ENTRIES_PER_SECTOR then [] else [EntryAt(s, i)] + EntriesFrom(s, i + 1)
  }

  /** Entry i is the first that ends the scan. */
  predicate FirstStop(list: seq<DirEntry>, p: Pattern, i: nat) {
    i < |list| && Stops(list[i], p) && forall j :: 0 <= j < i ==> !Stops(list[j], p)
  }

  /** A scan verdict read off a flat list: the entry at the first stop if that one matches. */
  ghost predicate FirstMatch(v: Verdict, list: seq<DirEntry>, p: Pattern) {
    && (forall i: nat :: FirstStop(list, p, i) ==> v == Closed(if Matches(list[i], p) then Some(list[i]) else None))
    && ((forall i :: 0 <= i < |list| ==> !Stops(list[i], p)) ==> v == Open || v == Closed(None))
  }

  /** The same search over a flat list, entry by entry. */
  function JudgeList(list: seq<DirEntry>, p: Pattern): Verdict {
    if list == [] then Open
    else if LastEntry(list[0]) then Closed(None)
    else if Matches(list[0], p) then Closed(Some(list[0]))
    else JudgeList(list[1..], p)
  }

  function OrElse(v: Verdict, w: Verdict): Verdict {
    if v.Closed? then v else w
  }

  lemma {:induction false} JudgeListAppend(a: seq<DirEntry>, b: seq<DirEntry>, p: Pattern)
    ensures JudgeList(a + b, p) == OrElse(JudgeList(a, p), JudgeList(b, p))
  {
    if a == [] {
      assert a + b == b;
    } else {
      assert (a + b)[1..] == a[1..] + b;
      JudgeListAppend(a[1..], b, p);
    }
  }

  lemma {:induction false} SectorIsList(s: Sector, p: Pattern, i: nat)
    requires i <= ENTRIES_PER_SECTOR
    ensures JudgeSector(s, p, i) == JudgeList(EntriesFrom(s, i), p)
    decreases ENTRIES_PER_SECTOR - i
  {
    if i != ENTRIES_PER_SECTOR {
      SectorIsList(s, p, i + 1);
      OneMoreEntry(EntryAt(s, i), EntriesFrom(s, i + 1), p);
    }
  }

  lemma OneMoreEntry(e: DirEntry, list: seq<DirEntry>, p: Pattern)
    ensures JudgeList([e] + list, p)
            == if LastEntry(e) then Closed(None) else if Matches(e, p) then Closed(Some(e)) else JudgeList(list, p)
  {
    assert ([e] + list)[1..] == list;
  }

  /** An unreadable sector may end the scan where the list just ends. */
  lemma {:induction false} ScanIsList(disk: Disk, secs: seq<U32>, p: Pattern)
    ensures var v, w := Judge(disk, secs, p), JudgeList(Listing(disk, secs), p);
            v == w || (w == Open && v == Closed(None) && !Readable(disk, secs))
  {
    if secs != [] && disk(secs[0]).Some? {
      var s := disk(secs[0]).value;
      ScanIsList(disk, secs[1..], p);
      SectorIsList(s, p, 0);
      JudgeListAppend(EntriesFrom(s, 0), Listing(disk, secs[1..]), p);
    }
  }

  lemma {:induction false} ListIsFirstMatch(list: seq<DirEntry>, p: Pattern)
    ensures FirstMatch(JudgeList(list, p), list, p)
    ensures JudgeList(list, p) == Open <==> forall i :: 0 <= i < |list| ==> !Stops(list[i], p)
  {
    if list != [] && !Stops(list[0], p) {
      ListIsFirstMatch(list[1..], p);
      forall i: nat | FirstStop(list, p, i)
        ensures JudgeList(list, p) == Closed(if Matches(list[i], p) then Some(list[i]) else None)
      {
        assert FirstStop(list[1..], p, i - 1);
      }
      assert forall i :: 0 < i < |list| ==> list[i] == list[1..][i - 1];
    }
  }

  /** A scan is a first-match search over the flat list of entries. */
  lemma ScanIsFirstMatch(disk: Disk, secs: seq<U32>, p: Pattern)
    ensures FirstMatch(Judge(disk, secs, p), Listing(disk, secs), p)
  {
    ScanIsList(disk, secs, p);
    ListIsFirstMatch(Listing(disk, secs), p);
  }

  // ---------- which sectors a scan visits ----------

  /** Clusters of a directory chain: the first is taken as it is, the others must be valid. */
  function DirChain(disk: Disk, b: Bpb, c: U32, k: nat): (r: seq<U32>)
    ensures |r| <= k
    decreases k
  {
    if k == 0 then []
    else if ValidCluster(b, NextCluster(disk, b, c)) then [c] + DirChain(disk, b, NextCluster(disk, b, c), k - 1)
    else [c]
  }

  /** Scanning clusters in order. */
  function JudgeClusters(disk: Disk, b: Bpb, cs: seq<U32>, p: Pattern): Verdict {
    if cs == [] then Open
    else OrElse(Judge(disk, ClusterSectors(b, cs[0]), p), JudgeClusters(disk, b, cs[1..], p))
  }

  lemma {:induction false} ClustersAppend(disk: Disk, b: Bpb, s: seq<U32>, t: seq<U32>, p: Pattern)
    ensures JudgeClusters(disk, b, s + t, p) == OrElse(JudgeClusters(disk, b, s, p), JudgeClusters(disk, b, t, p))
  {
    if s == [] {
      assert s + t == t;
    } else {
      assert (s + t)[1..] == s[1..] + t;
      ClustersAppend(disk, b, s[1..], t, p);
    }
  }

  lemma OneMoreCluster(disk: Disk, b: Bpb, c: U32, cs: seq<U32>, p: Pattern)
    ensures JudgeClusters(disk, b, [c] + cs, p) == OrElse(Judge(disk, ClusterSectors(b, c), p), JudgeClusters(disk, b, cs, p))
  {
    assert ([c] + cs)[1..] == cs;
  }

  /** It is scanning their sectors in order. */
  lemma {:induction false} ClustersAreSectors(disk: Disk, b: Bpb, cs: seq<U32>, p: Pattern)
    requires Sane(b)
    ensures JudgeClusters(disk, b, cs, p) == Judge(disk, Flat(b, cs), p)
  {
    if cs != [] {
      assert cs == [cs[0]] + cs[1..];
      FlatAppend(b, [cs[0]], cs[1..]);
      OneCluster(b, cs[0]);
      JudgeAppend(disk, ClusterSectors(b, cs[0]), Flat(b, cs[1..]), p);
      ClustersAreSectors(disk, b, cs[1..], p);
    }
  }

  lemma OneCluster(b: Bpb, c: U32)
    requires Sane(b)
    ensures Flat(b, [c]) == ClusterSectors(b, c)
  {
    assert Flat(b, [c][..0]) == [];
  }

  /** The scan of a chain is over after at most k clusters: the chain ends, or the entries do. */
  predicate ScanEnds(disk: Disk, b: Bpb, c: U32, p: Pattern, k: nat)
    requires Sane(b)
  {
    c >= 2 ==> |DirChain(disk, b, c, k + 1)| <= k || JudgeClusters(disk, b, DirChain(disk, b, c, k), p).Closed?
  }

  /** The cluster neither ends the scan nor leads out of the set. */
  predicate GoesRound(disk: Disk, b: Bpb, p: Pattern, circle: set<U32>, c: U32)
    requires Sane(b)
  {
    && ValidCluster(b, NextCluster(disk, b, c)) && NextCluster(disk, b, c) in circle
    && Judge(disk, ClusterSectors(b, c), p) == Open
  }

  /** A directory whose chain runs in a circle of clusters without a hit or an end mark is
      scanned for ever. */
  lemma {:induction false} CircleNeverEnds(
    disk: Disk, b: Bpb, c: U32, p: Pattern, circle: set<U32>, k: nat, chain: seq<U32>)
    requires Sane(b) && c in circle && chain == DirChain(disk, b, c, k)
    requires forall d {:trigger GoesRound(disk, b, p, circle, d)} :: d in circle ==> GoesRound(disk, b, p, circle, d)
    ensures |chain| == k && JudgeClusters(disk, b, chain, p) == Open
    decreases k
  {
    if k == 0 {
      assert chain == [];
    } else {
      assert GoesRound(disk, b, p, circle, c);
      var next := NextCluster(disk, b, c);
      CircleNeverEnds(disk, b, next, p, circle, k - 1, chain[1..]);
      OneMoreCluster(disk, b, c, chain[1..], p);
    }
  }

  /** Once the scan is over, looking at more of the chain changes nothing. */
  lemma {:induction false} LongerDirChain(disk: Disk, b: Bpb, c: U32, k: nat, more: nat)
    requires k <= more
    ensures DirChain(disk, b, c, k) <= DirChain(disk, b, c, more)
    ensures |DirChain(disk, b, c, k + 1)| <= k ==> DirChain(disk, b, c, more) == DirChain(disk, b, c, k)
    decreases k
  {
    if k != 0 && ValidCluster(b, NextCluster(disk, b, c)) {
      LongerDirChain(disk, b, NextCluster(disk, b, c), k - 1, more - 1);
    }
  }

  lemma MoreClustersSameVerdict(disk: Disk, b: Bpb, c: U32, p: Pattern, k: nat, more: nat)
    requires Sane(b) && c >= 2 && k <= more && ScanEnds(disk, b, c, p, k)
    ensures JudgeClusters(disk, b, DirChain(disk, b, c, more), p) == JudgeClusters(disk, b, DirChain(disk, b, c, k), p)
  {
    LongerDirChain(disk, b, c, k, more);
    var a, d := DirChain(disk, b, c, k), DirChain(disk, b, c, more);
    assert d == a + d[|a|..];
    ClustersAppend(disk, b, a, d[|a|..], p);
  }

  // ---------- when a scan comes to an end ----------

  lemma {:induction false} DirChainSteps(disk: Disk, b: Bpb, c: U32, k: nat, m: nat)
    requires m + 1 < |DirChain(disk, b, c, k)|
    ensures var chain := DirChain(disk, b, c, k);
            ValidCluster(b, chain[m + 1]) && chain[m + 1] == NextCluster(disk, b, chain[m])
    decreases k
  {
    if m > 0 {
      DirChainSteps(disk, b, NextCluster(disk, b, c), k - 1, m - 1);
    }
  }

  lemma {:induction false} NoStopInside(disk: Disk, b: Bpb, cs: seq<U32>, p: Pattern, m: nat)
    requires m < |cs| && JudgeClusters(disk, b, cs, p) == Open
    ensures Judge(disk, ClusterSectors(b, cs[m]), p) == Open
  {
    if m > 0 {
      NoStopInside(disk, b, cs[1..], p, m - 1);
    }
  }

  /** Without a hit, an end mark or an unreadable sector before it, the scan of the chain from c
      gets at its cluster number j to a cluster it has scanned already. */
  predicate ComesBack(disk: Disk, b: Bpb, c: U32, p: Pattern, i: nat, j: nat)
    requires Sane(b)
  {
    c >= 2 && Returns(disk, b, DirChain(disk, b, c, j + 1), p, i, j)
  }

  predicate Returns(disk: Disk, b: Bpb, chain: seq<U32>, p: Pattern, i: nat, j: nat)
    requires Sane(b)
  {
    i < j < |chain| && chain[i] == chain[j] && JudgeClusters(disk, b, chain[..j], p) == Open
  }

  ghost predicate Circles(disk: Disk, b: Bpb, c: U32, p: Pattern)
    requires Sane(b)
  {
    exists i: nat, j: nat :: ComesBack(disk, b, c, p, i, j)
  }

  ghost predicate ScanEndsSometime(disk: Disk, b: Bpb, c: U32, p: Pattern)
    requires Sane(b)
  {
    exists k: nat :: ScanEnds(disk, b, c, p, k)
  }

  lemma ComingBackGoesRound(disk: Disk, b: Bpb, c: U32, p: Pattern, i: nat, j: nat) returns (circle: set<U32>)
    requires Sane(b) && ComesBack(disk, b, c, p, i, j)
    ensures c in circle
    ensures forall d {:trigger GoesRound(disk, b, p, circle, d)} :: d in circle ==> GoesRound(disk, b, p, circle, d)
  {
    var chain := DirChain(disk, b, c, j + 1);
    forall m: nat | m < j
      ensures Leads(disk, b, chain, m)
    {
      DirChainSteps(disk, b, c, j + 1, m);
    }
    circle := RoundTrip(disk, b, chain, p, i, j);
    assert chain[0] == c;
  }

  predicate Leads(disk: Disk, b: Bpb, chain: seq<U32>, m: nat) {
    m + 1 < |chain| && ValidCluster(b, chain[m + 1]) && chain[m + 1] == NextCluster(disk, b, chain[m])
  }

  lemma RoundTrip(disk: Disk, b: Bpb, chain: seq<U32>, p: Pattern, i: nat, j: nat) returns (circle: set<U32>)
    requires Sane(b) && Returns(disk, b, chain, p, i, j)
    requires forall m: nat :: m < j ==> Leads(disk, b, chain, m)
    ensures chain[0] in circle
    ensures forall d {:trigger GoesRound(disk, b, p, circle, d)} :: d in circle ==> GoesRound(disk, b, p, circle, d)
  {
    circle := set m | 0 <= m < j :: chain[m];
    assert chain[0] in circle;
    forall d | d in circle
      ensures GoesRound(disk, b, p, circle, d)
    {
      var m: nat :| m < j && chain[m] == d;
      assert chain[if m + 1 == j then i else m + 1] in circle;
      assert chain[..j][m] == d && Leads(disk, b, chain, m);
      TurnGoesRound(disk, b, p, chain[..j], m, chain[m + 1], circle);
    }
  }

  lemma TurnGoesRound(disk: Disk, b: Bpb, p: Pattern, cs: seq<U32>, m: nat, next: U32, circle: set<U32>)
    requires Sane(b) && m < |cs| && JudgeClusters(disk, b, cs, p) == Open
    requires ValidCluster(b, next) && next == NextCluster(disk, b, cs[m]) && next in circle
    ensures GoesRound(disk, b, p, circle, cs[m])
  {
    NoStopInside(disk, b, cs, p, m);
  }

  lemma CirclingNeverEnds(disk: Disk, b: Bpb, c: U32, p: Pattern, k: nat)
    requires Sane(b) && Circles(disk, b, c, p)
    ensures !ScanEnds(disk, b, c, p, k)
  {
    var i: nat, j: nat :| ComesBack(disk, b, c, p, i, j);
    var circle := ComingBackGoesRound(disk, b, c, p, i, j);
    CircleNeverEnds(disk, b, c, p, circle, k, DirChain(disk, b, c, k));
    CircleNeverEnds(disk, b, c, p, circle, k + 1, DirChain(disk, b, c, k + 1));
  }

  lemma {:induction false} AtMost(s: set<nat>, n: nat)
    requires forall x :: x in s ==> x < n
    ensures |s| <= n
  {
    if n == 0 {
      assert s == {};
    } else {
      AtMost(s - {n - 1}, n - 1);
      assert |s| <= |s - {n - 1}| + 1 by {
        assert s <= s - {n - 1} + {n - 1};
        if n - 1 !in s {
          assert s - {n - 1} == s;
        }
      }
    }
  }

  lemma {:induction false} AllDifferent(cs: seq<nat>)
    requires forall i, j :: 0 <= i < j < |cs| ==> cs[i] != cs[j]
    ensures |set i | 0 <= i < |cs| :: cs[i]| == |cs|
  {
    var all := set i | 0 <= i < |cs| :: cs[i];
    if cs != [] {
      var n := |cs| - 1;
      AllDifferent(cs[..n]);
      var front := set i | 0 <= i < n :: cs[..n][i];
      assert all == front + {cs[n]} && cs[n] !in front;
    }
  }

  /** There are only 2^32 cluster numbers. */
  lemma Repeats(cs: seq<U32>) returns (i: nat, j: nat)
    requires |cs| > WRAP
    ensures i < j < |cs| && cs[i] == cs[j]
  {
    if forall i, j :: 0 <= i < j < |cs| ==> cs[i] != cs[j] {
      AllDifferent(cs);
      AtMost(set i | 0 <= i < |cs| :: cs[i], WRAP);
      assert false;
    }
    i, j :| 0 <= i < j < |cs| && cs[i] == cs[j];
  }

  /** A chain that goes on for long enough comes back. */
  lemma LongChainRepeats(disk: Disk, b: Bpb, c: U32, k: nat, chain: seq<U32>) returns (i: nat, j: nat)
    requires k >= WRAP && chain == DirChain(disk, b, c, k + 1) && |chain| == k + 1
    ensures i < j <= k && chain[i] == chain[j]
    ensures DirChain(disk, b, c, k) == chain[..k] && DirChain(disk, b, c, j + 1) == chain[..j + 1]
  {
    i, j := Repeats(chain);
    PartOfChain(disk, b, c, k + 1, k);
    PartOfChain(disk, b, c, k + 1, j + 1);
  }

  lemma LongScanCircles(disk: Disk, b: Bpb, c: U32, p: Pattern, k: nat)
    requires Sane(b) && k >= WRAP && !ScanEnds(disk, b, c, p, k)
    ensures Circles(disk, b, c, p)
  {
    var chain := DirChain(disk, b, c, k + 1);
    var i, j := LongChainRepeats(disk, b, c, k, chain);
    ReturnsEarly(disk, b, chain, p, k, i, j);
    IsCircle(disk, b, c, p, i, j, chain[..j + 1]);
  }

  lemma IsCircle(disk: Disk, b: Bpb, c: U32, p: Pattern, i: nat, j: nat, met: seq<U32>)
    requires Sane(b) && c >= 2 && met == DirChain(disk, b, c, j + 1) && Returns(disk, b, met, p, i, j)
    ensures Circles(disk, b, c, p)
  {
    assert ComesBack(disk, b, c, p, i, j);
  }

  lemma ReturnsEarly(disk: Disk, b: Bpb, chain: seq<U32>, p: Pattern, k: nat, i: nat, j: nat)
    requires Sane(b) && i < j <= k < |chain| && chain[i] == chain[j] && JudgeClusters(disk, b, chain[..k], p) == Open
    ensures Returns(disk, b, chain[..j + 1], p, i, j)
  {
    OpenSoFar(disk, b, chain[..k], p, j);
    assert chain[..j + 1][..j] == chain[..k][..j];
  }

  lemma OpenSoFar(disk: Disk, b: Bpb, cs: seq<U32>, p: Pattern, j: nat)
    requires Sane(b) && j <= |cs| && JudgeClusters(disk, b, cs, p) == Open
    ensures JudgeClusters(disk, b, cs[..j], p) == Open
  {
    assert cs == cs[..j] + cs[j..];
    ClustersAppend(disk, b, cs[..j], cs[j..], p);
  }

  lemma {:induction false} PartOfChain(disk: Disk, b: Bpb, c: U32, k: nat, j: nat)
    requires j <= |DirChain(disk, b, c, k)|
    ensures DirChain(disk, b, c, j) == DirChain(disk, b, c, k)[..j]
    decreases j
  {
    if j > 1 {
      PartOfChain(disk, b, NextCluster(disk, b, c), k - 1, j - 1);
    }
  }

  lemma Plenty() returns (k: nat)
    ensures k >= WRAP
  {
    k := WRAP;
  }

  /** The scan of a directory chain comes to an end exactly when it does not come back to a
      cluster it has scanned already. */
  lemma ScanEndsIffNoCircle(disk: Disk, b: Bpb, c: U32, p: Pattern)
    requires Sane(b)
    ensures ScanEndsSometime(disk, b, c, p) <==> !Circles(disk, b, c, p)
  {
    var k := Plenty();
    if Circles(disk, b, c, p) {
      forall k ensures !ScanEnds(disk, b, c, p, k) {
        CirclingNeverEnds(disk, b, c, p, k);
      }
    } else if !ScanEnds(disk, b, c, p, k) {
      LongScanCircles(disk, b, c, p, k);
    }
  }

  /** No cluster stands twice in the chain from c. */
  ghost predicate Acyclic(disk: Disk, b: Bpb, c: U32) {
    forall k: nat, i, j ::
      0 <= i < j < |DirChain(disk, b, c, k)| ==> DirChain(disk, b, c, k)[i] != DirChain(disk, b, c, k)[j]
  }

  /** On an acyclic chain every scan ends, whatever it looks for. */
  lemma AcyclicScanEnds(disk: Disk, b: Bpb, c: U32, p: Pattern)
    requires Sane(b) && Acyclic(disk, b, c)
    ensures ScanEndsSometime(disk, b, c, p) && !Circles(disk, b, c, p)
  {
    ScanEndsIffNoCircle(disk, b, c, p);
  }

  /** What the scan of a chain comes to; one that never ends comes to nothing. */
  ghost function ChainVerdict(disk: Disk, b: Bpb, c: U32, p: Pattern): Verdict
    requires Sane(b)
  {
    if ScanEndsSometime(disk, b, c, p) then
      var k: nat :| ScanEnds(disk, b, c, p, k);
      JudgeClusters(disk, b, DirChain(disk, b, c, k), p)
    else Open
  }

  /** ... however much of the chain is laid out, once it is enough. */
  lemma ChainVerdictIs(disk: Disk, b: Bpb, c: U32, p: Pattern, k: nat)
    requires Sane(b) && c >= 2 && ScanEnds(disk, b, c, p, k)
    ensures ChainVerdict(disk, b, c, p) == JudgeClusters(disk, b, DirChain(disk, b, c, k), p)
  {
    assert ScanEndsSometime(disk, b, c, p);
    var n: nat :| ScanEnds(disk, b, c, p, n)
                  && ChainVerdict(disk, b, c, p) == JudgeClusters(disk, b, DirChain(disk, b, c, n), p);
    if n <= k {
      MoreClustersSameVerdict(disk, b, c, p, n, k);
    } else {
      MoreClustersSameVerdict(disk, b, c, p, k, n);
    }
  }

  /** The verdict on a directory: a region, or the chain from a cluster. */
  ghost function DirVerdict(disk: Disk, b: Bpb, start: U32, len: U32, c: U32, p: Pattern): Verdict
    requires Sane(b)
  {
    if c >= 2 then ChainVerdict(disk, b, c, p) else Judge(disk, Run(start, len), p)
  }

  // ---------- what reading a file delivers ----------

  /** The sectors reading n bytes looks at: one more than it needs when n is a whole number of
      sectors, unless the chain ends first. */
  function Wanted(disk: Disk, b: Bpb, c: U32, n: nat): seq<U32>
    requires Sane(b)
  {
    First(Flat(b, Chain(disk, b, c, n / SECTOR_SIZE + 1)), n / SECTOR_SIZE + 1)
  }

  /** The bytes delivered, or nothing if a wanted sector cannot be read. */
  function ReadResult(disk: Disk, b: Bpb, c: U32, n: nat): Option<seq<Byte>>
    requires Sane(b)
  {
    var secs := Wanted(disk, b, c, n);
    if Readable(disk, secs) then Some(First(Join(disk, secs), n)) else None
  }

  /** The sectors that hold the first n bytes of the chain. */
  function Needed(disk: Disk, b: Bpb, c: U32, n: nat): seq<U32>
    requires Sane(b)
  {
    First(Flat(b, Chain(disk, b, c, n / SECTOR_SIZE + 1)), (n + SECTOR_SIZE - 1) / SECTOR_SIZE)
  }

  /** Although every sector that holds a byte to deliver can be read, reading fails exactly when
      n is a whole number of sectors, the chain goes on behind them, and the first sector there
      cannot be read. */
  lemma FailsNeedlesslyIff(disk: Disk, b: Bpb, c: U32, n: nat)
    requires Sane(b) && Readable(disk, Needed(disk, b, c, n))
    ensures var all := Flat(b, Chain(disk, b, c, n / SECTOR_SIZE + 1));
            ReadResult(disk, b, c, n) == None
            <==> n % SECTOR_SIZE == 0 && |all| > n / SECTOR_SIZE && disk(all[n / SECTOR_SIZE]) == None
  {
    var all, m := Flat(b, Chain(disk, b, c, n / SECTOR_SIZE + 1)), n / SECTOR_SIZE;
    if n % SECTOR_SIZE == 0 && |all| > m {
      assert Wanted(disk, b, c, n) == Needed(disk, b, c, n) + [all[m]];
      OneMoreReadable(disk, Needed(disk, b, c, n), all[m]);
    } else {
      assert Wanted(disk, b, c, n) == Needed(disk, b, c, n);
    }
  }

  lemma OneMoreReadable(disk: Disk, s: seq<U32>, x: U32)
    requires Readable(disk, s)
    ensures Readable(disk, s + [x]) <==> disk(x).Some?
  {
    assert (s + [x])[|s|] == x;
  }

  /** If every sector can be read, reading n bytes delivers exactly the first n bytes of the
      chain's clusters one after the other, or all of them if the chain is shorter, however
      much of the chain is laid out. */
  lemma ReadIsChainPrefix(disk: Disk, b: Bpb, c: U32, n: nat, k: nat)
    requires Sane(b) && (forall s: U32 :: disk(s).Some?)
    requires |Chain(disk, b, c, k + 1)| <= k || SECTOR_SIZE * k >= n
    ensures var all := Join(disk, Flat(b, Chain(disk, b, c, k)));
            ReadResult(disk, b, c, n) == Some(First(all, n))
  {
    var m := n / SECTOR_SIZE + 1;
    var a, d := Chain(disk, b, c, m), Chain(disk, b, c, k);
    ChainsCompare(disk, b, c, m, k);
    ReadsWanted(disk, b, c, n);
    if a <= d && (|a| >= m || a == d) {
      PrefixDelivers(disk, b, a, d, n, m);
    } else {
      ShortPrefixDelivers(disk, b, d, a, n, m);
    }
  }

  lemma ReadsWanted(disk: Disk, b: Bpb, c: U32, n: nat)
    requires Sane(b) && (forall s: U32 :: disk(s).Some?)
    ensures var m := n / SECTOR_SIZE + 1;
            ReadResult(disk, b, c, n) == Some(First(Join(disk, First(Flat(b, Chain(disk, b, c, m)), m)), n))
  {
  }

  lemma ChainsCompare(disk: Disk, b: Bpb, c: U32, m: nat, k: nat)
    ensures var a, d := Chain(disk, b, c, m), Chain(disk, b, c, k);
            || (a <= d && (|a| >= m || a == d))
            || (d <= a && |d| == k && |Chain(disk, b, c, k + 1)| > k)
  {
    LongerChain(disk, b, c, k, k + 1);
    if m <= k {
      LongerChain(disk, b, c, m, k);
    } else {
      LongerChain(disk, b, c, k + 1, m);
      LongerChain(disk, b, c, k, m);
    }
  }

  lemma FirstOfJoin(disk: Disk, s: seq<U32>, m: nat, n: nat)
    requires Readable(disk, s) && n <= SECTOR_SIZE * m
    ensures Readable(disk, First(s, m)) && First(Join(disk, First(s, m)), n) == First(Join(disk, s), n)
  {
    if m < |s| {
      assert s == s[..m] + s[m..];
      JoinAppend(disk, s[..m], s[m..]);
      FirstOfSum(Join(disk, s[..m]), Join(disk, s[m..]), n);
    } else {
      assert First(s, m) == s;
    }
  }

  lemma FirstOfSum<T>(x: seq<T>, y: seq<T>, n: nat)
    requires n <= |x|
    ensures First(x + y, n) == First(x, n)
  {
  }

  lemma MoreSectorsSameBytes(disk: Disk, s: seq<U32>, t: seq<U32>, n: nat, m: nat)
    requires Readable(disk, s) && Readable(disk, t) && n <= SECTOR_SIZE * m && n <= SECTOR_SIZE * |s|
    ensures Readable(disk, First(s + t, m)) && First(Join(disk, First(s + t, m)), n) == First(Join(disk, s), n)
  {
    JoinAppend(disk, s, t);
    FirstOfJoin(disk, s + t, m, n);
    FirstOfSum(Join(disk, s), Join(disk, t), n);
  }

  lemma PrefixDelivers(disk: Disk, b: Bpb, a: seq<U32>, d: seq<U32>, n: nat, m: nat)
    requires Sane(b) && (forall x: U32 :: disk(x).Some?) && n <= SECTOR_SIZE * m
    requires a <= d && (|a| >= m || a == d)
    ensures First(Join(disk, First(Flat(b, a), m)), n) == First(Join(disk, Flat(b, d)), n)
  {
    FirstOfJoin(disk, Flat(b, d), m, n);
    assert d == a + d[|a|..];
    FlatAppend(b, a, d[|a|..]);
    assert First(Flat(b, a), m) == First(Flat(b, d), m);
  }

  lemma ShortPrefixDelivers(disk: Disk, b: Bpb, d: seq<U32>, a: seq<U32>, n: nat, m: nat)
    requires Sane(b) && (forall x: U32 :: disk(x).Some?) && n <= SECTOR_SIZE * m
    requires d <= a && n <= SECTOR_SIZE * |d|
    ensures First(Join(disk, First(Flat(b, a), m)), n) == First(Join(disk, Flat(b, d)), n)
  {
    assert a == d + a[|d|..];
    FlatAppend(b, d, a[|d|..]);
    MoreSectorsSameBytes(disk, Flat(b, d), Flat(b, a[|d|..]), n, m);
  }

  // ---------- what a table sector that cannot be read does ----------

  /** The same card without a fault. */
  ghost predicate Repairs(good: Disk, disk: Disk) {
    forall s: U32 :: good(s).Some? && (disk(s).Some? ==> good(s) == disk(s))
  }

  /** The chain met so far ends only because the table sector of its last cluster cannot be read. */
  predicate CutOff(disk: Disk, good: Disk, b: Bpb, met: seq<U32>) {
    met != [] && disk(TableSector(b, met[|met| - 1])) == None && ValidCluster(b, NextCluster(good, b, met[|met| - 1]))
  }

  lemma {:induction false} ChainIsCutIff(disk: Disk, good: Disk, b: Bpb, c: U32, k: nat)
    requires Repairs(good, disk)
    ensures var met, all := Chain(disk, b, c, k), Chain(good, b, c, k);
            met <= all && (met != all <==> |met| < k && CutOff(disk, good, b, met))
    decreases k
  {
    if k > 0 && ValidCluster(b, c) {
      var d, g := NextCluster(disk, b, c), NextCluster(good, b, c);
      var met, all := Chain(disk, b, d, k - 1), Chain(good, b, g, k - 1);
      if disk(TableSector(b, c)) == None {
        assert met == [];
        assert all != [] <==> k > 1 && ValidCluster(b, g);
      } else {
        assert d == g;
        ChainIsCutIff(disk, good, b, d, k - 1);
        OneInFront(disk, good, b, c, met);
      }
    }
  }

  lemma OneInFront(disk: Disk, good: Disk, b: Bpb, c: U32, met: seq<U32>)
    requires disk(TableSector(b, c)).Some?
    ensures CutOff(disk, good, b, [c] + met) <==> CutOff(disk, good, b, met)
  {
    if met != [] {
      assert ([c] + met)[|met|] == met[|met| - 1];
    }
  }

  lemma {:induction false} RepairedJoin(disk: Disk, good: Disk, secs: seq<U32>)
    requires Repairs(good, disk) && Readable(disk, secs)
    ensures Readable(good, secs) && Join(good, secs) == Join(disk, secs)
  {
    if secs != [] {
      RepairedJoin(disk, good, secs[..|secs| - 1]);
    }
  }

  /** A read that succeeds delivers a beginning of what it would deliver without faults, and
      less than all of it exactly when the chain, too short for n bytes, was cut off. */
  lemma TruncatedIff(disk: Disk, good: Disk, b: Bpb, c: U32, n: nat)
    requires Sane(b) && Repairs(good, disk) && ReadResult(disk, b, c, n).Some?
    ensures var met := Chain(disk, b, c, n / SECTOR_SIZE + 1);
            var got, full := ReadResult(disk, b, c, n).value, ReadResult(good, b, c, n);
            && full.Some? && got <= full.value
            && (got != full.value <==> SECTOR_SIZE * |Flat(b, met)| < n && CutOff(disk, good, b, met))
  {
    var m := n / SECTOR_SIZE + 1;
    var met, all := Chain(disk, b, c, m), Chain(good, b, c, m);
    ChainIsCutIff(disk, good, b, c, m);
    var x, y := Wanted(disk, b, c, n), Wanted(good, b, c, n);
    ListsDeliver(disk, good, b, met, all, n, m, x, y);
    Reads(disk, b, c, n, x);
    Reads(good, b, c, n, y);
    ShortOfSectors(Flat(b, met), met, n);
  }

  lemma Reads(disk: Disk, b: Bpb, c: U32, n: nat, secs: seq<U32>)
    requires Sane(b) && secs == Wanted(disk, b, c, n)
    ensures ReadResult(disk, b, c, n) == if Readable(disk, secs) then Some(First(Join(disk, secs), n)) else None
  {
  }

  lemma ShortOfSectors(s: seq<U32>, met: seq<U32>, n: nat)
    requires |met| <= |s|
    ensures SECTOR_SIZE * |s| < n ==> |met| < n / SECTOR_SIZE + 1
  {
  }

  lemma ListsDeliver(
    disk: Disk, good: Disk, b: Bpb, met: seq<U32>, all: seq<U32>, n: nat, m: nat, x: seq<U32>, y: seq<U32>)
    requires Sane(b) && Repairs(good, disk) && met <= all && m == n / SECTOR_SIZE + 1
    requires x == First(Flat(b, met), m) && y == First(Flat(b, all), m) && Readable(disk, x)
    ensures Readable(good, y)
    ensures var got, full := First(Join(disk, x), n), First(Join(good, y), n);
            got <= full && (got != full <==> met != all && SECTOR_SIZE * |Flat(b, met)| < n)
  {
    var rest := all[|met|..];
    RepairedJoin(disk, good, x);
    assert all == met + rest;
    FlatAppend(b, met, rest);
    LongerListDelivers(good, Flat(b, met), Flat(b, rest), n, m);
  }

  /** Sectors behind a list add to the first n bytes exactly when the list is too short. */
  lemma LongerListDelivers(disk: Disk, s: seq<U32>, t: seq<U32>, n: nat, m: nat)
    requires (forall x: U32 :: disk(x).Some?) && m == n / SECTOR_SIZE + 1
    ensures var got, full := First(Join(disk, First(s, m)), n), First(Join(disk, First(s + t, m)), n);
            got <= full && (got != full <==> t != [] && SECTOR_SIZE * |s| < n)
  {
    if SECTOR_SIZE * |s| < n {
      assert First(s, m) == s;
      assert First(s + t, m) == s + First(t, m - |s|);
      JoinAppend(disk, s, First(t, m - |s|));
    } else {
      FirstOfJoin(disk, s, m, n);
      MoreSectorsSameBytes(disk, s, t, n, m);
    }
  }
}
