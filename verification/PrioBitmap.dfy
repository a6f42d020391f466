/** The two-level priority bitmaps of uC/OS-II: a group byte whose bit y says that table byte y
    is non-zero, and a table whose bit x of byte y stands for priority 8 * y + x.  The ready list
    and every event's wait list have this shape.  Here each pair is shown to represent one set
    of priorities, and the table-driven lookup to find that set's minimum. */
module PrioBitmap {

  /** The 256 entries of OSUnMapTbl, in its 16 rows of 16. */
  const UNMAP_ROWS: seq<seq<nat>> := [
    [0, 0, 1, 0, 2, 0, 1, 0, 3, 0, 1, 0, 2, 0, 1, 0],
    [4, 0, 1, 0, 2, 0, 1, 0, 3, 0, 1, 0, 2, 0, 1, 0],
    [5, 0, 1, 0, 2, 0, 1, 0, 3, 0, 1, 0, 2, 0, 1, 0],
    [4, 0, 1, 0, 2, 0, 1, 0, 3, 0, 1, 0, 2, 0, 1, 0],
    [6, 0, 1, 0, 2, 0, 1, 0, 3, 0, 1, 0, 2, 0, 1, 0],
    [4, 0, 1, 0, 2, 0, 1, 0, 3, 0, 1, 0, 2, 0, 1, 0],
    [5, 0, 1, 0, 2, 0, 1, 0, 3, 0, 1, 0, 2, 0, 1, 0],
    [4, 0, 1, 0, 2, 0, 1, 0, 3, 0, 1, 0, 2, 0, 1, 0],
    [7, 0, 1, 0, 2, 0, 1, 0, 3, 0, 1, 0, 2, 0, 1, 0],
    [4, 0, 1, 0, 2, 0, 1, 0, 3, 0, 1, 0, 2, 0, 1, 0],
    [5, 0, 1, 0, 2, 0, 1, 0, 3, 0, 1, 0, 2, 0, 1, 0],
    [4, 0, 1, 0, 2, 0, 1, 0, 3, 0, 1, 0, 2, 0, 1, 0],
    [6, 0, 1, 0, 2, 0, 1, 0, 3, 0, 1, 0, 2, 0, 1, 0],
    [4, 0, 1, 0, 2, 0, 1, 0, 3, 0, 1, 0, 2, 0, 1, 0],
    [5, 0, 1, 0, 2, 0, 1, 0, 3, 0, 1, 0, 2, 0, 1, 0],
    [4, 0, 1, 0, 2, 0, 1, 0, 3, 0, 1, 0, 2, 0, 1, 0]
  ]

  /** OSUnMapTbl[b]: the position of the lowest set bit of a byte. */
  function OSUnMapTbl(b: bv8): nat {
    UNMAP_ROWS[(b >> 4) as int][(b & 15) as int]
  }

  /** 1 << i for a byte. */
  function Bit(i: nat): (b: bv8)
    requires i < 8
  {
    if i == 0 then 0x01 else if i == 1 then 0x02 else if i == 2 then 0x04 else if i == 3 then 0x08
    else if i == 4 then 0x10 else if i == 5 then 0x20 else if i == 6 then 0x40 else 0x80
  }

  predicate HasBit(b: bv8, i: nat)
    requires i < 8
  {
    b & Bit(i) != 0
  }

  /** The bits set in a byte. */
  ghost function Bits(b: bv8): set<nat> {
    set i: nat | i < 8 && HasBit(b, i)
  }

  lemma SetOneBit(b: bv8, x: nat)
    requires x < 8
    ensures Bits(b | Bit(x)) == Bits(b) + {x}
  {
    forall z: nat | z < 8
      ensures HasBit(b | Bit(x), z) == (HasBit(b, z) || x == z)
    {
      BitUpdates(b, x, z);
    }
  }

  lemma ClearOneBit(b: bv8, x: nat)
    requires x < 8
    ensures Bits(b & !Bit(x)) == Bits(b) - {x}
  {
    forall z: nat | z < 8
      ensures HasBit(b & !Bit(x), z) == (HasBit(b, z) && x != z)
    {
      BitUpdates(b, x, z);
    }
  }

  lemma BitUpdates(b: bv8, x: nat, z: nat)
    requires x < 8 && z < 8
    ensures HasBit(b | Bit(x), z) == (HasBit(b, z) || x == z)
    ensures HasBit(b & !Bit(x), z) == (HasBit(b, z) && x != z)
  {
  }

  lemma ZeroByte(b: bv8)
    ensures b == 0 <==> Bits(b) == {}
  {
    if b != 0 {
      assert HasBit(b, 0) || HasBit(b, 1) || HasBit(b, 2) || HasBit(b, 3)
          || HasBit(b, 4) || HasBit(b, 5) || HasBit(b, 6) || HasBit(b, 7);
      var i: nat :| i < 8 && HasBit(b, i);
      assert i in Bits(b);
    }
  }

  // ---------- the lookup table ----------

  /** Past its first entry every row of the table is the same. */
  lemma RowsShareTails(r: nat, c: nat)
    requires r < 16 && 1 <= c < 16
    ensures UNMAP_ROWS[r][c] == UNMAP_ROWS[0][c]
  {
    var tail := [0, 1, 0, 2, 0, 1, 0, 3, 0, 1, 0, 2, 0, 1, 0];
    forall i | 0 <= i < 16
      ensures UNMAP_ROWS[i][1..] == tail
    {
    }
    assert UNMAP_ROWS[r][1..][c - 1] == UNMAP_ROWS[0][1..][c - 1];
  }

  lemma LowNibbleEntry(b: bv8, c: nat)
    requires c == (b & 15) as int && c != 0
    ensures var e := UNMAP_ROWS[0][c];
            e < 4 && HasBit(b, e) && forall j :: 0 <= j < e ==> !HasBit(b, j)
  {
  }

  lemma HighNibbleEntry(b: bv8, r: nat)
    requires r == (b >> 4) as int && r != 0 && b & 15 == 0
    ensures var e := UNMAP_ROWS[r][0];
            4 <= e < 8 && HasBit(b, e) && forall j :: 0 <= j < e ==> !HasBit(b, j)
  {
  }

  /** All 255 useful entries of the table: the entry for b is the lowest bit set in b. */
  lemma UnMapFindsLowestBit(b: bv8)
    requires b != 0
    ensures IsMin(OSUnMapTbl(b), Bits(b))
  {
    var r, c := (b >> 4) as int, (b & 15) as int;
    if c != 0 {
      RowsShareTails(r, c);
      LowNibbleEntry(b, c);
    } else {
      HighNibbleEntry(b, r);
    }
  }

  ghost predicate IsMin(p: nat, s: set<nat>) {
    p in s && forall q :: q in s ==> p <= q
  }

  lemma MinIsUnique(p: nat, q: nat, s: set<nat>)
    requires IsMin(p, s) && IsMin(q, s)
    ensures p == q
  {
  }

  // ---------- rows of bits as a set of priorities ----------

  ghost function Flatten(rows: seq<set<nat>>): set<nat> {
    set p: nat | p < 8 * |rows| && p % 8 in rows[p / 8]
  }

  ghost predicate GroupOf(g: set<nat>, rows: seq<set<nat>>) {
    && |rows| <= 8
    && g == set y: nat | y < |rows| && rows[y] != {}
  }

  ghost predicate Small(rows: seq<set<nat>>) {
    forall y, x :: 0 <= y < |rows| && x in rows[y] ==> x < 8
  }

  lemma Quotient(q: nat, y: nat, x: nat)
    requires x < 8
    ensures q == 8 * y + x <==> q / 8 == y && q % 8 == x
  {
  }

  lemma FlattenAt(rows: seq<set<nat>>, y: nat, x: nat)
    requires y < |rows| && x < 8
    ensures 8 * y + x in Flatten(rows) <==> x in rows[y]
  {
    Quotient(8 * y + x, y, x);
  }

  lemma FlattenUpdate(rows: seq<set<nat>>, y: nat, x: nat, row: set<nat>)
    requires y < |rows| && x < 8
    ensures row == rows[y] + {x} ==> Flatten(rows[y := row]) == Flatten(rows) + {8 * y + x}
    ensures row == rows[y] - {x} ==> Flatten(rows[y := row]) == Flatten(rows) - {8 * y + x}
  {
    forall q: nat
      ensures q == 8 * y + x <==> q / 8 == y && q % 8 == x
    {
      Quotient(q, y, x);
    }
  }

  lemma GroupGrows(g: set<nat>, rows: seq<set<nat>>, y: nat, x: nat)
    requires GroupOf(g, rows) && y < |rows|
    ensures GroupOf(g + {y}, rows[y := rows[y] + {x}])
  {
    assert x in rows[y] + {x};
  }

  lemma GroupShrinks(g: set<nat>, rows: seq<set<nat>>, y: nat, x: nat)
    requires GroupOf(g, rows) && y < |rows|
    ensures var row := rows[y] - {x};
            GroupOf(if row == {} then g - {y} else g, rows[y := row])
  {
  }

  lemma LowestOfLowest(g: set<nat>, rows: seq<set<nat>>, y: nat, x: nat)
    requires GroupOf(g, rows) && Small(rows) && IsMin(y, g) && IsMin(x, rows[y])
    ensures IsMin(8 * y + x, Flatten(rows))
  {
    FlattenAt(rows, y, x);
    forall q | q in Flatten(rows)
      ensures 8 * y + x <= q
    {
      assert q / 8 in g;
    }
  }

  // ---------- the (group, table) pair ----------

  ghost function Rows(tbl: seq<bv8>): (rows: seq<set<nat>>)
    ensures |rows| == |tbl| && Small(rows)
  {
    seq(|tbl|, i requires 0 <= i < |tbl| => Bits(tbl[i]))
  }

  /** The set of priorities a table stands for. */
  ghost function Members(tbl: seq<bv8>): set<nat> {
    Flatten(Rows(tbl))
  }

  /** Group bit y is set exactly when table byte y is non-zero. */
  ghost predicate Agree(grp: bv8, tbl: seq<bv8>) {
    GroupOf(Bits(grp), Rows(tbl))
  }

  lemma AgreeMeaning(grp: bv8, tbl: seq<bv8>)
    ensures Agree(grp, tbl) <==>
            |tbl| <= 8 && forall y :: 0 <= y < 8 ==> (HasBit(grp, y) <==> y < |tbl| && tbl[y] != 0)
  {
    forall y | 0 <= y < |tbl|
      ensures Rows(tbl)[y] == {} <==> tbl[y] == 0
    {
      ZeroByte(tbl[y]);
    }
    forall y: nat
      ensures y in Bits(grp) <==> y < 8 && HasBit(grp, y)
    {
    }
    if |tbl| <= 8 && forall y :: 0 <= y < 8 ==> (HasBit(grp, y) <==> y < |tbl| && tbl[y] != 0) {
      assert Bits(grp) == set y: nat | y < |tbl| && Rows(tbl)[y] != {};
    }
  }

  lemma ClearedTable(tbl: seq<bv8>)
    requires |tbl| <= 8 && forall y :: 0 <= y < |tbl| ==> tbl[y] == 0
    ensures Agree(0, tbl) && Members(tbl) == {}
  {
    ZeroByte(0);
    assert forall y :: 0 <= y < |tbl| ==> Rows(tbl)[y] == Bits(0);
  }

  /** tbl[y] |= bitX */
  function WithBit(tbl: seq<bv8>, y: nat, bitX: bv8): (t: seq<bv8>)
    requires y < |tbl|
    ensures |t| == |tbl|
  {
    tbl[y := tbl[y] | bitX]
  }

  /** tbl[y] &= ~bitX */
  function WithoutBit(tbl: seq<bv8>, y: nat, bitX: bv8): (t: seq<bv8>)
    requires y < |tbl|
    ensures |t| == |tbl|
  {
    tbl[y := tbl[y] & !bitX]
  }

  /** if (tbl[y] == 0) grp &= ~bitY */
  function GroupAfter(grp: bv8, tbl: seq<bv8>, y: nat, bitY: bv8): bv8
    requires y < |tbl|
  {
    if tbl[y] == 0 then grp & !bitY else grp
  }

  lemma RowsUpdate(tbl: seq<bv8>, y: nat, b: bv8)
    requires y < |tbl|
    ensures Rows(tbl[y := b]) == Rows(tbl)[y := Bits(b)]
  {
  }

  lemma RowGains(tbl: seq<bv8>, y: nat, x: nat)
    requires y < |tbl| && x < 8
    ensures Rows(WithBit(tbl, y, Bit(x))) == Rows(tbl)[y := Rows(tbl)[y] + {x}]
  {
    SetOneBit(tbl[y], x);
    RowsUpdate(tbl, y, tbl[y] | Bit(x));
  }

  lemma MembersGain(tbl: seq<bv8>, y: nat, x: nat)
    requires y < |tbl| && x < 8
    ensures Members(WithBit(tbl, y, Bit(x))) == Members(tbl) + {8 * y + x}
  {
    RowGains(tbl, y, x);
    FlattenUpdate(Rows(tbl), y, x, Rows(tbl)[y] + {x});
  }

  /** Setting one table bit and one group bit adds exactly that priority. */
  lemma InsertAddsOne(grp: bv8, tbl: seq<bv8>, y: nat, x: nat)
    requires Agree(grp, tbl) && y < |tbl| && x < 8
    ensures Agree(grp | Bit(y), WithBit(tbl, y, Bit(x)))
    ensures Members(WithBit(tbl, y, Bit(x))) == Members(tbl) + {8 * y + x}
  {
    MembersGain(tbl, y, x);
    RowGains(tbl, y, x);
    GroupGrows(Bits(grp), Rows(tbl), y, x);
    SetOneBit(grp, y);
  }

  lemma RowLoses(tbl: seq<bv8>, y: nat, x: nat)
    requires y < |tbl| && x < 8
    ensures Rows(WithoutBit(tbl, y, Bit(x))) == Rows(tbl)[y := Rows(tbl)[y] - {x}]
  {
    ClearOneBit(tbl[y], x);
    RowsUpdate(tbl, y, tbl[y] & !Bit(x));
  }

  lemma MembersLose(tbl: seq<bv8>, y: nat, x: nat)
    requires y < |tbl| && x < 8
    ensures Members(WithoutBit(tbl, y, Bit(x))) == Members(tbl) - {8 * y + x}
  {
    RowLoses(tbl, y, x);
    FlattenUpdate(Rows(tbl), y, x, Rows(tbl)[y] - {x});
  }

  lemma GroupLoses(grp: bv8, tbl: seq<bv8>, t: seq<bv8>, y: nat, x: nat)
    requires Agree(grp, tbl) && y < |tbl| == |t|
    requires Rows(t) == Rows(tbl)[y := Rows(tbl)[y] - {x}]
    ensures t[y] == 0 ==> GroupOf(Bits(grp) - {y}, Rows(t))
    ensures t[y] != 0 ==> Agree(grp, t)
  {
    GroupShrinks(Bits(grp), Rows(tbl), y, x);
    ZeroByte(t[y]);
    assert Rows(t)[y] == Bits(t[y]);
  }

  /** Clearing a table bit, and the group bit when the byte became zero, removes exactly
      that priority. */
  lemma RemoveDropsOne(grp: bv8, tbl: seq<bv8>, y: nat, x: nat)
    requires Agree(grp, tbl) && y < |tbl| && x < 8
    ensures var t := WithoutBit(tbl, y, Bit(x));
            Agree(GroupAfter(grp, t, y, Bit(y)), t) && Members(t) == Members(tbl) - {8 * y + x}
  {
    MembersLose(tbl, y, x);
    RowLoses(tbl, y, x);
    GroupLoses(grp, tbl, WithoutBit(tbl, y, Bit(x)), y, x);
    ClearOneBit(grp, y);
  }

  /** The group byte tells whether the set is empty. */
  lemma GroupTellsEmpty(grp: bv8, tbl: seq<bv8>)
    requires Agree(grp, tbl)
    ensures grp == 0 <==> Members(tbl) == {}
  {
    ZeroByte(grp);
    var rows := Rows(tbl);
    if grp != 0 {
      var y :| y in Bits(grp);
      var x :| x in rows[y];
      FlattenAt(rows, y, x);
    } else {
      assert forall p | p in Flatten(rows) :: p / 8 in Bits(grp);
    }
  }

  /** The two lookups give the minimum, that is the highest priority in the set; the result
      is below 8 * |tbl| and its parts index the table. */
  lemma LookupFindsMin(grp: bv8, tbl: seq<bv8>)
    requires Agree(grp, tbl) && Members(tbl) != {}
    ensures OSUnMapTbl(grp) < |tbl|
    ensures var y := OSUnMapTbl(grp);
            IsMin(8 * y + OSUnMapTbl(tbl[y]), Members(tbl))
  {
    GroupTellsEmpty(grp, tbl);
    UnMapFindsLowestBit(grp);
    var y := OSUnMapTbl(grp);
    ZeroByte(tbl[y]);
    UnMapFindsLowestBit(tbl[y]);
    LowestOfLowest(Bits(grp), Rows(tbl), y, OSUnMapTbl(tbl[y]));
  }
}
