/** Task control blocks: the free list, the blocks a task creation has taken but not yet linked,
    and the doubly linked active list, all threaded through one table; and the priority table
    that finds a block by its task's priority. */
module TcbLists {
  import opened Options
  import opened PrioBitmap
  import opened KernelSpec

  /** A NULL OS_TCB pointer; other pointers are indices into OSTCBTbl. */
  const NIL: int := -1

  datatype Tcb = Tcb(next: int, prev: int, eventPtr: Option<EventId>, multi: Option<seq<EventId>>, msg: Msg,
                     dly: nat, stat: set<Flag>, statPend: PendStat, prio: Prio,
                     x: nat, y: nat, bitX: bv8, bitY: bv8)
  {
    function View(): Task { Task(dly, stat, statPend, eventPtr, multi, msg) }

    /** The precomputed position and masks belong to the priority. */
    predicate BitsOk() {
      && prio < 64 && y == prio / 8 && x == prio % 8
      && bitX == Bit(x) && bitY == Bit(y)
    }

    predicate SamePrio(t: Tcb) {
      prio == t.prio && x == t.x && y == t.y && bitX == t.bitX && bitY == t.bitY
    }

    /** Only pend fields differ. */
    predicate SameLinks(t: Tcb) {
      t == this.(eventPtr := t.eventPtr, multi := t.multi, msg := t.msg, dly := t.dly, stat := t.stat,
                 statPend := t.statPend)
    }
  }

  /** Where one block is: on a list, or with the creation of a task of some priority, which has
      not yet or has already filled it in. */
  datatype Spot = Active(k: nat) | Free(k: nat) | InFlight(prio: Prio) | Filled(prio: Prio)

  /** Where every block is.  Both lists are kept tail first: the head of the list is the last
      element, and each block's successor is the element before it. */
  datatype Places = Places(active: seq<nat>, free: seq<nat>, spot: seq<Spot>)
  {
    predicate IsActive(i: int) { 0 <= i < |spot| && spot[i].Active? }
    predicate IsFilled(i: int) { 0 <= i < |spot| && spot[i].Filled? }
  }

  function Head(xs: seq<nat>): int {
    if xs == [] then NIL else xs[|xs| - 1]
  }

  /** The block after, and before, position k in list order. */
  function Next(xs: seq<nat>, k: nat): int
    requires k < |xs|
  {
    if k == 0 then NIL else xs[k - 1]
  }

  function Prev(xs: seq<nat>, k: nat): int
    requires k < |xs|
  {
    if k == |xs| - 1 then NIL else xs[k + 1]
  }

  /** Every block is in exactly one place. */
  predicate Partition(n: nat, p: Places) {
    && |p.spot| == n
    && (forall k :: 0 <= k < |p.active| ==> p.active[k] < n && p.spot[p.active[k]] == Active(k))
    && (forall k :: 0 <= k < |p.free| ==> p.free[k] < n && p.spot[p.free[k]] == Free(k))
    && (forall i {:trigger SpotOk(p, i)} :: 0 <= i < n ==> SpotOk(p, i))
  }

  /** A block said to be on a list is there. */
  predicate SpotOk(p: Places, i: nat)
    requires i < |p.spot|
  {
    match p.spot[i]
    case Active(k) => k < |p.active| && p.active[k] == i
    case Free(k) => k < |p.free| && p.free[k] == i
    case _ => true
  }

  predicate Indices(n: nat, xs: seq<nat>) {
    forall k :: 0 <= k < |xs| ==> xs[k] < n
  }

  predicate NextOk(tcbs: seq<Tcb>, xs: seq<nat>)
    requires Indices(|tcbs|, xs)
  {
    forall k {:trigger Next(xs, k)} :: 0 <= k < |xs| ==> tcbs[xs[k]].next == Next(xs, k)
  }

  predicate PrevOk(tcbs: seq<Tcb>, xs: seq<nat>)
    requires Indices(|tcbs|, xs)
  {
    forall k {:trigger Prev(xs, k)} :: 0 <= k < |xs| ==> tcbs[xs[k]].prev == Prev(xs, k)
  }

  predicate Linked(tcbs: seq<Tcb>, p: Places, list: int, freeList: int)
    requires Partition(|tcbs|, p)
  {
    && list == Head(p.active) && freeList == Head(p.free)
    && NextOk(tcbs, p.active) && PrevOk(tcbs, p.active) && NextOk(tcbs, p.free)
  }

  /** OSTCBPrioTbl and the active blocks name each other; a filled block is a fresh task of an
      unused priority of its own. */
  predicate PriosOk(tcbs: seq<Tcb>, prios: seq<int>, p: Places)
    requires Partition(|tcbs|, p)
  {
    && (forall q :: 0 <= q < |prios| && prios[q] >= 0 ==> p.IsActive(prios[q]) && tcbs[prios[q]].prio == q)
    && (forall i {:trigger BlockOk(tcbs, prios, p, i)} :: 0 <= i < |tcbs| ==> BlockOk(tcbs, prios, p, i))
    && (forall i, j :: 0 <= i < j < |tcbs| && p.IsFilled(i) && p.IsFilled(j) ==> tcbs[i].prio != tcbs[j].prio)
  }

  predicate BlockOk(tcbs: seq<Tcb>, prios: seq<int>, p: Places, i: nat)
    requires i < |tcbs| == |p.spot|
  {
    && (p.IsActive(i) || p.IsFilled(i) ==> tcbs[i].prio < |prios|)
    && (p.IsActive(i) ==> prios[tcbs[i].prio] == i)
    && (p.IsFilled(i) ==>
          p.spot[i] == Filled(tcbs[i].prio) && tcbs[i].View() == FRESH_TASK && prios[tcbs[i].prio] < 0)
  }

  /** The precomputed masks of every active or filled block are those of its priority. */
  predicate MasksOk(tcbs: seq<Tcb>, p: Places)
    requires Partition(|tcbs|, p)
  {
    forall i {:trigger tcbs[i].BitsOk()} :: 0 <= i < |tcbs| && (p.IsActive(i) || p.IsFilled(i)) ==> tcbs[i].BitsOk()
  }

  /** The idle task, created first, is the tail of the active list. */
  predicate IdleLast(tcbs: seq<Tcb>, prios: seq<int>, p: Places)
    requires Partition(|tcbs|, p)
  {
    p.active != [] ==> tcbs[p.active[0]].prio == |prios| - 1
  }

  /** Everything above at once. */
  predicate ListsFine(tcbs: seq<Tcb>, prios: seq<int>, list: int, freeList: int, p: Places) {
    && Partition(|tcbs|, p)
    && Linked(tcbs, p, list, freeList)
    && PriosOk(tcbs, prios, p)
    && MasksOk(tcbs, p)
    && IdleLast(tcbs, prios, p)
  }

  // The same, block by block and position by position.

  predicate ActiveAt(tcbs: seq<Tcb>, p: Places, k: nat)
    requires k < |p.active| && |p.spot| == |tcbs|
  {
    var i := p.active[k];
    i < |tcbs| && p.spot[i] == Active(k) && tcbs[i].next == Next(p.active, k) && tcbs[i].prev == Prev(p.active, k)
  }

  predicate FreeAt(tcbs: seq<Tcb>, p: Places, k: nat)
    requires k < |p.free| && |p.spot| == |tcbs|
  {
    var i := p.free[k];
    i < |tcbs| && p.spot[i] == Free(k) && tcbs[i].next == Next(p.free, k)
  }

  predicate ActiveUpTo(tcbs: seq<Tcb>, p: Places, n: nat)
    requires n <= |p.active| && |p.spot| == |tcbs|
  {
    n == 0 || (ActiveUpTo(tcbs, p, n - 1) && ActiveAt(tcbs, p, n - 1))
  }

  predicate FreeUpTo(tcbs: seq<Tcb>, p: Places, n: nat)
    requires n <= |p.free| && |p.spot| == |tcbs|
  {
    n == 0 || (FreeUpTo(tcbs, p, n - 1) && FreeAt(tcbs, p, n - 1))
  }

  predicate BlocksUpTo(tcbs: seq<Tcb>, prios: seq<int>, p: Places, n: nat)
    requires n <= |tcbs| == |p.spot|
  {
    n == 0 ||
    (BlocksUpTo(tcbs, prios, p, n - 1)
     && SpotOk(p, n - 1) && BlockOk(tcbs, prios, p, n - 1)
     && (p.IsActive(n - 1) || p.IsFilled(n - 1) ==> tcbs[n - 1].BitsOk())
     && (p.IsFilled(n - 1) ==> forall i :: 0 <= i < n - 1 && p.IsFilled(i) ==> tcbs[i].prio != tcbs[n - 1].prio))
  }

  predicate PriosUpTo(tcbs: seq<Tcb>, prios: seq<int>, p: Places, n: nat)
    requires n <= |prios| && |tcbs| == |p.spot|
  {
    n == 0 ||
    (PriosUpTo(tcbs, prios, p, n - 1)
     && (prios[n - 1] >= 0 ==> p.IsActive(prios[n - 1]) && tcbs[prios[n - 1]].prio == n - 1))
  }

  /** The lists and the priority table are consistent. */
  predicate ListsOk(tcbs: seq<Tcb>, prios: seq<int>, list: int, freeList: int, p: Places) {
    && |p.spot| == |tcbs| && list == Head(p.active) && freeList == Head(p.free)
    && ActiveUpTo(tcbs, p, |p.active|) && FreeUpTo(tcbs, p, |p.free|)
    && BlocksUpTo(tcbs, prios, p, |tcbs|) && PriosUpTo(tcbs, prios, p, |prios|)
    && (p.active != [] ==> p.active[0] < |tcbs| && tcbs[p.active[0]].prio == |prios| - 1)
  }

  lemma {:induction false} ActiveEach(tcbs: seq<Tcb>, p: Places, n: nat)
    requires n <= |p.active| && |p.spot| == |tcbs|
    ensures ActiveUpTo(tcbs, p, n) <==>
              forall k {:trigger ActiveAt(tcbs, p, k)} :: 0 <= k < n ==> ActiveAt(tcbs, p, k)
  {
    if n > 0 {
      ActiveEach(tcbs, p, n - 1);
    }
  }

  lemma {:induction false} FreeEach(tcbs: seq<Tcb>, p: Places, n: nat)
    requires n <= |p.free| && |p.spot| == |tcbs|
    ensures FreeUpTo(tcbs, p, n) <==>
              forall k {:trigger FreeAt(tcbs, p, k)} :: 0 <= k < n ==> FreeAt(tcbs, p, k)
  {
    if n > 0 {
      FreeEach(tcbs, p, n - 1);
    }
  }

  /** Being linked, position by position. */
  lemma LinkedMeaning(tcbs: seq<Tcb>, p: Places)
    requires |p.spot| == |tcbs|
    ensures ActiveUpTo(tcbs, p, |p.active|) && FreeUpTo(tcbs, p, |p.free|) <==>
              && (forall k :: 0 <= k < |p.active| ==> p.active[k] < |tcbs| && p.spot[p.active[k]] == Active(k))
              && (forall k :: 0 <= k < |p.free| ==> p.free[k] < |tcbs| && p.spot[p.free[k]] == Free(k))
              && NextOk(tcbs, p.active) && PrevOk(tcbs, p.active) && NextOk(tcbs, p.free)
  {
    ActiveEach(tcbs, p, |p.active|);
    FreeEach(tcbs, p, |p.free|);
    if ActiveUpTo(tcbs, p, |p.active|) && FreeUpTo(tcbs, p, |p.free|) {
      forall k | 0 <= k < |p.active|
        ensures p.active[k] < |tcbs| && p.spot[p.active[k]] == Active(k)
        ensures tcbs[p.active[k]].next == Next(p.active, k) && tcbs[p.active[k]].prev == Prev(p.active, k)
      {
        assert ActiveAt(tcbs, p, k);
      }
      forall k | 0 <= k < |p.free|
        ensures p.free[k] < |tcbs| && p.spot[p.free[k]] == Free(k) && tcbs[p.free[k]].next == Next(p.free, k)
      {
        assert FreeAt(tcbs, p, k);
      }
    }
  }

  lemma {:induction false} BlocksEach(tcbs: seq<Tcb>, prios: seq<int>, p: Places, n: nat)
    requires n <= |tcbs| == |p.spot|
    ensures BlocksUpTo(tcbs, prios, p, n) <==>
              && (forall i {:trigger SpotOk(p, i)} :: 0 <= i < n ==> SpotOk(p, i))
              && (forall i {:trigger BlockOk(tcbs, prios, p, i)} :: 0 <= i < n ==> BlockOk(tcbs, prios, p, i))
              && (forall i {:trigger tcbs[i].BitsOk()} :: 0 <= i < n && (p.IsActive(i) || p.IsFilled(i)) ==>
                    tcbs[i].BitsOk())
              && (forall i, j :: 0 <= i < j < n && p.IsFilled(i) && p.IsFilled(j) ==> tcbs[i].prio != tcbs[j].prio)
  {
    if n > 0 {
      BlocksEach(tcbs, prios, p, n - 1);
    }
  }

  lemma {:induction false} PriosEach(tcbs: seq<Tcb>, prios: seq<int>, p: Places, n: nat)
    requires n <= |prios| && |tcbs| == |p.spot|
    ensures PriosUpTo(tcbs, prios, p, n) <==>
              forall q :: 0 <= q < n && prios[q] >= 0 ==> p.IsActive(prios[q]) && tcbs[prios[q]].prio == q
  {
    if n > 0 {
      PriosEach(tcbs, prios, p, n - 1);
    }
  }

  lemma ListsMeaning(tcbs: seq<Tcb>, prios: seq<int>, list: int, freeList: int, p: Places)
    ensures ListsOk(tcbs, prios, list, freeList, p) <==> ListsFine(tcbs, prios, list, freeList, p)
  {
    if |p.spot| == |tcbs| {
      LinkedMeaning(tcbs, p);
      BlocksEach(tcbs, prios, p, |tcbs|);
      PriosEach(tcbs, prios, p, |prios|);
    }
  }

  function TasksOf(tcbs: seq<Tcb>, prios: seq<int>): map<Prio, Task> {
    map q: nat | q < |prios| && 0 <= prios[q] < |tcbs| :: tcbs[prios[q]].View()
  }

  /** What the priority table depends on. */
  lemma PriosFrame(tcbs: seq<Tcb>, p: Places, tcbs': seq<Tcb>, p': Places, prios: seq<int>)
    requires Partition(|tcbs|, p) && Partition(|tcbs'|, p') && |tcbs'| == |tcbs| && PriosOk(tcbs, prios, p)
    requires forall i :: 0 <= i < |tcbs| ==>
               && (p'.IsActive(i) <==> p.IsActive(i)) && (p'.IsFilled(i) <==> p.IsFilled(i))
               && (p.IsFilled(i) ==> p'.spot[i] == p.spot[i] && tcbs'[i] == tcbs[i])
               && (p.IsActive(i) ==> tcbs'[i].prio == tcbs[i].prio)
    ensures PriosOk(tcbs', prios, p')
  {
    forall i | 0 <= i < |tcbs|
      ensures BlockOk(tcbs', prios, p', i)
    {
      assert BlockOk(tcbs, prios, p, i);
    }
  }

  lemma UpdateLinks(tcbs: seq<Tcb>, list: int, freeList: int, p: Places, i: nat, v: Tcb)
    requires Partition(|tcbs|, p) && Linked(tcbs, p, list, freeList) && i < |tcbs|
    requires v.next == tcbs[i].next && v.prev == tcbs[i].prev
    ensures Linked(tcbs[i := v], p, list, freeList)
  {
  }

  lemma UpdateTasks(tcbs: seq<Tcb>, prios: seq<int>, p: Places, i: nat, v: Tcb)
    requires Partition(|tcbs|, p) && PriosOk(tcbs, prios, p) && p.IsActive(i) && v.prio == tcbs[i].prio
    ensures v.prio in TasksOf(tcbs, prios) && prios[v.prio] == i
    ensures TasksOf(tcbs[i := v], prios) == TasksOf(tcbs, prios)[v.prio := v.View()]
  {
    assert BlockOk(tcbs, prios, p, i);
  }

  lemma UpdateTasksOnly(tcbs: seq<Tcb>, prios: seq<int>, list: int, freeList: int, p: Places, i: nat, v: Tcb)
    requires ListsOk(tcbs, prios, list, freeList, p) && p.IsActive(i) && v.prio == tcbs[i].prio
    ensures TasksOf(tcbs[i := v], prios) == TasksOf(tcbs, prios)[v.prio := v.View()]
  {
    ListsMeaning(tcbs, prios, list, freeList, p);
    UpdateTasks(tcbs, prios, p, i, v);
  }

  /** Rewriting the pend fields of one active block changes one task and no list. */
  lemma UpdateTask(tcbs: seq<Tcb>, prios: seq<int>, list: int, freeList: int, p: Places, i: nat, v: Tcb)
    requires ListsOk(tcbs, prios, list, freeList, p) && p.IsActive(i) && tcbs[i].SameLinks(v)
    ensures ListsOk(tcbs[i := v], prios, list, freeList, p)
    ensures v.prio in TasksOf(tcbs, prios) && prios[v.prio] == i
    ensures TasksOf(tcbs[i := v], prios) == TasksOf(tcbs, prios)[v.prio := v.View()]
  {
    ListsMeaning(tcbs, prios, list, freeList, p);
    UpdateLinks(tcbs, list, freeList, p, i, v);
    UpdateTasks(tcbs, prios, p, i, v);
    PriosFrame(tcbs, p, tcbs[i := v], p, prios);
    MasksFrame(tcbs, p, tcbs[i := v], p);
    ListsMeaning(tcbs[i := v], prios, list, freeList, p);
  }

  // ---------- task creation ----------

  lemma AllocPartition(n: nat, p: Places, q: Prio)
    requires Partition(n, p) && p.free != []
    ensures Partition(n, Allocated(p, q))
  {
    forall i | 0 <= i < n
      ensures SpotOk(Allocated(p, q), i)
    {
      assert SpotOk(p, i);
    }
  }

  function Allocated(p: Places, q: Prio): Places
    requires p.free != [] && p.free[|p.free| - 1] < |p.spot|
  {
    p.(free := p.free[..|p.free| - 1], spot := p.spot[p.free[|p.free| - 1] := InFlight(q)])
  }

  /** Unlinking the head of a list. */
  lemma DropHead(tcbs: seq<Tcb>, xs: seq<nat>)
    requires xs != [] && Indices(|tcbs|, xs) && NextOk(tcbs, xs)
    ensures NextOk(tcbs, xs[..|xs| - 1]) && tcbs[xs[|xs| - 1]].next == Head(xs[..|xs| - 1])
  {
    var ys := xs[..|xs| - 1];
    assert tcbs[xs[|xs| - 1]].next == Next(xs, |xs| - 1);
    forall k | 0 <= k < |ys|
      ensures tcbs[ys[k]].next == Next(ys, k)
    {
      assert tcbs[xs[k]].next == Next(xs, k);
    }
  }

  /** Linking a block in front of a list. */
  lemma AddHead(tcbs: seq<Tcb>, xs: seq<nat>, i: nat, tcbs': seq<Tcb>)
    requires Indices(|tcbs|, xs) && NextOk(tcbs, xs) && PrevOk(tcbs, xs) && i < |tcbs| == |tcbs'|
    requires tcbs'[i].next == Head(xs) && tcbs'[i].prev == NIL
    requires forall k :: 0 <= k < |xs| ==>
      tcbs'[xs[k]].next == tcbs[xs[k]].next && tcbs'[xs[k]].prev == if k == |xs| - 1 then i else tcbs[xs[k]].prev
    ensures Indices(|tcbs'|, xs + [i]) && NextOk(tcbs', xs + [i]) && PrevOk(tcbs', xs + [i])
  {
    var ys := xs + [i];
    forall k | 0 <= k < |ys|
      ensures tcbs'[ys[k]].next == Next(ys, k) && tcbs'[ys[k]].prev == Prev(ys, k)
    {
      if k < |xs| {
        assert ys[k] == xs[k];
        assert tcbs[xs[k]].next == Next(xs, k);
        assert tcbs[xs[k]].prev == Prev(xs, k);
      }
    }
  }

  lemma NextFrame(tcbs: seq<Tcb>, tcbs': seq<Tcb>, xs: seq<nat>)
    requires |tcbs'| == |tcbs| && Indices(|tcbs|, xs) && NextOk(tcbs, xs)
    requires forall k :: 0 <= k < |xs| ==> tcbs'[xs[k]].next == tcbs[xs[k]].next
    ensures NextOk(tcbs', xs)
  {
  }

  /** First critical section of OS_TCBInit: the head of the free list goes in flight. */
  lemma AllocMoves(tcbs: seq<Tcb>, prios: seq<int>, list: int, freeList: int, p: Places, q: Prio)
    requires ListsOk(tcbs, prios, list, freeList, p) && freeList != NIL
    ensures p.free != [] && 0 <= freeList < |tcbs| == |p.spot| && p.spot[freeList].Free?
    ensures p.free[|p.free| - 1] == freeList
    ensures ListsOk(tcbs, prios, list, tcbs[freeList].next, Allocated(p, q))
  {
    ListsMeaning(tcbs, prios, list, freeList, p);
    assert p.spot[p.free[|p.free| - 1]] == Free(|p.free| - 1);
    AllocPartition(|tcbs|, p, q);
    DropHead(tcbs, p.free);
    PriosFrame(tcbs, p, tcbs, Allocated(p, q), prios);
    ListsMeaning(tcbs, prios, list, tcbs[freeList].next, Allocated(p, q));
  }

  /** Between the critical sections: only the block in flight is written. */
  lemma FillKeeps(tcbs: seq<Tcb>, prios: seq<int>, list: int, freeList: int, p: Places, i: nat, v: Tcb)
    requires ListsOk(tcbs, prios, list, freeList, p) && i < |tcbs| == |p.spot| && p.spot[i].InFlight?
    requires v.BitsOk() && v.View() == FRESH_TASK && v.prio < |prios| && prios[v.prio] < 0
    requires forall j :: 0 <= j < |tcbs| && p.IsFilled(j) ==> tcbs[j].prio != v.prio
    ensures ListsOk(tcbs[i := v], prios, list, freeList, p.(spot := p.spot[i := Filled(v.prio)]))
    ensures TasksOf(tcbs[i := v], prios) == TasksOf(tcbs, prios)
  {
    ListsMeaning(tcbs, prios, list, freeList, p);
    ghost var p' := p.(spot := p.spot[i := Filled(v.prio)]);
    FillPartition(|tcbs|, p, i, v.prio);
    NextFrame(tcbs, tcbs[i := v], p.active);
    NextFrame(tcbs, tcbs[i := v], p.free);
    assert PrevOk(tcbs[i := v], p.active);
    MasksFrame(tcbs, p, tcbs[i := v], p');
    FillTasks(tcbs, prios, p, i, v);
    FillPrios(tcbs, prios, p, i, v);
    ListsMeaning(tcbs[i := v], prios, list, freeList, p');
  }

  /** Masks follow from the masks before, when each block that matters kept its own or is fine. */
  lemma MasksFrame(tcbs: seq<Tcb>, p: Places, tcbs': seq<Tcb>, p': Places)
    requires Partition(|tcbs|, p) && Partition(|tcbs'|, p') && |tcbs'| == |tcbs| && MasksOk(tcbs, p)
    requires forall i :: 0 <= i < |tcbs| && (p'.IsActive(i) || p'.IsFilled(i)) ==>
               ((p.IsActive(i) || p.IsFilled(i)) && tcbs'[i].SamePrio(tcbs[i])) || tcbs'[i].BitsOk()
    ensures MasksOk(tcbs', p')
  {
    forall i | 0 <= i < |tcbs'| && (p'.IsActive(i) || p'.IsFilled(i))
      ensures tcbs'[i].BitsOk()
    {
      if p.IsActive(i) || p.IsFilled(i) {
        assert tcbs[i].BitsOk();
      }
    }
  }

  lemma FillTasks(tcbs: seq<Tcb>, prios: seq<int>, p: Places, i: nat, v: Tcb)
    requires Partition(|tcbs|, p) && PriosOk(tcbs, prios, p) && i < |tcbs| && p.spot[i].InFlight?
    ensures TasksOf(tcbs[i := v], prios) == TasksOf(tcbs, prios)
  {
  }

  lemma FillPartition(n: nat, p: Places, i: nat, q: Prio)
    requires Partition(n, p) && i < n && p.spot[i].InFlight?
    ensures Partition(n, p.(spot := p.spot[i := Filled(q)]))
    ensures forall k :: 0 <= k < |p.active| ==> p.active[k] != i
    ensures forall k :: 0 <= k < |p.free| ==> p.free[k] != i
  {
    var p' := p.(spot := p.spot[i := Filled(q)]);
    forall j | 0 <= j < n
      ensures SpotOk(p', j)
    {
      assert SpotOk(p, j);
    }
  }

  lemma FillPrios(tcbs: seq<Tcb>, prios: seq<int>, p: Places, i: nat, v: Tcb)
    requires Partition(|tcbs|, p) && PriosOk(tcbs, prios, p) && i < |tcbs| && p.spot[i].InFlight?
    requires v.View() == FRESH_TASK && v.prio < |prios| && prios[v.prio] < 0
    requires forall j :: 0 <= j < |tcbs| && p.IsFilled(j) ==> tcbs[j].prio != v.prio
    requires Partition(|tcbs|, p.(spot := p.spot[i := Filled(v.prio)]))
    ensures PriosOk(tcbs[i := v], prios, p.(spot := p.spot[i := Filled(v.prio)]))
  {
    var p', tcbs' := p.(spot := p.spot[i := Filled(v.prio)]), tcbs[i := v];
    forall j | 0 <= j < |tcbs'|
      ensures BlockOk(tcbs', prios, p', j)
    {
      assert BlockOk(tcbs, prios, p, j);
    }
  }

  /** The active list after linking block i. */
  function LinkedPlaces(p: Places, i: nat): Places
    requires i < |p.spot|
  {
    p.(active := p.active + [i], spot := p.spot[i := Active(|p.active|)])
  }

  // ---------- creations between their critical sections ----------

  /** What a creation in progress knows: its block, and whether it has filled it in. */
  datatype Creation = Creation(ptcb: nat, filled: bool)

  /** A block just taken from the head of the free list. */
  predicate TakenFrom(p: Places, i: int) {
    p.free != [] && i == p.free[|p.free| - 1] && 0 <= i < |p.spot| && p.spot[i].Free?
  }

  predicate CreationAt(prios: seq<int>, p: Places, q: Prio, c: Creation) {
    && q < |prios| && prios[q] < 0 && c.ptcb < |p.spot|
    && p.spot[c.ptcb] == if c.filled then Filled(q) else InFlight(q)
  }

  predicate IsThere(p: Places, i: nat, cs: map<Prio, Creation>)
    requires i < |p.spot|
  {
    p.spot[i].Filled? ==> p.spot[i].prio in cs && cs[p.spot[i].prio] == Creation(i, true)
  }

  /** These are the creations in progress, by priority: each has a block and an unused priority
      of its own, and no other has filled a block. */
  ghost predicate CreationsOk(prios: seq<int>, p: Places, cs: map<Prio, Creation>) {
    && (forall q :: q in cs ==> CreationAt(prios, p, q, cs[q]))
    && (forall i :: 0 <= i < |p.spot| ==> IsThere(p, i, cs))
  }

  lemma BeginKeeps(prios: seq<int>, p: Places, cs: map<Prio, Creation>, q: Prio, i: nat)
    requires CreationsOk(prios, p, cs) && q < |prios| && prios[q] < 0 && q !in cs
    requires TakenFrom(p, i)
    ensures CreationsOk(prios, Allocated(p, q), cs[q := Creation(i, false)])
  {
    var p', cs' := Allocated(p, q), cs[q := Creation(i, false)];
    forall j | 0 <= j < |p'.spot|
      ensures IsThere(p', j, cs')
    {
      assert IsThere(p, j, cs);
    }
    forall r | r in cs'
      ensures CreationAt(prios, p', r, cs'[r])
    {
      assert r != q ==> CreationAt(prios, p, r, cs[r]);
    }
  }

  lemma FilledKeeps(prios: seq<int>, p: Places, cs: map<Prio, Creation>, q: Prio)
    requires CreationsOk(prios, p, cs) && q in cs && !cs[q].filled
    ensures cs[q].ptcb < |p.spot| && p.spot[cs[q].ptcb] == InFlight(q) && q < |prios| && prios[q] < 0
    ensures forall j :: 0 <= j < |p.spot| ==> p.spot[j] != Filled(q)
    ensures CreationsOk(prios, p.(spot := p.spot[cs[q].ptcb := Filled(q)]), cs[q := Creation(cs[q].ptcb, true)])
  {
    var i := cs[q].ptcb;
    assert CreationAt(prios, p, q, cs[q]);
    var p', cs' := p.(spot := p.spot[i := Filled(q)]), cs[q := Creation(i, true)];
    forall j | 0 <= j < |p'.spot|
      ensures IsThere(p', j, cs') && p.spot[j] != Filled(q)
    {
      assert IsThere(p, j, cs);
    }
    forall r | r in cs'
      ensures CreationAt(prios, p', r, cs'[r])
    {
      assert r != q ==> CreationAt(prios, p, r, cs[r]);
    }
  }

  lemma LinkedKeeps(prios: seq<int>, p: Places, cs: map<Prio, Creation>, q: Prio)
    requires CreationsOk(prios, p, cs) && q in cs && cs[q].filled
    ensures cs[q].ptcb < |p.spot| && p.spot[cs[q].ptcb] == Filled(q) && q < |prios|
    ensures CreationsOk(prios[q := cs[q].ptcb], LinkedPlaces(p, cs[q].ptcb), cs - {q})
  {
    var i := cs[q].ptcb;
    assert CreationAt(prios, p, q, cs[q]);
    var p', cs', prios' := LinkedPlaces(p, i), cs - {q}, prios[q := i];
    forall j | 0 <= j < |p'.spot|
      ensures IsThere(p', j, cs')
    {
      assert IsThere(p, j, cs);
    }
    forall r | r in cs'
      ensures CreationAt(prios', p', r, cs'[r])
    {
      assert CreationAt(prios, p, r, cs[r]);
    }
  }

  /** A filled block is marked with its priority. */
  lemma FilledPrio(tcbs: seq<Tcb>, prios: seq<int>, list: int, freeList: int, p: Places)
    requires ListsOk(tcbs, prios, list, freeList, p)
    ensures |tcbs| == |p.spot| && forall j :: 0 <= j < |tcbs| && p.IsFilled(j) ==> p.spot[j] == Filled(tcbs[j].prio)
  {
    ListsMeaning(tcbs, prios, list, freeList, p);
    forall j | 0 <= j < |tcbs| && p.IsFilled(j)
      ensures p.spot[j] == Filled(tcbs[j].prio)
    {
      assert BlockOk(tcbs, prios, p, j);
    }
  }

  /** The table after linking block i in front of list. */
  function LinkedTcbs(tcbs: seq<Tcb>, list: int, i: nat): seq<Tcb>
    requires i < |tcbs| && list < |tcbs|
  {
    var t := tcbs[i := tcbs[i].(next := list, prev := NIL)];
    if list < 0 then t else t[list := t[list].(prev := i)]
  }

  lemma LinkPartition(n: nat, p: Places, i: nat)
    requires Partition(n, p) && p.IsFilled(i)
    ensures Partition(n, LinkedPlaces(p, i))
  {
    forall j | 0 <= j < n
      ensures SpotOk(LinkedPlaces(p, i), j)
    {
      assert SpotOk(p, j);
    }
  }

  lemma LinkLinks(tcbs: seq<Tcb>, list: int, freeList: int, p: Places, i: nat)
    requires Partition(|tcbs|, p) && Linked(tcbs, p, list, freeList) && p.IsFilled(i)
    requires Partition(|tcbs|, LinkedPlaces(p, i)) && list < |tcbs|
    ensures Linked(LinkedTcbs(tcbs, list, i), LinkedPlaces(p, i), i, freeList)
  {
    var tcbs' := LinkedTcbs(tcbs, list, i);
    assert p.spot[i].Filled?;
    forall k | 0 <= k < |p.active|
      ensures p.active[k] != i && (p.active[k] == list <==> k == |p.active| - 1)
    {
      assert p.spot[p.active[k]] == Active(k);
    }
    forall k | 0 <= k < |p.free|
      ensures p.free[k] != i && p.free[k] != list
    {
      assert p.spot[p.free[k]] == Free(k);
    }
    AddHead(tcbs, p.active, i, tcbs');
    NextFrame(tcbs, tcbs', p.free);
  }

  lemma LinkPrios(tcbs: seq<Tcb>, prios: seq<int>, p: Places, i: nat, tcbs': seq<Tcb>)
    requires Partition(|tcbs|, p) && PriosOk(tcbs, prios, p) && p.IsFilled(i)
    requires |tcbs'| == |tcbs| && Partition(|tcbs|, LinkedPlaces(p, i)) && tcbs[i].prio < |prios|
    requires forall j :: 0 <= j < |tcbs| ==>
      tcbs'[j].prio == tcbs[j].prio && tcbs'[j].View() == tcbs[j].View()
    ensures PriosOk(tcbs', prios[tcbs[i].prio := i], LinkedPlaces(p, i))
  {
    var p', prios' := LinkedPlaces(p, i), prios[tcbs[i].prio := i];
    assert forall j :: 0 <= j < |tcbs| ==>
      (p'.IsActive(j) <==> p.IsActive(j) || j == i) && (p'.IsFilled(j) <==> p.IsFilled(j) && j != i);
    assert BlockOk(tcbs, prios, p, i);
    forall j | 0 <= j < |tcbs|
      ensures BlockOk(tcbs', prios', p', j)
    {
      assert BlockOk(tcbs, prios, p, j);
    }
  }

  lemma LinkTasks(tcbs: seq<Tcb>, prios: seq<int>, p: Places, i: nat, tcbs': seq<Tcb>)
    requires Partition(|tcbs|, p) && PriosOk(tcbs, prios, p) && p.IsFilled(i) && |tcbs'| == |tcbs|
    requires forall j :: 0 <= j < |tcbs| ==> tcbs'[j].View() == tcbs[j].View()
    ensures tcbs[i].prio < |prios|
    ensures tcbs[i].prio !in TasksOf(tcbs, prios)
    ensures TasksOf(tcbs', prios[tcbs[i].prio := i]) == TasksOf(tcbs, prios)[tcbs[i].prio := FRESH_TASK]
  {
    assert BlockOk(tcbs, prios, p, i);
  }

  /** Second critical section: the filled block becomes the head of the active list. */
  lemma LinkAdds(tcbs: seq<Tcb>, prios: seq<int>, list: int, freeList: int, p: Places, i: nat)
    requires ListsOk(tcbs, prios, list, freeList, p) && p.IsFilled(i)
    requires p.active == [] ==> tcbs[i].prio == |prios| - 1
    ensures list < |tcbs| && tcbs[i].prio < |prios| && tcbs[i].prio !in TasksOf(tcbs, prios)
    ensures ListsOk(LinkedTcbs(tcbs, list, i), prios[tcbs[i].prio := i], i, freeList, LinkedPlaces(p, i))
    ensures TasksOf(LinkedTcbs(tcbs, list, i), prios[tcbs[i].prio := i])
            == TasksOf(tcbs, prios)[tcbs[i].prio := FRESH_TASK]
  {
    ListsMeaning(tcbs, prios, list, freeList, p);
    LinkPartition(|tcbs|, p, i);
    LinkLinks(tcbs, list, freeList, p, i);
    LinkRest(tcbs, prios, list, p, i, LinkedTcbs(tcbs, list, i));
    ListsMeaning(LinkedTcbs(tcbs, list, i), prios[tcbs[i].prio := i], i, freeList, LinkedPlaces(p, i));
  }

  lemma LinkRest(tcbs: seq<Tcb>, prios: seq<int>, list: int, p: Places, i: nat, tcbs': seq<Tcb>)
    requires Partition(|tcbs|, p) && PriosOk(tcbs, prios, p) && MasksOk(tcbs, p) && IdleLast(tcbs, prios, p)
    requires p.IsFilled(i) && Partition(|tcbs|, LinkedPlaces(p, i))
    requires p.active == [] ==> tcbs[i].prio == |prios| - 1
    requires |tcbs'| == |tcbs|
    requires forall j :: 0 <= j < |tcbs| ==> tcbs'[j].SamePrio(tcbs[j]) && tcbs'[j].View() == tcbs[j].View()
    ensures tcbs[i].prio < |prios|
    ensures PriosOk(tcbs', prios[tcbs[i].prio := i], LinkedPlaces(p, i))
    ensures MasksOk(tcbs', LinkedPlaces(p, i)) && IdleLast(tcbs', prios[tcbs[i].prio := i], LinkedPlaces(p, i))
    ensures tcbs[i].prio !in TasksOf(tcbs, prios)
    ensures TasksOf(tcbs', prios[tcbs[i].prio := i]) == TasksOf(tcbs, prios)[tcbs[i].prio := FRESH_TASK]
  {
    LinkTasks(tcbs, prios, p, i, tcbs');
    LinkPrios(tcbs, prios, p, i, tcbs');
    MasksFrame(tcbs, p, tcbs', LinkedPlaces(p, i));
  }

  lemma AllFreePartition(n: nat)
    ensures Partition(n, InitialPlaces(n))
  {
  }

  lemma AllFreeNext(tcbs: seq<Tcb>, n: nat, free: seq<nat>)
    requires |tcbs| == n == |free| && forall k :: 0 <= k < n ==> free[k] == n - 1 - k
    requires forall i :: 0 <= i < n ==> tcbs[i].next == (if i == n - 1 then NIL else i + 1)
    ensures NextOk(tcbs, free)
  {
  }

  /** OS_InitTCBList: all blocks on the free list, in order. */
  lemma AllFree(tcbs: seq<Tcb>, prios: seq<int>, n: nat)
    requires |tcbs| == n && n > 0
    requires forall i :: 0 <= i < n ==> tcbs[i].next == (if i == n - 1 then NIL else i + 1)
    requires forall q :: 0 <= q < |prios| ==> prios[q] == NIL
    ensures ListsOk(tcbs, prios, NIL, 0, InitialPlaces(n))
    ensures TasksOf(tcbs, prios) == map[]
  {
    ListsMeaning(tcbs, prios, NIL, 0, InitialPlaces(n));
    AllFreePartition(n);
    AllFreeNext(tcbs, n, InitialPlaces(n).free);
    assert forall i :: 0 <= i < n ==> InitialPlaces(n).spot[i].Free?;
  }

  function InitialPlaces(n: nat): Places {
    Places([], seq(n, k requires 0 <= k < n => n - 1 - k), seq(n, i requires 0 <= i < n => Free(n - 1 - i)))
  }

  lemma ActiveAreTasks(tcbs: seq<Tcb>, prios: seq<int>, p: Places)
    requires Partition(|tcbs|, p) && PriosOk(tcbs, prios, p) && IdleLast(tcbs, prios, p)
    ensures forall k :: 0 <= k < |p.active| ==> p.active[k] < |tcbs|
    ensures forall q :: q in TasksOf(tcbs, prios) <==>
              exists k :: 0 <= k < |p.active| && tcbs[p.active[k]].prio == q
    ensures forall k, l :: 0 <= k < l < |p.active| ==> tcbs[p.active[k]].prio != tcbs[p.active[l]].prio
    ensures forall k :: 0 <= k < |p.active| ==> (tcbs[p.active[k]].prio == |prios| - 1 <==> k == 0)
  {
    forall q | q in TasksOf(tcbs, prios)
      ensures exists k :: 0 <= k < |p.active| && tcbs[p.active[k]].prio == q
    {
      var k := p.spot[prios[q]].k;
      assert SpotOk(p, prios[q]);
      assert tcbs[p.active[k]].prio == q;
    }
    forall k, l | 0 <= k < l < |p.active|
      ensures tcbs[p.active[k]].prio != tcbs[p.active[l]].prio
    {
      assert p.spot[p.active[k]] != p.spot[p.active[l]];
      assert BlockOk(tcbs, prios, p, p.active[k]) && BlockOk(tcbs, prios, p, p.active[l]);
    }
    forall k | 0 <= k < |p.active|
      ensures tcbs[p.active[k]].prio in TasksOf(tcbs, prios)
    {
      assert BlockOk(tcbs, prios, p, p.active[k]);
    }
  }

  /** Each task's block appears once on the active list and every task has one: walking the
      list visits each task exactly once, the idle task last. */
  lemma ActiveListIsTheTasks(tcbs: seq<Tcb>, prios: seq<int>, list: int, freeList: int, p: Places)
    requires ListsOk(tcbs, prios, list, freeList, p)
    ensures forall k :: 0 <= k < |p.active| ==> p.active[k] < |tcbs|
    ensures forall q :: q in TasksOf(tcbs, prios) <==>
              exists k :: 0 <= k < |p.active| && tcbs[p.active[k]].prio == q
    ensures forall k, l :: 0 <= k < l < |p.active| ==> tcbs[p.active[k]].prio != tcbs[p.active[l]].prio
    ensures forall k :: 0 <= k < |p.active| ==> (tcbs[p.active[k]].prio == |prios| - 1 <==> k == 0)
  {
    ListsMeaning(tcbs, prios, list, freeList, p);
    ActiveAreTasks(tcbs, prios, p);
  }

  /** The priorities along the active list, tail first. */
  function NamesOf(tcbs: seq<Tcb>, p: Places): (names: seq<Prio>)
    ensures |names| == |p.active|
  {
    NamesIn(tcbs, p.active)
  }

  function NamesIn(tcbs: seq<Tcb>, xs: seq<nat>): (names: seq<Prio>)
    ensures |names| == |xs|
  {
    if xs == [] then [] else NamesIn(tcbs, xs[..|xs| - 1]) + [PrioAt(tcbs, xs[|xs| - 1])]
  }

  function PrioAt(tcbs: seq<Tcb>, i: nat): Prio {
    if i < |tcbs| then tcbs[i].prio else 0
  }

  lemma {:induction false} NameAt(tcbs: seq<Tcb>, xs: seq<nat>, k: nat)
    requires k < |xs|
    ensures NamesIn(tcbs, xs)[k] == PrioAt(tcbs, xs[k])
  {
    if k < |xs| - 1 {
      NameAt(tcbs, xs[..|xs| - 1], k);
    }
  }

  lemma {:induction false} SameNamesIn(tcbs: seq<Tcb>, tcbs': seq<Tcb>, xs: seq<nat>)
    requires |tcbs'| == |tcbs| && forall i :: 0 <= i < |tcbs| ==> tcbs'[i].prio == tcbs[i].prio
    ensures NamesIn(tcbs', xs) == NamesIn(tcbs, xs)
  {
    if xs != [] {
      SameNamesIn(tcbs, tcbs', xs[..|xs| - 1]);
    }
  }

  lemma SameNames(tcbs: seq<Tcb>, tcbs': seq<Tcb>, p: Places)
    requires |tcbs'| == |tcbs| && forall i :: 0 <= i < |tcbs| ==> tcbs'[i].prio == tcbs[i].prio
    ensures NamesOf(tcbs', p) == NamesOf(tcbs, p)
  {
    SameNamesIn(tcbs, tcbs', p.active);
  }

  /** Priorities in use keep their blocks. */
  predicate KeepsPrios(prios: seq<int>, prios': seq<int>) {
    |prios'| == |prios| && forall q :: 0 <= q < |prios| && prios[q] >= 0 ==> prios'[q] == prios[q]
  }

  lemma NameKept(
    tcbs: seq<Tcb>, prios: seq<int>, list: int, freeList: int, p: Places,
    tcbs': seq<Tcb>, prios': seq<int>, list': int, freeList': int, p': Places, k: nat)
    requires ListsOk(tcbs, prios, list, freeList, p) && ListsOk(tcbs', prios', list', freeList', p')
    requires KeepsPrios(prios, prios') && k < |p.active| && |tcbs'| == |tcbs|
    ensures PrioAt(tcbs', p.active[k]) == PrioAt(tcbs, p.active[k])
  {
    var i := p.active[k];
    ListsMeaning(tcbs, prios, list, freeList, p);
    ListsMeaning(tcbs', prios', list', freeList', p');
    assert BlockOk(tcbs, prios, p, i);
    assert prios'[tcbs[i].prio] == i;
  }

  /** ... and so the blocks on the list keep their names, whatever is linked in front of them. */
  lemma NamesKept(
    tcbs: seq<Tcb>, prios: seq<int>, list: int, freeList: int, p: Places,
    tcbs': seq<Tcb>, prios': seq<int>, list': int, freeList': int, p': Places)
    requires ListsOk(tcbs, prios, list, freeList, p) && ListsOk(tcbs', prios', list', freeList', p')
    requires KeepsPrios(prios, prios') && |tcbs'| == |tcbs|
    ensures NamesIn(tcbs', p.active) == NamesOf(tcbs, p)
  {
    forall k | 0 <= k < |p.active|
      ensures NamesIn(tcbs', p.active)[k] == NamesOf(tcbs, p)[k]
    {
      NameAt(tcbs, p.active, k);
      NameAt(tcbs', p.active, k);
      NameKept(tcbs, prios, list, freeList, p, tcbs', prios', list', freeList', p', k);
    }
  }

  /** The first part of a list has the first names. */
  lemma FirstNames(tcbs: seq<Tcb>, xs: seq<nat>, ys: seq<nat>, k: nat)
    requires xs <= ys && k < |xs|
    ensures NamesIn(tcbs, ys)[k] == NamesIn(tcbs, xs)[k]
  {
    NameAt(tcbs, xs, k);
    NameAt(tcbs, ys, k);
  }

  lemma NameIs(tcbs: seq<Tcb>, prios: seq<int>, list: int, freeList: int, p: Places, k: nat)
    requires ListsOk(tcbs, prios, list, freeList, p) && k < |p.active|
    ensures NamesOf(tcbs, p)[k] in TasksOf(tcbs, prios)
    ensures NamesOf(tcbs, p)[k] == |prios| - 1 <==> k == 0
    ensures forall l :: k < l < |p.active| ==> NamesOf(tcbs, p)[k] != NamesOf(tcbs, p)[l]
  {
    ActiveListIsTheTasks(tcbs, prios, list, freeList, p);
    NameAt(tcbs, p.active, k);
    forall l | k < l < |p.active|
      ensures NamesOf(tcbs, p)[k] != NamesOf(tcbs, p)[l]
    {
      NameAt(tcbs, p.active, l);
    }
  }

  lemma TaskIsNamed(tcbs: seq<Tcb>, prios: seq<int>, list: int, freeList: int, p: Places, q: Prio)
    requires ListsOk(tcbs, prios, list, freeList, p) && q in TasksOf(tcbs, prios)
    ensures q in NamesOf(tcbs, p)
  {
    ActiveListIsTheTasks(tcbs, prios, list, freeList, p);
    var k :| 0 <= k < |p.active| && tcbs[p.active[k]].prio == q;
    NameAt(tcbs, p.active, k);
    assert NamesOf(tcbs, p)[k] == q;
  }

  /** The names are the tasks, each once, the idle task at the tail. */
  lemma NamesAreTasks(tcbs: seq<Tcb>, prios: seq<int>, list: int, freeList: int, p: Places, names: seq<Prio>)
    requires ListsOk(tcbs, prios, list, freeList, p) && names == NamesOf(tcbs, p)
    ensures NameEach(names, TasksOf(tcbs, prios).Keys)
    ensures forall k :: 0 <= k < |names| ==> (names[k] == |prios| - 1 <==> k == 0)
  {
    forall k | 0 <= k < |names|
      ensures names[k] in TasksOf(tcbs, prios) && (names[k] == |prios| - 1 <==> k == 0)
      ensures forall l :: k < l < |names| ==> names[k] != names[l]
    {
      NameIs(tcbs, prios, list, freeList, p, k);
    }
    forall q | q in TasksOf(tcbs, prios)
      ensures q in names
    {
      TaskIsNamed(tcbs, prios, list, freeList, p, q);
    }
  }

  /** One step of a walk. */
  lemma ListStep(tcbs: seq<Tcb>, prios: seq<int>, list: int, freeList: int, p: Places, k: nat)
    requires ListsOk(tcbs, prios, list, freeList, p) && 0 < k < |p.active|
    ensures p.IsActive(p.active[k]) && p.active[k] < |tcbs| && p.active[k - 1] < |tcbs|
    ensures tcbs[p.active[k]].next == p.active[k - 1]
  {
    ListNext(tcbs, prios, list, freeList, p, k);
    ListNext(tcbs, prios, list, freeList, p, k - 1);
  }

  lemma ListNext(tcbs: seq<Tcb>, prios: seq<int>, list: int, freeList: int, p: Places, k: nat)
    requires ListsOk(tcbs, prios, list, freeList, p) && k < |p.active|
    ensures p.IsActive(p.active[k]) && p.active[k] < |tcbs| && tcbs[p.active[k]].next == Next(p.active, k)
  {
    ListsMeaning(tcbs, prios, list, freeList, p);
    assert Next(p.active, k) == tcbs[p.active[k]].next;
  }

  /** Looking up either way. */
  lemma ActiveTask(tcbs: seq<Tcb>, prios: seq<int>, list: int, freeList: int, p: Places, i: int)
    requires ListsOk(tcbs, prios, list, freeList, p) && p.IsActive(i)
    ensures 0 <= i < |tcbs| && tcbs[i].BitsOk() && tcbs[i].prio < |prios| && prios[tcbs[i].prio] == i
    ensures tcbs[i].prio in TasksOf(tcbs, prios) && TasksOf(tcbs, prios)[tcbs[i].prio] == tcbs[i].View()
  {
    ListsMeaning(tcbs, prios, list, freeList, p);
    assert tcbs[i].BitsOk();
    assert BlockOk(tcbs, prios, p, i);
  }

  lemma TaskBlock(tcbs: seq<Tcb>, prios: seq<int>, list: int, freeList: int, p: Places, q: Prio)
    requires ListsOk(tcbs, prios, list, freeList, p) && q in TasksOf(tcbs, prios)
    ensures q < |prios| && p.IsActive(prios[q]) && 0 <= prios[q] < |tcbs| && tcbs[prios[q]].prio == q
    ensures TasksOf(tcbs, prios)[q] == tcbs[prios[q]].View() && tcbs[prios[q]].BitsOk()
  {
    ListsMeaning(tcbs, prios, list, freeList, p);
    assert tcbs[prios[q]].BitsOk();
  }

  lemma FreeListStarts(tcbs: seq<Tcb>, prios: seq<int>, list: int, freeList: int, n: nat)
    requires ListsOk(tcbs, prios, list, freeList, InitialPlaces(n)) && n > 0
    ensures freeList == 0 && |tcbs| == n && InitialPlaces(n).active == []
    ensures forall i :: 0 <= i < n ==> InitialPlaces(n).spot[i].Free?
  {
  }

  lemma NoTaskYet(tcbs: seq<Tcb>, prios: seq<int>, list: int, freeList: int, p: Places, q: Prio)
    requires ListsOk(tcbs, prios, list, freeList, p) && TasksOf(tcbs, prios) == map[] && q < |prios|
    ensures prios[q] < 0
  {
    ListsMeaning(tcbs, prios, list, freeList, p);
    assert prios[q] >= 0 ==> q in TasksOf(tcbs, prios);
  }
}
