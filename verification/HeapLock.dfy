/** The recursive heap lock built on a counting semaphore (alt_malloc_lock.c).  Each step
    below is one stretch the kernel cannot interrupt, so a run may switch tasks between any two
    of them: after the semaphore query, around the pend, between the pend returning and each of
    the two assignments that record the new owner, and before the post.  A task may also lock
    the scheduler; then no other task runs, and OSSemPend refuses to wait. */
module HeapLock {
  import opened Options

  type Task = nat

  const NOBODY := -1

  /** Where a task is: outside the two functions, or before the next step of one of them. */
  datatype Place =
    | Outside
    | Asked(count: nat)    // OSSemQuery done, critical section not yet entered
    | AtPend               // about to call OSSemPend
    | Blocked              // in the semaphore's wait list
    | Got                  // the pend returned; locks and lockid not yet written
    | Counted              // locks written, lockid not yet
    | Posting              // locks reached zero; OSSemPost not yet called

  /** nesting is OSLockNesting, and locker the task that runs while it is not zero; depth counts
      each task's completed lock calls without their unlock. */
  datatype State = State(count: nat, locks: nat, lockid: int, nesting: nat, locker: Task,
                         at: map<Task, Place>, depth: map<Task, nat>)
  {
    predicate Knows(t: Task) {
      t in at && t in depth
    }

    function Move(t: Task, p: Place): State {
      this.(at := at[t := p])
    }

    function Nest(t: Task, d: nat): State {
      this.(at := at[t := Outside], depth := depth[t := d])
    }
  }

  datatype Action =
    | Query(t: Task)
    | Check(t: Task)
    | Pend(t: Task)
    | Count(t: Task)
    | Record(t: Task)
    | Unlock(t: Task)
    | Post(t: Task, woken: Task)
    | SchedLock(t: Task)
    | SchedUnlock(t: Task)

  predicate Waiting(s: State, t: Task) {
    t in s.at && s.at[t] == Blocked
  }

  /** A post may wake any waiter, so in particular the one of highest priority. */
  ghost predicate CanWake(s: State, woken: Task) {
    (exists w :: Waiting(s, w)) ==> Waiting(s, woken)
  }

  /** With the scheduler locked only the task that locked it runs; callers unlock only what they
      have locked. */
  ghost predicate Enabled(s: State, a: Action) {
    && s.Knows(a.t) && (s.nesting == 0 || s.locker == a.t)
    && match a
       case Query(t) => s.at[t] == Outside
       case Check(t) => s.at[t].Asked?
       case Pend(t) => s.at[t] == AtPend
       case Count(t) => s.at[t] == Got
       case Record(t) => s.at[t] == Counted
       case Unlock(t) => s.at[t] == Outside && s.depth[t] > 0
       case Post(t, woken) => s.at[t] == Posting && CanWake(s, woken)
       case SchedLock(t) => s.at[t] == Outside
       case SchedUnlock(t) => s.at[t] == Outside && s.nesting > 0
  }

  function Less(n: nat): nat {
    if n > 0 then n - 1 else 0
  }

  function Step(s: State, a: Action): State
    requires s.Knows(a.t)
  {
    var t := a.t;
    match a
    case Query(_) => s.Move(t, Asked(s.count))
    case Check(_) =>
      if s.at[t] == Asked(0) && t == s.lockid then s.Nest(t, s.depth[t] + 1).(locks := s.locks + 1)
      else s.Move(t, AtPend)
    case Pend(_) =>
      if s.nesting > 0 then s.Move(t, Got)
      else if s.count > 0 then s.Move(t, Got).(count := s.count - 1)
      else s.Move(t, Blocked)
    case Count(_) => s.Move(t, Counted).(locks := 1)
    case Record(_) => s.Nest(t, s.depth[t] + 1).(lockid := t)
    case Unlock(_) =>
      var s' := s.Nest(t, Less(s.depth[t]));
      if s.locks == 0 then s'
      else if s.locks > 1 then s'.(locks := s.locks - 1)
      else s'.Move(t, Posting).(locks := 0, lockid := NOBODY)
    case Post(_, woken) =>
      if Waiting(s, woken) then s.Move(t, Outside).Move(woken, Got)
      else s.Move(t, Outside).(count := if s.count < 65535 then s.count + 1 else s.count)
    case SchedLock(_) => s.(nesting := s.nesting + 1, locker := t)
    case SchedUnlock(_) => s.(nesting := Less(s.nesting))
  }

  /** OSSemPend returns OS_ERR_PEND_LOCKED at once, and the caller does not look. */
  predicate Refused(s: State, a: Action) {
    a.Pend? && s.nesting > 0
  }

  // ---------- the two calls as a whole ----------

  /** __malloc_lock with nothing in between; it may end blocked. */
  function LockCall(s: State, t: Task): State
    requires s.Knows(t)
  {
    var asked := Step(Step(s, Query(t)), Check(t));
    if asked.at[t] != AtPend then asked
    else
      var pended := Step(asked, Pend(t));
      if pended.at[t] == Blocked then pended else Step(Step(pended, Count(t)), Record(t))
  }

  function UnlockCall(s: State, t: Task, woken: Task): State
    requires s.Knows(t)
  {
    var given := Step(s, Unlock(t));
    if given.at[t] == Posting then Step(given, Post(t, woken)) else given
  }

  // ---------- the code ----------

  /** The two static variables, the semaphore's count and OSLockNesting; where the tasks are is
      bookkeeping. */
  class Heap {
    var count: nat
    var locks: nat
    var lockid: int
    var nesting: nat
    ghost var locker: Task
    ghost var at: map<Task, Place>
    ghost var depth: map<Task, nat>

    ghost function View(): State
      reads this
    {
      State(count, locks, lockid, nesting, locker, at, depth)
    }

    constructor (ghost tasks: set<Task>)
      ensures View() == Initial(tasks)
    {
      count, locks, lockid, nesting, locker := 1, 0, NOBODY, 0, 0;
      at := map t | t in tasks :: Outside;
      depth := map t | t in tasks :: 0;
    }

    /** OSSemPend up to the point where the task waits, if it has to. */
    method SemPend(t: Task) returns (blocked: bool)
      requires View().Knows(t)
      modifies this`at, this`count
      ensures View() == Step(old(View()), Pend(t)) && (blocked <==> at[t] == Blocked)
    {
      blocked := false;
      at := at[t := Got];
      if nesting > 0 {
        return;
      }
      if count > 0 {
        count := count - 1;
        return;
      }
      blocked := true;
      at := at[t := Blocked];
    }

    /** The two assignments after the pend, also run by a task that a post has woken. */
    method Claim(t: Task)
      requires View().Knows(t)
      modifies this`at, this`depth, this`locks, this`lockid
      ensures View() == Step(Step(old(View()), Count(t)), Record(t))
    {
      locks := 1;
      lockid := t;
      at, depth := at[t := Counted][t := Outside], depth[t := depth[t] + 1];
    }

    /** __malloc_lock: blocked tells that the call goes on with Claim once a post wakes it. */
    method MallocLock(t: Task) returns (blocked: bool)
      requires View().Knows(t)
      modifies this`at, this`depth, this`locks, this`lockid, this`count
      ensures View() == LockCall(old(View()), t) && (blocked <==> at[t] == Blocked)
    {
      var cnt := count;
      at := at[t := Asked(cnt)];
      if cnt == 0 && t == lockid {
        locks := locks + 1;
        at, depth := at[t := Outside], depth[t := depth[t] + 1];
        return false;
      }
      at := at[t := AtPend];
      blocked := SemPend(t);
      if !blocked {
        Claim(t);
      }
    }

    /** OSSemPost; woken is the waiter of highest priority, if there is one. */
    method SemPost(t: Task, woken: Task, waiters: bool)
      requires View().Knows(t) && (waiters <==> Waiting(View(), woken))
      modifies this`at, this`count
      ensures View() == Step(old(View()), Post(t, woken))
    {
      at := at[t := Outside];
      if waiters {
        at := at[woken := Got];
      } else if count < 65535 {
        count := count + 1;
      }
    }

    /** __malloc_unlock */
    method MallocUnlock(t: Task, woken: Task, waiters: bool)
      requires View().Knows(t) && woken != t && (waiters <==> Waiting(View(), woken))
      modifies this`at, this`depth, this`locks, this`lockid, this`count
      ensures View() == UnlockCall(old(View()), t, woken)
    {
      at, depth := at[t := Outside], depth[t := Less(depth[t])];
      if locks == 0 {
        return;
      }
      locks := locks - 1;
      if locks == 0 {
        lockid := NOBODY;
        at := at[t := Posting];
        SemPost(t, woken, waiters);
      }
    }
  }

  // ---------- the invariant of runs without a refused pend ----------

  function Initial(tasks: set<Task>): State {
    State(1, 0, NOBODY, 0, 0, map t | t in tasks :: Outside, map t | t in tasks :: 0)
  }

  /** A task that has no part of the lock. */
  predicate Idle(s: State, t: Task) {
    s.Knows(t) && s.depth[t] == 0 && (s.at[t].Outside? || s.at[t].Asked? || s.at[t].AtPend? || s.at[t].Blocked?)
  }

  /** The holder's own bookkeeping: before ownership is recorded, while it owns the heap, and
      after it has given it up but not yet posted. */
  predicate Holding(s: State, h: Task) {
    && s.Knows(h)
    && match s.at[h]
       case Got => s.depth[h] == 0 && s.locks == 0 && s.lockid == NOBODY
       case Counted => s.depth[h] == 0 && s.locks == 1 && s.lockid == NOBODY
       case Posting => s.depth[h] == 0 && s.locks == 0 && s.lockid == NOBODY
       case Outside => s.depth[h] == s.locks > 0 && s.lockid == h
       case Asked(count) => count == 0 && s.depth[h] == s.locks > 0 && s.lockid == h
       case _ => false
  }

  /** The semaphore's single unit is either in the count or with one task. */
  predicate HeldBy(s: State, h: Option<Task>) {
    && s.at.Keys == s.depth.Keys
    && (forall t :: t in s.at && Some(t) != h ==> Idle(s, t))
    && (h.None? ==> s.count == 1 && s.locks == 0 && s.lockid == NOBODY && forall t :: t in s.at ==> s.at[t] != Blocked)
    && (h.Some? ==> s.count == 0 && Holding(s, h.value))
    && (s.nesting > 0 ==> s.Knows(s.locker) && s.at[s.locker] != Blocked)
  }

  function NextHolder(s: State, h: Option<Task>, a: Action): Option<Task> {
    match a
    case Pend(t) => if h.None? then Some(t) else h
    case Post(t, woken) => if Waiting(s, woken) then Some(woken) else None
    case _ => h
  }

  /** A step touches its own task and, for a post, the one it wakes. */
  lemma OthersStay(s: State, a: Action, u: Task)
    requires s.Knows(a.t) && u in s.at && u in s.depth && u != a.t && (a.Post? && Waiting(s, a.woken) ==> u != a.woken)
    ensures var s' := Step(s, a); s'.Knows(u) && s'.at[u] == s.at[u] && s'.depth[u] == s.depth[u]
  {
  }

  lemma PostMovesTheUnit(s: State, h: Option<Task>, a: Action)
    requires HeldBy(s, h) && Enabled(s, a) && a.Post?
    ensures HeldBy(Step(s, a), NextHolder(s, h, a))
  {
    var s', h' := Step(s, a), NextHolder(s, h, a);
    assert h == Some(a.t);
    forall u | u in s.at && u != a.t && Some(u) != h' ensures Idle(s', u) && !(h'.None? && s'.at[u] == Blocked) {
      OthersStay(s, a, u);
      assert Idle(s, u) && (Waiting(s, u) ==> Waiting(s, a.woken));
    }
    assert s'.at.Keys == s.at.Keys && s'.depth.Keys == s.depth.Keys;
  }

  lemma OwnStepMovesTheUnit(s: State, h: Option<Task>, a: Action)
    requires HeldBy(s, h) && Enabled(s, a) && !a.Post? && !Refused(s, a)
    ensures var s', h' := Step(s, a), NextHolder(s, h, a);
            && (Some(a.t) != h' ==> Idle(s', a.t))
            && (h'.None? ==> s'.count == 1 && s'.locks == 0 && s'.lockid == NOBODY && s'.at[a.t] != Blocked)
            && (h' == Some(a.t) ==> s'.count == 0 && Holding(s', a.t))
            && (h'.Some? && h' != Some(a.t) ==> s'.count == 0 && Holding(s', h'.value))
  {
    var t := a.t;
    if h == Some(t) {
      assert Holding(s, t);
    } else {
      assert Idle(s, t);
      if h.Some? {
        OthersStay(s, a, h.value);
      }
    }
  }

  /** While the scheduler is locked the task that locked it does not wait. */
  lemma LockerRuns(s: State, a: Action)
    requires Enabled(s, a) && !Refused(s, a)
    requires s.nesting > 0 ==> s.Knows(s.locker) && s.at[s.locker] != Blocked
    ensures var s' := Step(s, a); s'.nesting > 0 ==> s'.Knows(s'.locker) && s'.at[s'.locker] != Blocked
  {
  }

  lemma StepMovesTheUnit(s: State, h: Option<Task>, a: Action)
    requires HeldBy(s, h) && Enabled(s, a) && !Refused(s, a)
    ensures HeldBy(Step(s, a), NextHolder(s, h, a))
  {
    if a.Post? {
      PostMovesTheUnit(s, h, a);
    } else {
      var s', h' := Step(s, a), NextHolder(s, h, a);
      LockerRuns(s, a);
      OwnStepMovesTheUnit(s, h, a);
      OthersStayIdle(s, h, a, s', h');
      SameTasks(s, a);
    }
  }

  lemma SameTasks(s: State, a: Action)
    requires Enabled(s, a)
    ensures Step(s, a).at.Keys == s.at.Keys && Step(s, a).depth.Keys == s.depth.Keys
  {
  }

  lemma OthersStayIdle(s: State, h: Option<Task>, a: Action, s': State, h': Option<Task>)
    requires HeldBy(s, h) && Enabled(s, a) && !a.Post? && s' == Step(s, a) && h' == NextHolder(s, h, a)
    ensures forall u :: u in s.at && u != a.t && Some(u) != h' ==> Idle(s', u) && !(h'.None? && s'.at[u] == Blocked)
  {
    forall u | u in s.at && u != a.t && Some(u) != h' ensures Idle(s', u) && !(h'.None? && s'.at[u] == Blocked) {
      OthersStay(s, a, u);
      assert Idle(s, u);
    }
  }

  // ---------- every run ----------

  ghost predicate CanRun(s: State, acts: seq<Action>)
    decreases |acts|
  {
    acts == [] || (Enabled(s, acts[0]) && CanRun(Step(s, acts[0]), acts[1..]))
  }

  ghost function End(s: State, acts: seq<Action>): State
    requires CanRun(s, acts)
    decreases |acts|
  {
    if acts == [] then s else End(Step(s, acts[0]), acts[1..])
  }

  ghost predicate NeverRefused(s: State, acts: seq<Action>)
    requires CanRun(s, acts)
    decreases |acts|
  {
    acts == [] || (!Refused(s, acts[0]) && NeverRefused(Step(s, acts[0]), acts[1..]))
  }

  ghost predicate AlwaysSafe(s: State, acts: seq<Action>)
    requires CanRun(s, acts)
    decreases |acts|
  {
    Safe(s) && (acts == [] || AlwaysSafe(Step(s, acts[0]), acts[1..]))
  }

  /** The task has the heap: from the pend's return to the post. */
  predicate Has(s: State, t: Task) {
    s.Knows(t) && (s.depth[t] > 0 || s.at[t].Got? || s.at[t].Counted? || s.at[t].Posting?)
  }

  /** What the lock is for: at most one task has the heap, locks is the nesting depth of the
      task lockid names, a task that holds the heap is never waiting for it, and the count is
      zero if someone has the heap and one if nobody has. */
  ghost predicate Safe(s: State) {
    && (forall t, u :: Has(s, t) && Has(s, u) ==> t == u)
    && (forall t :: s.Knows(t) && s.depth[t] > 0 ==> s.lockid == t && s.locks == s.depth[t])
    && (forall t :: s.Knows(t) && s.lockid == t ==> s.depth[t] > 0)
    && (forall t :: s.Knows(t) && s.depth[t] > 0 ==> s.at[t] != Blocked && s.at[t] != AtPend)
    && s.count == if exists t :: Has(s, t) then 0 else 1
  }

  lemma HeldIsSafe(s: State, h: Option<Task>)
    requires HeldBy(s, h)
    ensures Safe(s)
  {
    if h.Some? {
      assert Has(s, h.value);
    }
    forall t: Task | Has(s, t)
      ensures h == Some(t)
    {
      assert Idle(s, t) || h == Some(t);
    }
  }

  /** After a refused pend there is a holder too many, or one beside a unit that is still free. */
  lemma RefusedIsUnsafe(s: State, h: Option<Task>, a: Action)
    requires HeldBy(s, h) && Enabled(s, a) && Refused(s, a)
    ensures !Safe(Step(s, a))
  {
    var s' := Step(s, a);
    assert Has(s', a.t);
    if h.Some? {
      assert h != Some(a.t);
      OthersStay(s, a, h.value);
      assert Has(s', h.value);
    }
  }

  lemma {:induction false} SafeIff(s: State, h: Option<Task>, acts: seq<Action>)
    requires HeldBy(s, h) && CanRun(s, acts)
    ensures AlwaysSafe(s, acts) <==> NeverRefused(s, acts)
    decreases |acts|
  {
    HeldIsSafe(s, h);
    if acts != [] {
      var s' := Step(s, acts[0]);
      if Refused(s, acts[0]) {
        RefusedIsUnsafe(s, h, acts[0]);
        assert !AlwaysSafe(s', acts[1..]);
      } else {
        StepMovesTheUnit(s, h, acts[0]);
        SafeIff(s', NextHolder(s, h, acts[0]), acts[1..]);
      }
    }
  }

  /** Over every run of any tasks in any interleaving the lock is safe at every point if and
      only if OSSemPend never refused to wait because the scheduler was locked. */
  lemma LockIsSafeIffNeverRefused(tasks: set<Task>, acts: seq<Action>)
    requires CanRun(Initial(tasks), acts)
    ensures AlwaysSafe(Initial(tasks), acts) <==> NeverRefused(Initial(tasks), acts)
  {
    SafeIff(Initial(tasks), None, acts);
  }

  lemma {:induction false} RunIsHeld(s: State, h: Option<Task>, acts: seq<Action>) returns (h': Option<Task>)
    requires HeldBy(s, h) && CanRun(s, acts) && NeverRefused(s, acts)
    ensures HeldBy(End(s, acts), h')
    decreases |acts|
  {
    h' := h;
    if acts != [] {
      StepMovesTheUnit(s, h, acts[0]);
      h' := RunIsHeld(Step(s, acts[0]), NextHolder(s, h, acts[0]), acts[1..]);
    }
  }

  /** Reached without a refused pend. */
  ghost predicate Reached(tasks: set<Task>, s: State) {
    exists acts: seq<Action> ::
      CanRun(Initial(tasks), acts) && NeverRefused(Initial(tasks), acts) && s == End(Initial(tasks), acts)
  }

  lemma ReachedIsHeld(tasks: set<Task>, s: State) returns (h: Option<Task>)
    requires Reached(tasks, s)
    ensures HeldBy(s, h)
  {
    var acts: seq<Action> :|
      CanRun(Initial(tasks), acts) && NeverRefused(Initial(tasks), acts) && s == End(Initial(tasks), acts);
    h := RunIsHeld(Initial(tasks), None, acts);
  }

  // ---------- who makes OSSemPend refuse ----------

  /** A lock call with the scheduler locked, by a task that does not own the heap. */
  predicate Careless(s: State, a: Action) {
    a.Query? && s.Knows(a.t) && s.nesting > 0 && s.depth[a.t] == 0
  }

  ghost predicate Careful(s: State, acts: seq<Action>)
    requires CanRun(s, acts)
    decreases |acts|
  {
    acts == [] || (!Careless(s, acts[0]) && Careful(Step(s, acts[0]), acts[1..]))
  }

  /** The task that has locked the scheduler is not on its way to a pend. */
  predicate NotOnItsWay(s: State) {
    s.nesting > 0 ==>
      s.Knows(s.locker) && s.at[s.locker] != AtPend && (s.at[s.locker].Asked? ==> s.depth[s.locker] > 0)
  }

  lemma {:induction false} CarefulRun(s: State, h: Option<Task>, acts: seq<Action>)
    requires HeldBy(s, h) && NotOnItsWay(s) && CanRun(s, acts) && Careful(s, acts)
    ensures NeverRefused(s, acts)
    decreases |acts|
  {
    if acts != [] {
      CarefulStep(s, h, acts[0]);
      StepMovesTheUnit(s, h, acts[0]);
      CarefulRun(Step(s, acts[0]), NextHolder(s, h, acts[0]), acts[1..]);
    }
  }

  lemma CarefulStep(s: State, h: Option<Task>, a: Action)
    requires HeldBy(s, h) && NotOnItsWay(s) && Enabled(s, a) && !Careless(s, a)
    ensures !Refused(s, a) && NotOnItsWay(Step(s, a))
  {
    if h != Some(a.t) {
      assert Idle(s, a.t);
    }
  }

  /** If nobody locks the heap with the scheduler locked unless it owns the heap already, the
      lock is safe throughout. */
  lemma CarefulIsSafe(tasks: set<Task>, acts: seq<Action>)
    requires CanRun(Initial(tasks), acts) && Careful(Initial(tasks), acts)
    ensures AlwaysSafe(Initial(tasks), acts)
  {
    CarefulRun(Initial(tasks), None, acts);
    LockIsSafeIffNeverRefused(tasks, acts);
  }

  /** Any other such call runs into the refusal, whatever state it meets. */
  lemma CarelessIsRefused(tasks: set<Task>, s: State, t: Task)
    requires Reached(tasks, s) && Enabled(s, Query(t)) && Careless(s, Query(t))
    ensures var asked := Step(s, Query(t));
            var checked := Step(asked, Check(t));
            Enabled(asked, Check(t)) && Enabled(checked, Pend(t)) && Refused(checked, Pend(t))
            && !Safe(Step(checked, Pend(t)))
  {
    var h := ReachedIsHeld(tasks, s);
    var asked := Step(s, Query(t));
    StepMovesTheUnit(s, h, Query(t));
    assert h != Some(t);
    assert Idle(s, t);
    StepMovesTheUnit(asked, h, Check(t));
    RefusedIsUnsafe(Step(asked, Check(t)), h, Pend(t));
  }

  // ---------- what a safe lock does ----------

  /** A holder that locks again is recognised and never pends; anyone else never gets past the
      check without a pend. */
  lemma CheckKnowsTheHolder(tasks: set<Task>, s: State, t: Task)
    requires Reached(tasks, s) && Enabled(s, Check(t))
    ensures Step(s, Check(t)).at[t] == AtPend <==> s.depth[t] == 0
    ensures s.depth[t] > 0 ==> Step(s, Check(t)).depth[t] == s.depth[t] + 1 == Step(s, Check(t)).locks
  {
    var h := ReachedIsHeld(tasks, s);
    if h != Some(t) {
      assert Idle(s, t);
    }
  }

  /** No task waits in vain: while anyone is blocked, one task has the heap and its next step
      is enabled, unless another task has locked the scheduler, which is not blocked itself;
      the holder's post hands the heap over without the count becoming visible. */
  lemma BlockedMeansHeld(tasks: set<Task>, s: State, w: Task) returns (h: Task)
    requires Reached(tasks, s) && Waiting(s, w)
    ensures Has(s, h) && s.at[h] != Blocked && h != w
    ensures s.nesting == 0 || s.locker == h ==>
              Enabled(s, Query(h)) || Enabled(s, Check(h)) || Enabled(s, Count(h)) || Enabled(s, Record(h)) || Enabled(s, Post(h, w))
    ensures s.nesting > 0 ==> s.Knows(s.locker) && s.at[s.locker] != Blocked
    ensures Enabled(s, Post(h, w)) ==> Has(Step(s, Post(h, w)), w) && Step(s, Post(h, w)).count == 0
  {
    var held := ReachedIsHeld(tasks, s);
    h := held.value;
  }

  /** A call of __malloc_lock that nothing interrupts gets the free heap, nests for the holder
      and blocks for anyone else; giving back what it got leaves everything as it was. */
  lemma LockCallMeans(tasks: set<Task>, s: State, t: Task, woken: Task)
    requires Reached(tasks, s) && Enabled(s, Query(t)) && (s.nesting == 0 || s.depth[t] > 0) && !Waiting(s, woken)
    ensures var s' := LockCall(s, t);
            if exists u :: u != t && Has(s, u) then s' == s.Move(t, Blocked)
            else s'.depth == s.depth[t := s.depth[t] + 1] && s'.count == 0 && UnlockCall(s', t, woken) == s
  {
    var h := ReachedIsHeld(tasks, s);
    HeldIsSafe(s, h);
    if h.Some? {
      assert Has(s, h.value);
      if h != Some(t) {
        assert Idle(s, t);
        assert s.at[t := Asked(0)][t := AtPend][t := Blocked] == s.at[t := Blocked];
      } else {
        NestsAndUnnests(s, t, woken);
      }
    } else {
      FreeIsTaken(s, t, woken);
    }
  }

  lemma NestsAndUnnests(s: State, t: Task, woken: Task)
    requires HeldBy(s, Some(t)) && s.at[t] == Outside
    ensures LockCall(s, t).depth == s.depth[t := s.depth[t] + 1] && LockCall(s, t).count == 0
    ensures UnlockCall(LockCall(s, t), t, woken) == s
  {
    var s' := UnlockCall(LockCall(s, t), t, woken);
    assert s'.at == s.at && s'.depth == s.depth;
  }

  lemma FreeIsTaken(s: State, t: Task, woken: Task)
    requires HeldBy(s, None) && s.Knows(t) && s.at[t] == Outside && s.nesting == 0 && !Waiting(s, woken)
    ensures LockCall(s, t).depth == s.depth[t := s.depth[t] + 1] && LockCall(s, t).count == 0
    ensures UnlockCall(LockCall(s, t), t, woken) == s
  {
    assert Idle(s, t);
    TakenAndGiven(s, t, woken);
  }

  lemma TakenAndGiven(s: State, t: Task, woken: Task)
    requires s.Knows(t) && s.at[t] == Outside && s.depth[t] == 0 && s.lockid == NOBODY && s.locks == 0
    requires s.nesting == 0 && s.count == 1 && !Waiting(s, woken)
    ensures LockCall(s, t).depth == s.depth[t := s.depth[t] + 1] && LockCall(s, t).count == 0
    ensures UnlockCall(LockCall(s, t), t, woken) == s
  {
    TakesIt(s, t);
    PutsItBack(s, t, woken, 0);
  }

  lemma PutsItBack(s: State, t: Task, woken: Task, count: nat)
    requires s.Knows(t) && s.at[t] == Outside && s.depth[t] == 0 && s.lockid == NOBODY && s.locks == 0
    requires !Waiting(s, woken) && count < 65535
    ensures UnlockCall(s.(depth := s.depth[t := 1], locks := 1, lockid := t, count := count), t, woken) == s.(count := count + 1)
  {
    GivesIt(s.(depth := s.depth[t := 1], locks := 1, lockid := t, count := count), t, woken);
    assert s.depth[t := 1][t := 0] == s.depth;
  }

  /** What a call that does not wait leaves of a heap nobody owns ... */
  lemma TakesIt(s: State, t: Task)
    requires s.Knows(t) && s.at[t] == Outside && s.depth[t] == 0 && s.lockid == NOBODY
    requires s.nesting > 0 || s.count > 0
    ensures LockCall(s, t) == s.(depth := s.depth[t := 1], locks := 1, lockid := t,
                                 count := if s.nesting > 0 then s.count else s.count - 1)
  {
    assert s.at[t := Asked(s.count)][t := AtPend][t := Got][t := Counted][t := Outside] == s.at;
  }

  /** ... and its unlock. */
  lemma GivesIt(s: State, t: Task, woken: Task)
    requires s.Knows(t) && s.at[t] == Outside && s.depth[t] == 1 && s.locks == 1 && !Waiting(s, woken) && s.count < 65535
    ensures UnlockCall(s, t, woken) == s.(depth := s.depth[t := 0], locks := 0, lockid := NOBODY, count := s.count + 1)
  {
    assert s.at[t := Outside][t := Posting][t := Outside] == s.at;
  }

  // ---------- the failing run ----------

  /** A lock and its unlock with the scheduler locked leave one unit too many. */
  lemma RefusedPairAddsAUnit(s: State, t: Task, woken: Task)
    requires HeldBy(s, None) && s.Knows(t) && s.at[t] == Outside && s.nesting > 0 && !Waiting(s, woken)
    ensures UnlockCall(LockCall(s, t), t, woken) == s.(count := s.count + 1)
  {
    assert Idle(s, t);
    TakesIt(s, t);
    PutsItBack(s, t, woken, s.count);
  }

  lemma {:induction false} RunsOn(s: State, a: seq<Action>, b: seq<Action>)
    requires CanRun(s, a) && CanRun(End(s, a), b)
    ensures CanRun(s, a + b) && End(s, a + b) == End(End(s, a), b)
    decreases |a|
  {
    if a == [] {
      assert a + b == b;
    } else {
      assert (a + b)[1..] == a[1..] + b;
      RunsOn(Step(s, a[0]), a[1..], b);
    }
  }

  /** One step as a run. */
  lemma OneStep(s: State, a: Action)
    requires Enabled(s, a)
    ensures CanRun(s, [a]) && End(s, [a]) == Step(s, a)
  {
    assert [a][1..] == [];
  }

  lemma GoesOn(s: State, acts: seq<Action>, a: Action)
    requires CanRun(s, acts) && Enabled(End(s, acts), a)
    ensures CanRun(s, acts + [a]) && End(s, acts + [a]) == Step(End(s, acts), a)
  {
    OneStep(End(s, acts), a);
    RunsOn(s, acts, [a]);
  }

  /** A lock call that neither nests nor blocks is a run. */
  lemma LockCallRuns(s: State, t: Task) returns (acts: seq<Action>)
    requires Enabled(s, Query(t)) && s.lockid != t && (s.nesting > 0 || s.count > 0)
    ensures CanRun(s, acts) && End(s, acts) == LockCall(s, t)
  {
    OneStep(s, Query(t));
    GoesOn(s, [Query(t)], Check(t));
    acts := [Query(t)] + [Check(t)];
    GoesOn(s, acts, Pend(t));
    acts := acts + [Pend(t)];
    GoesOn(s, acts, Count(t));
    acts := acts + [Count(t)];
    GoesOn(s, acts, Record(t));
    acts := acts + [Record(t)];
  }

  lemma UnlockCallRuns(s: State, t: Task, woken: Task) returns (acts: seq<Action>)
    requires Enabled(s, Unlock(t)) && s.locks == 1 && CanWake(Step(s, Unlock(t)), woken)
    ensures CanRun(s, acts) && End(s, acts) == UnlockCall(s, t, woken)
  {
    OneStep(s, Unlock(t));
    GoesOn(s, [Unlock(t)], Post(t, woken));
    acts := [Unlock(t)] + [Post(t, woken)];
  }

  lemma PairRuns(s: State, t: Task) returns (acts: seq<Action>)
    requires Enabled(s, Query(t)) && s.nesting > 0 && HeldBy(s, None)
    ensures CanRun(s, acts) && End(s, acts) == s.(count := s.count + 1)
  {
    assert Idle(s, t);
    TakesIt(s, t);
    var lock := LockCallRuns(s, t);
    var locked := LockCall(s, t);
    NobodyWaits(s, locked, t);
    var unlock := UnlockCallRuns(locked, t, t);
    RunsOn(s, lock, unlock);
    RefusedPairAddsAUnit(s, t, t);
    acts := lock + unlock;
  }

  lemma NobodyWaits(s: State, locked: State, t: Task)
    requires HeldBy(s, None) && s.Knows(t) && locked.Knows(t) && locked.at == s.at && locked.locks == 1
    ensures CanWake(Step(locked, Unlock(t)), t) && !Waiting(s, t)
  {
  }

  /** OSSchedLock, __malloc_lock, __malloc_unlock, OSSchedUnlock by one task. */
  lemma CarelessPairRuns(tasks: set<Task>, t: Task) returns (acts: seq<Action>)
    requires t in tasks
    ensures CanRun(Initial(tasks), acts)
    ensures End(Initial(tasks), acts) == Initial(tasks).(count := 2, locker := t)
  {
    var s0 := Initial(tasks);
    var s1 := Step(s0, SchedLock(t));
    OneStep(s0, SchedLock(t));
    var pair := PairRuns(s1, t);
    acts := [SchedLock(t)] + pair;
    RunsOn(s0, [SchedLock(t)], pair);
    GoesOn(s0, acts, SchedUnlock(t));
    acts := acts + [SchedUnlock(t)];
  }

  /** After such a pair any two tasks can have the heap at the same time. */
  lemma TwoCanHold(tasks: set<Task>, t: Task, u: Task) returns (acts: seq<Action>)
    requires t in tasks && u in tasks && t != u
    ensures CanRun(Initial(tasks), acts)
    ensures var s := End(Initial(tasks), acts); Has(s, t) && Has(s, u) && s.depth[t] == s.depth[u] == 1
  {
    acts := CarelessPairRuns(tasks, t);
    var s := End(Initial(tasks), acts);
    var both := BothLock(s, t, u);
    RunsOn(Initial(tasks), acts, both);
    acts := acts + both;
  }

  lemma BothLock(s: State, t: Task, u: Task) returns (acts: seq<Action>)
    requires Enabled(s, Query(t)) && Enabled(s, Query(u)) && t != u && s.nesting == 0 && s.count == 2
    requires s.lockid == NOBODY && s.depth[t] == s.depth[u] == 0
    ensures CanRun(s, acts) && End(s, acts).Knows(t) && End(s, acts).Knows(u)
    ensures End(s, acts).depth[t] == End(s, acts).depth[u] == 1
  {
    TakesIt(s, t);
    var locked := LockCall(s, t);
    var first := LockCallRuns(s, t);
    SecondLocks(locked, u);
    var second := LockCallRuns(locked, u);
    RunsOn(s, first, second);
    acts := first + second;
  }

  /** The owner is somebody else, but there is a unit left. */
  lemma SecondLocks(s: State, u: Task)
    requires s.Knows(u) && s.at[u] == Outside && s.depth[u] == 0 && s.lockid != u && s.nesting == 0 && s.count > 0
    ensures LockCall(s, u).depth == s.depth[u := 1]
  {
  }
}
