/** What the uC/OS-II critical sections do, stated over plain sets of priorities.  A state holds
    the ready set, each task's pend fields and each event's wait set; an action is one critical
    section (or one task's share of a clock tick).  Class Kernel shows that the bitmap code does
    exactly this; here the actions are run in every order. */
module KernelSpec {
  import opened Options
  import opened PrioBitmap

  type Prio = nat
  type EventId = nat
  /** A void* message; 0 is NULL. */
  type Msg = nat

  /** The flags of OSTCBStat; OS_STAT_RDY is the empty set. */
  datatype Flag = FSem | FMbox | FQ | FSuspend | FMutex | FFlag | FMulti

  const PEND_ANY: set<Flag> := {FSem, FMbox, FQ, FMutex, FFlag}

  datatype PendStat = PendOk | PendTimeout | PendAbort

  /** Event types; Other stands for mutexes, flag groups and unused blocks. */
  datatype Kind = Sem | Mbox | Queue | Other {
    function Mask(): Flag {
      match this
      case Sem => FSem
      case Mbox => FMbox
      case Queue => FQ
      case Other => FMutex
    }
  }

  datatype Task = Task(dly: nat, stat: set<Flag>, statPend: PendStat,
                       eventPtr: Option<EventId>, multi: Option<seq<EventId>>, msg: Msg)
  {
    /** Between the two critical sections of a pend call. */
    predicate InPend() { eventPtr.Some? || multi.Some? }
  }

  const FRESH_TASK := Task(0, {}, PendOk, None, None, 0)

  datatype Event = Event(kind: Kind, count: nat, box: Msg, queue: seq<Msg>, size: nat,
                         waiters: set<Prio>)
  {
    predicate Available() {
      match kind
      case Sem => count > 0
      case Mbox => box != 0
      case Queue => queue != []
      case Other => false
    }

    /** OSSemPost stops at 65535; a mailbox holds one message, a queue OSQSize. */
    predicate Room() {
      match kind
      case Sem => count < 65535
      case Mbox => box == 0
      case Queue => |queue| < size
      case Other => false
    }

    function Put(m: Msg): Event
      requires Room()
    {
      match kind
      case Sem => this.(count := count + 1)
      case Mbox => this.(box := m)
      case Queue => this.(queue := queue + [m])
    }

    /** The message a pend call finds waiting (NULL for a semaphore). */
    function Front(): Msg
      requires Available()
    {
      match kind
      case Sem => 0
      case Mbox => box
      case Queue => queue[0]
    }

    function Taken(): Event
      requires Available()
    {
      match kind
      case Sem => this.(count := count - 1)
      case Mbox => this.(box := 0)
      case Queue => this.(queue := queue[1..])
    }

    /** A message this kind of event can carry. */
    predicate Carries(m: Msg) {
      (kind.Sem? ==> m == 0) && (kind.Mbox? ==> m != 0)
    }
  }

  datatype State = State(idle: Prio, ready: set<Prio>, tasks: map<Prio, Task>, events: seq<Event>)

  ghost function Highest(s: set<Prio>): (p: Prio)
    requires s != {}
    ensures IsMin(p, s)
  {
    HasMin(s);
    var p :| IsMin(p, s);
    p
  }

  lemma {:induction false} HasMin(s: set<nat>)
    requires s != {}
    ensures exists p :: IsMin(p, s)
  {
    var q :| q in s;
    if !IsMin(q, s) {
      var below := set r | r in s && r < q;
      var r :| r in s && r < q;
      assert r in below && q !in below && below <= s;
      HasMin(below);
      var p :| IsMin(p, below);
      forall x | x in s
        ensures p <= x
      {
        assert x < q ==> x in below;
      }
      assert IsMin(p, s);
    }
  }

  // ---------- building blocks ----------

  function AddWaiter(events: seq<Event>, t: Prio, es: seq<EventId>): (r: seq<Event>)
    ensures |r| == |events|
  {
    seq(|events|, i requires 0 <= i < |events| =>
      if i in es then events[i].(waiters := events[i].waiters + {t}) else events[i])
  }

  function DropWaiter(events: seq<Event>, t: Prio, es: seq<EventId>): (r: seq<Event>)
    ensures |r| == |events|
  {
    seq(|events|, i requires 0 <= i < |events| =>
      if i in es then events[i].(waiters := events[i].waiters - {t}) else events[i])
  }

  predicate InRange(n: nat, es: seq<EventId>) {
    forall i :: 0 <= i < |es| ==> es[i] < n
  }

  predicate KnownEvents(s: State, es: seq<EventId>) {
    InRange(|s.events|, es)
  }

  /** Takes one unit from every listed event that has one, in order. */
  function TakeAll(events: seq<Event>, es: seq<EventId>): (r: (seq<Event>, seq<(EventId, Msg)>))
    requires InRange(|events|, es)
    ensures |r.0| == |events|
    decreases |es|
  {
    if es == [] then (events, [])
    else if events[es[0]].Available() then
      var (evs, taken) := TakeAll(events[es[0] := events[es[0]].Taken()], es[1..]);
      (evs, [(es[0], events[es[0]].Front())] + taken)
    else
      TakeAll(events, es[1..])
  }

  function Masks(events: seq<Event>, es: seq<EventId>): (f: set<Flag>)
    requires InRange(|events|, es)
    ensures f <= PEND_ANY
  {
    set e | e in es :: events[e].kind.Mask()
  }

  /** OS_EventTaskRdy: hands the event to its highest-priority waiter. */
  ghost function Rdy(s: State, e: EventId, m: Msg, ps: PendStat): State
    requires e < |s.events| && s.events[e].waiters != {}
    requires Highest(s.events[e].waiters) in s.tasks
  {
    var t := Highest(s.events[e].waiters);
    var task := s.tasks[t];
    var task' := task.(dly := 0, msg := m, stat := task.stat - {s.events[e].kind.Mask()}, statPend := ps,
                       eventPtr := if task.multi.Some? then Some(e) else task.eventPtr);
    var es := if task.multi.Some? then [e] + task.multi.value else [e];
    s.(tasks := s.tasks[t := task'],
       ready := if FSuspend in task.stat then s.ready else s.ready + {t},
       events := DropWaiter(s.events, t, es))
  }

  /** One task's share of OSTimeTick. */
  function TickOne(s: State, t: Prio): State
    requires t in s.tasks
  {
    var task := s.tasks[t];
    if task.dly == 0 then s
    else if task.dly > 1 then s.(tasks := s.tasks[t := task.(dly := task.dly - 1)])
    else
      var task' := if task.stat * PEND_ANY != {}
                   then task.(dly := 0, stat := task.stat - PEND_ANY, statPend := PendTimeout)
                   else task.(dly := 0, statPend := PendOk);
      s.(tasks := s.tasks[t := task'],
         ready := if FSuspend in task.stat then s.ready else s.ready + {t})
  }

  /** A whole OSTimeTick so far as it has visited the tasks in done. */
  ghost function TickSome(s: State, done: set<Prio>): State
    requires done <= s.tasks.Keys
  {
    s.(tasks := map t | t in s.tasks :: if t in done then TickOne(s, t).tasks[t] else s.tasks[t],
       ready := s.ready + set t | t in done && Due(s.tasks[t]))
  }

  /** A tick makes a task ready exactly when its delay runs out and it is not suspended. */
  predicate Due(task: Task) {
    task.dly == 1 && FSuspend !in task.stat
  }

  lemma TickNext(s: State, done: set<Prio>, t: Prio)
    requires done <= s.tasks.Keys && t in s.tasks && t !in done
    ensures TickOne(TickSome(s, done), t) == TickSome(s, done + {t})
  {
    var a, b := TickOne(TickSome(s, done), t), TickSome(s, done + {t});
    assert TickSome(s, done).tasks[t] == s.tasks[t];
    assert a.tasks == b.tasks;
    assert a.ready == b.ready;
  }

  /** The blocking half of OSEventPendMulti's first critical section. */
  function WaitMulti(s: State, t: Prio, es: seq<EventId>, timeout: nat): State
    requires t in s.tasks && KnownEvents(s, es)
  {
    var task := s.tasks[t];
    s.(tasks := s.tasks[t := task.(stat := task.stat + Masks(s.events, es) + {FMulti}, statPend := PendOk,
                                   dly := timeout, eventPtr := None, multi := Some(es))],
       ready := s.ready - {t},
       events := AddWaiter(s.events, t, es))
  }

  /** The blocking half of a single pend (OSSemPend and its siblings with OS_EventTaskWait). */
  function WaitOne(s: State, t: Prio, e: EventId, timeout: nat): State
    requires t in s.tasks && e < |s.events|
  {
    var task := s.tasks[t];
    s.(tasks := s.tasks[t := task.(stat := task.stat + {s.events[e].kind.Mask()}, statPend := PendOk,
                                   dly := timeout, eventPtr := Some(e))],
       ready := s.ready - {t},
       events := AddWaiter(s.events, t, [e]))
  }

  /** What a pend call reports to its caller. */
  datatype Outcome = Received(e: EventId, m: Msg) | Aborted(e: EventId) | TimedOut

  /** The events array and the return count of OSEventPendMulti's second critical section. */
  function OutcomeOf(task: Task): Outcome
    requires task.InPend()
  {
    if task.eventPtr.None? then TimedOut
    else match task.statPend
      case PendOk => Received(task.eventPtr.value, task.msg)
      case PendAbort => Aborted(task.eventPtr.value)
      case PendTimeout => TimedOut
  }

  /** The second critical section of a pend call. */
  function Return(s: State, t: Prio): State
    requires t in s.tasks && s.tasks[t].InPend()
  {
    var task := s.tasks[t];
    var es := if task.multi.Some? then task.multi.value else [task.eventPtr.value];
    s.(tasks := s.tasks[t := task.(stat := {}, statPend := PendOk, eventPtr := None, multi := None, msg := 0)],
       events := if OutcomeOf(task).TimedOut? then DropWaiter(s.events, t, es) else s.events)
  }

  // ---------- actions ----------

  datatype Action =
    | Post(e: EventId, m: Msg)
    | Abort(e: EventId)
    | Tick(t: Prio)
    | PendMulti(t: Prio, es: seq<EventId>, timeout: nat)
    | Pend(t: Prio, e: EventId, timeout: nat)
    | Resume(t: Prio)
    | Delay(t: Prio, ticks: nat)
    | Suspend(t: Prio)
    | Unsuspend(t: Prio)
    | Create(t: Prio)

  /** What callers guarantee: a running task is ready and not inside another pend call; the idle
      task never waits and is never suspended; posted messages fit their kind. */
  predicate Enabled(s: State, a: Action) {
    match a
    case Post(e, m) => e < |s.events| && !s.events[e].kind.Other? && s.events[e].Carries(m)
    case Abort(e) => e < |s.events| && !s.events[e].kind.Other?
    case Tick(t) => t in s.tasks && t != s.idle
    case PendMulti(t, es, timeout) => Runs(s, t) && KnownEvents(s, es) && AllPendable(s, es)
    case Pend(t, e, timeout) => Runs(s, t) && e < |s.events| && !s.events[e].kind.Other?
    case Resume(t) => t in s.ready && t in s.tasks && s.tasks[t].InPend()
    case Delay(t, ticks) => Runs(s, t) && ticks > 0
    case Suspend(t) => t in s.tasks && t != s.idle
    case Unsuspend(t) => t in s.tasks
    case Create(t) => t !in s.tasks
  }

  /** OSEventPendMulti takes semaphores, mailboxes and queues only. */
  predicate AllPendable(s: State, es: seq<EventId>)
    requires KnownEvents(s, es)
  {
    forall i :: 0 <= i < |es| ==> !s.events[es[i]].kind.Other?
  }

  predicate Runs(s: State, t: Prio) {
    t in s.ready && t in s.tasks && t != s.idle && !s.tasks[t].InPend()
  }

  ghost function Apply(s: State, a: Action): State
    requires Inv(s) && Enabled(s, a)
  {
    match a
    case Post(e, m) =>
      assert EventOk(s, e);
      if s.events[e].waiters != {} then Rdy(s, e, m, PendOk)
      else if s.events[e].Room() then s.(events := s.events[e := s.events[e].Put(m)])
      else s
    case Abort(e) =>
      assert EventOk(s, e);
      if s.events[e].waiters != {} then Rdy(s, e, 0, PendAbort) else s
    case Tick(t) => TickOne(s, t)
    case PendMulti(t, es, timeout) =>
      var (evs, taken) := TakeAll(s.events, es);
      if taken != [] then s.(events := evs) else WaitMulti(s, t, es, timeout)
    case Pend(t, e, timeout) =>
      if s.events[e].Available() then s.(events := s.events[e := s.events[e].Taken()])
      else WaitOne(s, t, e, timeout)
    case Resume(t) => Return(s, t)
    case Delay(t, ticks) =>
      s.(ready := s.ready - {t}, tasks := s.tasks[t := s.tasks[t].(dly := ticks)])
    case Suspend(t) =>
      s.(ready := s.ready - {t}, tasks := s.tasks[t := s.tasks[t].(stat := s.tasks[t].stat + {FSuspend})])
    case Unsuspend(t) => Unsuspended(s, t)
    case Create(t) => Created(s, t)
  }

  function Unsuspended(s: State, t: Prio): State
    requires t in s.tasks
  {
    var task := s.tasks[t].(stat := s.tasks[t].stat - {FSuspend});
    if FSuspend !in s.tasks[t].stat then s
    else s.(tasks := s.tasks[t := task],
            ready := if task.stat == {} && task.dly == 0 then s.ready + {t} else s.ready)
  }

  function Created(s: State, t: Prio): State {
    s.(tasks := s.tasks[t := FRESH_TASK], ready := s.ready + {t})
  }

  // ---------- the invariant of every reachable state ----------

  predicate Waits(s: State, t: Prio, e: EventId) {
    e < |s.events| && t in s.events[e].waiters
  }

  predicate InNoWaitList(s: State, t: Prio) {
    forall e :: 0 <= e < |s.events| ==> t !in s.events[e].waiters
  }

  /** A task in OSEventPendMulti: in every listed wait list and no other until something is
      handed to it, then in none. */
  predicate MultiOk(s: State, t: Prio, task: Task) {
    task.multi.Some? ==>
      && KnownEvents(s, task.multi.value) && AllPendable(s, task.multi.value)
      && FMulti in task.stat
      && (task.eventPtr.None? ==>
            forall e :: 0 <= e < |s.events| ==> (t in s.events[e].waiters <==> e in task.multi.value))
      && (task.eventPtr.Some? ==>
            && InNoWaitList(s, t)
            && task.eventPtr.value in task.multi.value
            && task.statPend != PendTimeout
            && (task.statPend == PendOk && s.events[task.eventPtr.value].kind.Sem? ==> task.msg == 0)
            && task.dly == 0)
  }

  /** A task in a single pend waits on that event alone until posted to or aborted; a timed-out
      one keeps its place until it runs again. */
  predicate SingleOk(s: State, t: Prio, task: Task) {
    task.multi.None? && task.eventPtr.Some? ==>
      var e := task.eventPtr.value;
      && e < |s.events|
      && (forall e' :: 0 <= e' < |s.events| && t in s.events[e'].waiters ==> e' == e)
      && (t in s.events[e].waiters && task.statPend != PendTimeout ==>
            t !in s.ready && s.events[e].kind.Mask() in task.stat)
      && (t !in s.events[e].waiters ==> task.statPend != PendTimeout && task.dly == 0)
      && (task.statPend == PendTimeout ==> task.dly == 0)
  }

  predicate TaskOk(s: State, t: Prio)
    requires t in s.tasks
  {
    var task := s.tasks[t];
    && MultiOk(s, t, task)
    && SingleOk(s, t, task)
    && (!task.InPend() ==> InNoWaitList(s, t))
    && (FSuspend in task.stat ==> t !in s.ready)
    && (t in s.ready ==> task.dly == 0)
  }

  predicate EventOk(s: State, e: EventId)
    requires e < |s.events|
  {
    && s.events[e].waiters <= s.tasks.Keys
    && s.idle !in s.events[e].waiters
    && (s.events[e].waiters != {} ==> !s.events[e].Available())
  }

  predicate Inv(s: State) {
    && s.idle in s.tasks && s.idle in s.ready && s.ready <= s.tasks.Keys
    && !s.tasks[s.idle].InPend()
    && (forall t {:trigger TaskOk(s, t)} :: t in s.tasks ==> TaskOk(s, t))
    && (forall e {:trigger EventOk(s, e)} :: 0 <= e < |s.events| ==> EventOk(s, e))
  }

  /** After OSInit: only the idle task, nobody waits. */
  predicate Initial(s: State) {
    && s.tasks == map[s.idle := FRESH_TASK] && s.ready == {s.idle}
    && forall e :: 0 <= e < |s.events| ==> s.events[e].waiters == {}
  }

  lemma InitialKeepsInv(s: State)
    requires Initial(s)
    ensures Inv(s)
  {
  }

  /** A step that moves one task only: its own record, its place in the ready set and in the
      wait sets. */
  lemma OneTaskMoves(s: State, s': State, t: Prio)
    requires Inv(s) && s'.idle == s.idle && t != s.idle
    requires s'.tasks.Keys == s.tasks.Keys + {t} && s'.ready - {t} == s.ready - {t}
    requires forall u :: u in s.tasks && u != t ==> s'.tasks[u] == s.tasks[u]
    requires |s'.events| == |s.events|
    requires forall i :: 0 <= i < |s.events| ==>
               && s'.events[i] == s.events[i].(waiters := s'.events[i].waiters)
               && s'.events[i].waiters - {t} == s.events[i].waiters - {t}
               && (t in s'.events[i].waiters ==> !s.events[i].Available())
    requires TaskOk(s', t)
    ensures Inv(s')
  {
    forall u | u in s'.tasks && u != t
      ensures TaskOk(s', u)
    {
      assert TaskOk(s, u);
      assert forall i :: 0 <= i < |s.events| ==>
        (u in s'.events[i].waiters <==> u in s'.events[i].waiters - {t})
        && (u in s.events[i].waiters <==> u in s.events[i].waiters - {t});
      assert u in s'.ready <==> u in s'.ready - {t};
      assert u in s.ready <==> u in s.ready - {t};
    }
    forall i | 0 <= i < |s'.events|
      ensures EventOk(s', i)
    {
      assert EventOk(s, i);
      forall u | u in s'.events[i].waiters && u != t
        ensures u in s.events[i].waiters
      {
        assert u in s'.events[i].waiters - {t};
      }
      assert s'.events[i].waiters <= s.events[i].waiters + {t};
    }
    assert s.idle in s.ready - {t};
    assert s'.ready <= (s'.ready - {t}) + {t};
  }

  /** A step that only stores or takes units of events nobody waits for. */
  lemma SameWaiters(s: State, s': State)
    requires Inv(s) && s' == s.(events := s'.events) && |s'.events| == |s.events|
    requires forall i :: 0 <= i < |s.events| ==>
               && s'.events[i].kind == s.events[i].kind
               && s'.events[i].waiters == s.events[i].waiters
               && (s.events[i].waiters != {} && !s.events[i].Available() ==> !s'.events[i].Available())
    ensures Inv(s')
  {
    forall t | t in s'.tasks
      ensures TaskOk(s', t)
    {
      assert TaskOk(s, t);
    }
    forall i | 0 <= i < |s'.events|
      ensures EventOk(s', i)
    {
      assert EventOk(s, i);
    }
  }

  lemma RdyKeepsTask(s: State, e: EventId, m: Msg, ps: PendStat, t: Prio)
    requires e < |s.events| && s.events[e].waiters != {} && ps != PendTimeout
    requires t == Highest(s.events[e].waiters) && t in s.tasks && TaskOk(s, t)
    requires s.events[e].kind.Sem? ==> m == 0
    ensures InNoWaitList(Rdy(s, e, m, ps), t) && TaskOk(Rdy(s, e, m, ps), t)
  {
  }

  lemma RdyKeepsInv(s: State, e: EventId, m: Msg, ps: PendStat)
    requires Inv(s) && e < |s.events| && s.events[e].waiters != {} && ps != PendTimeout
    requires EventOk(s, e) && (s.events[e].kind.Sem? ==> m == 0)
    ensures Inv(Rdy(s, e, m, ps))
  {
    var t := Highest(s.events[e].waiters);
    assert TaskOk(s, t);
    RdyKeepsTask(s, e, m, ps, t);
    OneTaskMoves(s, Rdy(s, e, m, ps), t);
  }

  lemma TickKeepsInv(s: State, t: Prio)
    requires Inv(s) && t in s.tasks && t != s.idle
    ensures Inv(TickOne(s, t))
  {
    assert TaskOk(s, t);
    var s' := TickOne(s, t);
    TickKeepsTask(s, t);
    forall i | 0 <= i < |s.events|
      ensures t in s'.events[i].waiters ==> !s.events[i].Available()
    {
      assert EventOk(s, i);
    }
    OneTaskMoves(s, s', t);
  }

  lemma TickKeepsTask(s: State, t: Prio)
    requires t in s.tasks && TaskOk(s, t)
    ensures TaskOk(TickOne(s, t), t)
  {
    var task := s.tasks[t];
    if task.eventPtr.Some? && task.eventPtr.value < |s.events| {
      var mask := s.events[task.eventPtr.value].kind.Mask();
      if mask in task.stat {
        assert mask in task.stat * PEND_ANY;
      }
    }
  }

  lemma UnsuspendKeepsTask(s: State, t: Prio)
    requires Inv(s) && t in s.tasks && FSuspend in s.tasks[t].stat
    ensures TaskOk(Apply(s, Unsuspend(t)), t)
  {
    assert TaskOk(s, t);
    var task := s.tasks[t];
    if task.eventPtr.Some? && task.eventPtr.value < |s.events| {
      var mask := s.events[task.eventPtr.value].kind.Mask();
      assert mask in task.stat ==> mask in task.stat - {FSuspend};
    }
  }

  /** Nothing was taken: nothing was there. */
  lemma {:induction false} TakeAllNothing(events: seq<Event>, es: seq<EventId>)
    requires InRange(|events|, es)
    ensures TakeAll(events, es).1 == [] <==> forall e :: e in es ==> !events[e].Available()
    ensures TakeAll(events, es).1 == [] ==> TakeAll(events, es).0 == events
    decreases |es|
  {
    if es != [] {
      assert es[0] in es;
      assert forall e :: e in es <==> e == es[0] || e in es[1..];
      if !events[es[0]].Available() {
        TakeAllNothing(events, es[1..]);
      }
    }
  }

  /** Taking only lowers what is available; wait sets stay. */
  lemma {:induction false} TakeAllFrame(events: seq<Event>, es: seq<EventId>)
    requires InRange(|events|, es)
    ensures var evs := TakeAll(events, es).0;
            forall i :: 0 <= i < |events| ==>
              evs[i].kind == events[i].kind && evs[i].waiters == events[i].waiters
              && (!events[i].Available() ==> evs[i] == events[i])
    decreases |es|
  {
    if es != [] {
      assert es[0] in es;
      if events[es[0]].Available() {
        TakeAllFrame(events[es[0] := events[es[0]].Taken()], es[1..]);
      } else {
        TakeAllFrame(events, es[1..]);
      }
    }
  }

  lemma WaitMultiKeepsInv(s: State, t: Prio, es: seq<EventId>, timeout: nat)
    requires Inv(s) && Runs(s, t) && KnownEvents(s, es) && AllPendable(s, es)
    requires forall e :: e in es ==> !s.events[e].Available()
    ensures Inv(WaitMulti(s, t, es, timeout))
  {
    assert TaskOk(s, t);
    OneTaskMoves(s, WaitMulti(s, t, es, timeout), t);
  }

  lemma WaitOneKeepsInv(s: State, t: Prio, e: EventId, timeout: nat)
    requires Inv(s) && Runs(s, t) && e < |s.events| && !s.events[e].Available()
    ensures Inv(WaitOne(s, t, e, timeout))
  {
    assert TaskOk(s, t);
    OneTaskMoves(s, WaitOne(s, t, e, timeout), t);
  }

  /** After the second critical section the task is in no wait list at all and its pend fields
      are those of a task just created. */
  lemma ReturnLeavesAll(s: State, t: Prio)
    requires Inv(s) && t in s.tasks && s.tasks[t].InPend() && t in s.ready
    ensures InNoWaitList(Return(s, t), t) && Return(s, t).tasks[t] == FRESH_TASK
  {
    assert TaskOk(s, t);
  }

  lemma ReturnKeepsInv(s: State, t: Prio)
    requires Inv(s) && t in s.tasks && s.tasks[t].InPend() && t in s.ready
    ensures Inv(Return(s, t))
  {
    assert TaskOk(s, t);
    ReturnLeavesAll(s, t);
    OneTaskMoves(s, Return(s, t), t);
  }

  /** A step that leaves the events alone. */
  lemma TaskOnlyKeepsInv(s: State, s': State, t: Prio)
    requires Inv(s) && s'.idle == s.idle && t != s.idle && s'.events == s.events
    requires s'.tasks.Keys == s.tasks.Keys + {t} && s'.ready - {t} == s.ready - {t}
    requires forall u :: u in s.tasks && u != t ==> s'.tasks[u] == s.tasks[u]
    requires TaskOk(s', t)
    ensures Inv(s')
  {
    forall i | 0 <= i < |s.events|
      ensures t in s'.events[i].waiters ==> !s.events[i].Available()
    {
      assert EventOk(s, i);
    }
    OneTaskMoves(s, s', t);
  }

  lemma CreateKeepsInv(s: State, t: Prio)
    requires Inv(s) && t !in s.tasks
    ensures Inv(s.(tasks := s.tasks[t := FRESH_TASK], ready := s.ready + {t}))
  {
    forall e | 0 <= e < |s.events|
      ensures t !in s.events[e].waiters
    {
      assert EventOk(s, e);
    }
    TaskOnlyKeepsInv(s, s.(tasks := s.tasks[t := FRESH_TASK], ready := s.ready + {t}), t);
  }

  lemma StoreKeepsInv(s: State, e: EventId, ev: Event)
    requires Inv(s) && e < |s.events|
    requires ev.kind == s.events[e].kind && ev.waiters == s.events[e].waiters
    requires s.events[e].waiters == {} || s.events[e].Available()
    ensures Inv(s.(events := s.events[e := ev]))
  {
    assert EventOk(s, e);
    SameWaiters(s, s.(events := s.events[e := ev]));
  }

  lemma TakeAllKeepsInv(s: State, es: seq<EventId>)
    requires Inv(s) && KnownEvents(s, es)
    ensures Inv(s.(events := TakeAll(s.events, es).0))
  {
    TakeAllFrame(s.events, es);
    SameWaiters(s, s.(events := TakeAll(s.events, es).0));
  }

  /** Every critical section, in any order, keeps the invariant. */
  lemma StepKeepsInv(s: State, a: Action)
    requires Inv(s) && Enabled(s, a)
    ensures Inv(Apply(s, a))
  {
    match a
    case Post(e, m) =>
      assert EventOk(s, e);
      if s.events[e].waiters != {} {
        RdyKeepsInv(s, e, m, PendOk);
      } else if s.events[e].Room() {
        StoreKeepsInv(s, e, s.events[e].Put(m));
      }
    case Abort(e) =>
      assert EventOk(s, e);
      if s.events[e].waiters != {} {
        RdyKeepsInv(s, e, 0, PendAbort);
      }
    case Tick(t) =>
      TickKeepsInv(s, t);
    case PendMulti(t, es, timeout) =>
      TakeAllNothing(s.events, es);
      if TakeAll(s.events, es).1 != [] {
        TakeAllKeepsInv(s, es);
      } else {
        WaitMultiKeepsInv(s, t, es, timeout);
      }
    case Pend(t, e, timeout) =>
      if s.events[e].Available() {
        StoreKeepsInv(s, e, s.events[e].Taken());
      } else {
        WaitOneKeepsInv(s, t, e, timeout);
      }
    case Resume(t) =>
      ReturnKeepsInv(s, t);
    case Create(t) =>
      CreateKeepsInv(s, t);
    case Unsuspend(t) =>
      assert TaskOk(s, t);
      if FSuspend in s.tasks[t].stat {
        UnsuspendKeepsTask(s, t);
        TaskOnlyKeepsInv(s, Apply(s, a), t);
      }
    case Delay(t, ticks) =>
      assert TaskOk(s, t);
      TaskOnlyKeepsInv(s, Apply(s, a), t);
    case Suspend(t) =>
      assert TaskOk(s, t);
      TaskOnlyKeepsInv(s, Apply(s, a), t);
  }

  // ---------- putting a new state together ----------

  lemma WaiterFacts(s: State, e: EventId)
    requires Inv(s) && e < |s.events| && s.events[e].waiters != {}
    ensures EventOk(s, e)
    ensures var t := Highest(s.events[e].waiters);
            t in s.tasks && (s.tasks[t].multi.Some? ==> KnownEvents(s, s.tasks[t].multi.value))
  {
    assert EventOk(s, e);
    assert TaskOk(s, Highest(s.events[e].waiters));
  }

  /** The control block after OS_EventTaskRdy. */
  function Readied(task: Task, e: EventId, m: Msg, mask: Flag, ps: PendStat): Task {
    Task(0, task.stat - {mask}, ps, if task.multi.Some? then Some(e) else task.eventPtr, task.multi, m)
  }

  lemma RdyIs(s: State, e: EventId, m: Msg, ps: PendStat, s': State)
    requires e < |s.events| && s.events[e].waiters != {} && Highest(s.events[e].waiters) in s.tasks
    requires var t := Highest(s.events[e].waiters); var task := s.tasks[t]; var mask := s.events[e].kind.Mask();
             && s'.idle == s.idle
             && s'.tasks == s.tasks[t := Readied(task, e, m, mask, ps)]
             && s'.ready == (if FSuspend in task.stat - {mask} then s.ready else s.ready + {t})
             && s'.events == DropWaiter(s.events, t, if task.multi.Some? then [e] + task.multi.value else [e])
    ensures s' == Rdy(s, e, m, ps)
  {
  }

  /** The control block after one tick. */
  function Ticked(task: Task): Task {
    if task.dly == 0 then task
    else if task.dly > 1 then task.(dly := task.dly - 1)
    else if task.stat * PEND_ANY != {} then
      task.(dly := 0, stat := task.stat - PEND_ANY, statPend := PendTimeout)
    else task.(dly := 0, statPend := PendOk)
  }

  lemma TickOneIs(s: State, t: Prio, s': State)
    requires t in s.tasks && s'.idle == s.idle && s'.events == s.events
    requires s'.tasks == s.tasks[t := Ticked(s.tasks[t])]
    requires s'.ready == if Due(s.tasks[t]) then s.ready + {t} else s.ready
    ensures s' == TickOne(s, t)
  {
    if s.tasks[t].dly == 0 {
      assert s.tasks[t := s.tasks[t]] == s.tasks;
    }
  }

  lemma TickNone(s: State)
    ensures TickSome(s, {}) == s
  {
    assert TickSome(s, {}).tasks == s.tasks;
    assert TickSome(s, {}).ready == s.ready;
  }

  lemma WaitMultiIs(s: State, t: Prio, es: seq<EventId>, timeout: nat, s': State)
    requires t in s.tasks && KnownEvents(s, es) && s'.idle == s.idle
    requires var task := s.tasks[t];
             s'.tasks == s.tasks[t := Task(timeout, task.stat + Masks(s.events, es) + {FMulti}, PendOk,
                                           None, Some(es), task.msg)]
    requires s'.ready == s.ready - {t} && s'.events == AddWaiter(s.events, t, es)
    ensures s' == WaitMulti(s, t, es, timeout)
  {
  }

  lemma ReturnIs(s: State, t: Prio, s': State)
    requires t in s.tasks && s.tasks[t].multi.Some? && s'.idle == s.idle && s'.ready == s.ready
    requires s'.tasks == s.tasks[t := Task(s.tasks[t].dly, {}, PendOk, None, None, 0)]
    requires s'.events == if OutcomeOf(s.tasks[t]).TimedOut? then DropWaiter(s.events, t, s.tasks[t].multi.value)
                          else s.events
    ensures s' == Return(s, t)
  {
  }

  /** What the second critical section of OSEventPendMulti may rely on. */
  predicate CanReturn(s: State, task: Task, es: seq<EventId>) {
    && KnownEvents(s, es)
    && (task.eventPtr.Some? ==>
          && task.eventPtr.value < |s.events|
          && !s.events[task.eventPtr.value].kind.Other?
          && (task.statPend == PendOk && s.events[task.eventPtr.value].kind.Sem? ==> task.msg == 0))
  }

  lemma ResumeFacts(s: State, t: Prio)
    requires Inv(s) && t in s.tasks && s.tasks[t].multi.Some?
    ensures CanReturn(s, s.tasks[t], s.tasks[t].multi.value)
  {
    assert TaskOk(s, t);
  }

  // ---------- the walk of OSTimeTick ----------

  /** names lists the tasks, each once. */
  predicate NameEach(names: seq<Prio>, tasks: set<Prio>) {
    && (forall i :: 0 <= i < |names| ==> names[i] in tasks)
    && (forall i, j :: 0 <= i < j < |names| ==> names[i] != names[j])
    && (forall t :: t in tasks ==> t in names)
  }

  /** Ticking the tasks from the last name down to position k, not included. */
  function TickFrom(s: State, names: seq<Prio>, k: nat): (r: State)
    requires k < |names|
    ensures r.tasks.Keys == s.tasks.Keys
    decreases |names| - k
  {
    if k == |names| - 1 then s
    else
      var r := TickFrom(s, names, k + 1);
      if names[k + 1] in s.tasks then TickOne(r, names[k + 1]) else r
  }

  function Passed(names: seq<Prio>, k: nat): set<Prio> {
    set j | k < j < |names| :: names[j]
  }

  lemma TickDown(s: State, names: seq<Prio>, k: nat)
    requires 0 < k < |names| && names[k] in s.tasks
    ensures TickFrom(s, names, k - 1) == TickOne(TickFrom(s, names, k), names[k])
  {
  }

  /** One after the other is all at once. */
  lemma {:induction false} TickFromIsTickSome(s: State, names: seq<Prio>, k: nat)
    requires k < |names| && NameEach(names, s.tasks.Keys)
    ensures TickFrom(s, names, k) == TickSome(s, Passed(names, k))
    decreases |names| - k
  {
    if k == |names| - 1 {
      assert Passed(names, k) == {};
      TickNone(s);
    } else {
      TickFromIsTickSome(s, names, k + 1);
      TickNext(s, Passed(names, k + 1), names[k + 1]);
      assert Passed(names, k) == Passed(names, k + 1) + {names[k + 1]};
    }
  }

  /** The whole walk, stopping before the first name: every other task has ticked once. */
  lemma WholeWalk(s: State, names: seq<Prio>)
    requires names != [] && NameEach(names, s.tasks.Keys)
    ensures TickFrom(s, names, 0) == TickSome(s, s.tasks.Keys - {names[0]})
  {
    TickFromIsTickSome(s, names, 0);
    forall t | t in s.tasks && t != names[0]
      ensures t in Passed(names, 0)
    {
      var j :| 0 <= j < |names| && names[j] == t;
    }
    assert Passed(names, 0) == s.tasks.Keys - {names[0]};
  }

  /** The flags, one event after the other. */
  function MaskEach(events: seq<Event>, es: seq<EventId>): set<Flag>
    requires InRange(|events|, es)
  {
    if es == [] then {} else MaskEach(events, es[..|es| - 1]) + {events[es[|es| - 1]].kind.Mask()}
  }

  lemma MaskEachStep(events: seq<Event>, es: seq<EventId>, i: nat)
    requires InRange(|events|, es) && i < |es|
    ensures MaskEach(events, es[..i + 1]) == MaskEach(events, es[..i]) + {events[es[i]].kind.Mask()}
  {
    assert es[..i + 1][..i] == es[..i];
  }

  /** Taking from the events from position i on. */
  lemma TakeAllStep(events: seq<Event>, es: seq<EventId>, i: nat)
    requires InRange(|events|, es) && i < |es|
    ensures var e, rest := es[i], es[i + 1..];
            if events[e].Available() then
              var r := TakeAll(events[e := events[e].Taken()], rest);
              TakeAll(events, es[i..]) == (r.0, [(e, events[e].Front())] + r.1)
            else TakeAll(events, es[i..]) == TakeAll(events, rest)
  {
    assert es[i..][0] == es[i] && es[i..][1..] == es[i + 1..];
  }

  /** Where the loop that takes from every event stands before position i. */
  ghost predicate TakingAt(
    evs: seq<Event>, now: seq<Event>, es: seq<EventId>, i: nat, taken: seq<(EventId, Msg)>, stat: set<Flag>)
  {
    && InRange(|evs|, es) && |now| == |evs| && i <= |es|
    && TakeAll(evs, es).0 == TakeAll(now, es[i..]).0
    && TakeAll(evs, es).1 == taken + TakeAll(now, es[i..]).1
    && (taken == [] ==> stat == MaskEach(now, es[..i]) && now == evs)
  }

  lemma TakingStarts(evs: seq<Event>, es: seq<EventId>)
    requires InRange(|evs|, es)
    ensures TakingAt(evs, evs, es, 0, [], {})
  {
    assert es[0..] == es && es[..0] == [];
  }

  lemma TookOne(
    evs: seq<Event>, now: seq<Event>, es: seq<EventId>, i: nat, taken: seq<(EventId, Msg)>, stat: set<Flag>)
    requires TakingAt(evs, now, es, i, taken, stat) && i < |es| && now[es[i]].Available()
    ensures TakingAt(evs, now[es[i] := now[es[i]].Taken()], es, i + 1, taken + [(es[i], now[es[i]].Front())], stat)
  {
    TakeAllStep(now, es, i);
  }

  lemma PassedOne(
    evs: seq<Event>, now: seq<Event>, es: seq<EventId>, i: nat, taken: seq<(EventId, Msg)>, stat: set<Flag>)
    requires TakingAt(evs, now, es, i, taken, stat) && i < |es| && !now[es[i]].Available()
    ensures TakingAt(evs, now, es, i + 1, taken, stat + {now[es[i]].kind.Mask()})
  {
    TakeAllStep(now, es, i);
    MaskEachStep(now, es, i);
  }

  lemma TakingEnds(evs: seq<Event>, now: seq<Event>, es: seq<EventId>, taken: seq<(EventId, Msg)>, stat: set<Flag>)
    requires TakingAt(evs, now, es, |es|, taken, stat)
    ensures now == TakeAll(evs, es).0 && taken == TakeAll(evs, es).1
    ensures taken == [] ==> stat == MaskEach(now, es)
  {
    assert es[|es|..] == [] && es[..|es|] == es;
  }

  lemma {:induction false} MaskEachIsMasks(events: seq<Event>, es: seq<EventId>)
    requires InRange(|events|, es)
    ensures MaskEach(events, es) == Masks(events, es)
  {
    if es != [] {
      var front, e := es[..|es| - 1], es[|es| - 1];
      MaskEachIsMasks(events, front);
      assert es == front + [e] && e in es;
      assert forall d :: d in es <==> d in front || d == e;
    }
  }

  lemma TwiceIsLast(tasks: map<Prio, Task>, t: Prio, a: Task, b: Task)
    ensures tasks[t := a][t := b] == tasks[t := b]
  {
  }
}
