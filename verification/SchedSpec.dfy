/** The scheduler's nesting counters, over a ready set. */
module SchedSpec {
  import opened PrioBitmap
  import opened KernelSpec

  /** cur is OSPrioCur; intNesting and lockNesting are the two 8-bit nesting counters. */
  datatype Sched = Sched(cur: Prio, ready: set<Prio>, intNesting: nat, lockNesting: nat)

  /** OS_Sched and the tail of OSIntExit: switch only when both counters are zero. */
  ghost function Reschedule(s: Sched): Sched
    requires s.ready != {}
  {
    if s.intNesting == 0 && s.lockNesting == 0 then s.(cur := Highest(s.ready)) else s
  }

  function Enter(s: Sched): Sched {
    if s.intNesting < 255 then s.(intNesting := s.intNesting + 1) else s
  }

  ghost function Exit(s: Sched): Sched
    requires s.ready != {}
  {
    Reschedule(if s.intNesting > 0 then s.(intNesting := s.intNesting - 1) else s)
  }

  function Lock(s: Sched): Sched {
    if s.intNesting == 0 && s.lockNesting < 255 then s.(lockNesting := s.lockNesting + 1) else s
  }

  ghost function Unlock(s: Sched): Sched
    requires s.ready != {}
  {
    if s.lockNesting == 0 then s else Reschedule(s.(lockNesting := s.lockNesting - 1))
  }

  // ---------- runs ----------

  /** The scheduler together with what is really outstanding: ISRs entered and not left, and
      locks taken and not released. */
  datatype System = System(sched: Sched, isrs: nat, locks: nat)

  /** Events that touch the scheduler; MakeReady stands for whatever tasks and ISRs do to the
      ready set. */
  datatype Act = IntEnter | IntExit | SchedLock | SchedUnlock | OSSched | MakeReady(ready: set<Prio>)

  /** Calls come in pairs, and OSSchedLock and OSSchedUnlock from tasks only. */
  predicate CanDo(x: System, a: Act) {
    x.sched.ready != {} &&
    match a
    case IntExit => x.isrs > 0
    case SchedLock => x.isrs == 0
    case SchedUnlock => x.isrs == 0 && x.locks > 0
    case MakeReady(ready) => ready != {}
    case _ => true
  }

  ghost function Do(x: System, a: Act): System
    requires CanDo(x, a)
  {
    match a
    case IntEnter => x.(sched := Enter(x.sched), isrs := x.isrs + 1)
    case IntExit => x.(sched := Exit(x.sched), isrs := x.isrs - 1)
    case SchedLock => x.(sched := Lock(x.sched), locks := x.locks + 1)
    case SchedUnlock => x.(sched := Unlock(x.sched), locks := x.locks - 1)
    case OSSched => x.(sched := Reschedule(x.sched))
    case MakeReady(ready) => x.(sched := x.sched.(ready := ready))
  }

  /** The counters tell the truth. */
  predicate Exact(x: System) {
    x.sched.intNesting == x.isrs && x.sched.lockNesting == x.locks
  }

  predicate Within255(x: System) { x.isrs <= 255 && x.locks <= 255 }

  ghost predicate CanRun(x: System, acts: seq<Act>)
    decreases |acts|
  {
    acts == [] || (CanDo(x, acts[0]) && CanRun(Do(x, acts[0]), acts[1..]))
  }

  /** Every state of a run satisfies p. */
  ghost predicate Always(x: System, acts: seq<Act>, p: System -> bool)
    requires CanRun(x, acts)
    decreases |acts|
  {
    p(x) && (acts == [] || Always(Do(x, acts[0]), acts[1..], p))
  }

  /** In every step of a run: the current task changes only when no ISR and no lock is
      outstanding, and rescheduling with none outstanding installs the highest-priority ready
      task. */
  ghost predicate SwitchesWell(x: System, acts: seq<Act>)
    requires CanRun(x, acts)
    decreases |acts|
  {
    acts == [] ||
    var y := Do(x, acts[0]);
    && (y.sched.cur != x.sched.cur ==> y.isrs == 0 && y.locks == 0)
    && (acts[0] in {OSSched, IntExit, SchedUnlock} && y.isrs == 0 && y.locks == 0 ==>
          IsMin(y.sched.cur, y.sched.ready))
    && SwitchesWell(y, acts[1..])
  }

  lemma StepExact(x: System, a: Act)
    requires CanDo(x, a) && Exact(x)
    ensures Within255(x) && Within255(Do(x, a)) ==> Exact(Do(x, a))
    ensures x.sched.intNesting <= 255 && x.sched.lockNesting <= 255 ==>
              Do(x, a).sched.intNesting <= 255 && Do(x, a).sched.lockNesting <= 255
  {
  }

  /** The counters tell the truth throughout a run exactly when at most 255 ISRs and at most 255
      locks are ever outstanding. */
  lemma {:induction false} CountersExactIffWithin255(x: System, acts: seq<Act>)
    requires CanRun(x, acts) && Exact(x) && Within255(x)
    ensures Always(x, acts, Exact) <==> Always(x, acts, Within255)
    decreases |acts|
  {
    if acts != [] {
      var y := Do(x, acts[0]);
      StepExact(x, acts[0]);
      if Exact(y) && Within255(y) {
        CountersExactIffWithin255(y, acts[1..]);
      }
    }
  }

  /** ... and then every switch is a proper one. */
  lemma {:induction false} RunSwitchesWell(x: System, acts: seq<Act>)
    requires CanRun(x, acts) && Exact(x) && Always(x, acts, Within255)
    ensures SwitchesWell(x, acts)
    decreases |acts|
  {
    if acts != [] {
      StepExact(x, acts[0]);
      RunSwitchesWell(Do(x, acts[0]), acts[1..]);
    }
  }

  ghost function Nest(x: System, n: nat): System
    requires x.sched.ready != {}
    ensures Nest(x, n).sched.ready == x.sched.ready && Nest(x, n).locks == x.locks
  {
    if n == 0 then x else Do(Nest(x, n - 1), IntEnter)
  }

  ghost function Unnest(x: System, n: nat): System
    requires x.sched.ready != {} && n <= x.isrs
    ensures Unnest(x, n).isrs == x.isrs - n && Unnest(x, n).sched.ready == x.sched.ready
  {
    if n == 0 then x else Do(Unnest(x, n - 1), IntExit)
  }

  lemma {:induction false} NestSaturates(x: System, n: nat)
    requires x.sched.intNesting == x.isrs == 0 && x.sched.ready != {}
    ensures var y := Nest(x, n);
            y.isrs == n && y.sched == x.sched.(intNesting := if n <= 255 then n else 255)
  {
    if n > 0 {
      NestSaturates(x, n - 1);
    }
  }

  lemma {:induction false} UnnestCounts(x: System, n: nat)
    requires x.sched.ready != {} && n <= x.sched.intNesting && n <= x.isrs && x.locks == x.sched.lockNesting == 0
    ensures var y := Unnest(x, n);
            && y.sched.intNesting == x.sched.intNesting - n && y.sched.lockNesting == 0
            && (n > 0 && y.sched.intNesting == 0 ==> y.sched.cur == Highest(x.sched.ready))
  {
    if n > 0 {
      UnnestCounts(x, n - 1);
    }
  }

  /** Nesting deeper than 255 does break it: after n > 255 entries and 255 exits the counter is
      zero and the task is switched while n - 255 ISRs are still outstanding. */
  lemma DeepNestingSwitchesEarly(x: System, n: nat)
    requires x.sched.intNesting == x.isrs == 0 && x.locks == x.sched.lockNesting == 0 && x.sched.ready != {}
    requires n > 255
    ensures Nest(x, n).isrs == n && Nest(x, n).sched.ready == x.sched.ready
    ensures var y := Unnest(Nest(x, n), 255);
            y.isrs == n - 255 > 0 && y.sched.cur == Highest(x.sched.ready)
  {
    NestSaturates(x, n);
    UnnestCounts(Nest(x, n), 255);
  }
}
