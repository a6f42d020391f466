/** Whole runs of the kernel's critical sections: posts, aborts, ticks, pends, suspensions and
    task creation in any order. */
module KernelRuns {
  import opened Options
  import opened PrioBitmap
  import opened KernelSpec

  ghost predicate Legal(s: State, acts: seq<Action>)
    decreases |acts|
  {
    Inv(s) && (acts == [] || (Enabled(s, acts[0]) && Legal(Apply(s, acts[0]), acts[1..])))
  }

  ghost function Run(s: State, acts: seq<Action>): State
    requires Legal(s, acts)
    decreases |acts|
  {
    if acts == [] then s else Run(Apply(s, acts[0]), acts[1..])
  }

  /** A run is legal as soon as each of its steps is enabled: the invariant looks after itself. */
  lemma RunKeepsInv(s: State, acts: seq<Action>, a: Action)
    requires Legal(s, acts)
    requires Enabled(Run(s, acts), a)
    ensures Inv(Run(s, acts)) && Legal(s, acts + [a])
    ensures Run(s, acts + [a]) == Apply(Run(s, acts), a)
    decreases |acts|
  {
    if acts == [] {
      StepKeepsInv(s, a);
    } else {
      RunKeepsInv(Apply(s, acts[0]), acts[1..], a);
      assert (acts + [a])[1..] == acts[1..] + [a];
    }
  }

  ghost predicate Reaches(s: State, acts: seq<Action>, s': State) {
    Legal(s, acts) && Run(s, acts) == s'
  }

  lemma {:induction false} ReachedInv(s: State, acts: seq<Action>, s': State)
    requires Reaches(s, acts, s')
    ensures Inv(s')
    decreases |acts|
  {
    if acts != [] {
      ReachedInv(Apply(s, acts[0]), acts[1..], s');
    }
  }

  // ---------- ticks among other steps ----------

  /** The tasks a run ticks, in order. */
  function TicksOf(acts: seq<Action>): seq<Prio>
    decreases |acts|
  {
    if acts == [] then []
    else TicksOf(acts[..|acts| - 1]) + (if acts[|acts| - 1].Tick? then [acts[|acts| - 1].t] else [])
  }

  lemma TicksConcat(acts: seq<Action>, a: Action)
    ensures TicksOf(acts + [a]) == TicksOf(acts) + (if a.Tick? then [a.t] else [])
  {
    assert (acts + [a])[..|acts|] == acts;
  }

  /** The names from the last down to position k, not included. */
  function Down(names: seq<Prio>, k: nat): seq<Prio>
    requires k < |names|
    decreases |names| - k
  {
    if k == |names| - 1 then [] else Down(names, k + 1) + [names[k + 1]]
  }

  lemma {:induction false} DownHasEach(names: seq<Prio>, k: nat, t: Prio)
    requires k < |names| && forall i, j :: 0 <= i < j < |names| ==> names[i] != names[j]
    ensures multiset(Down(names, k))[t] == B(t in names[k + 1..])
    decreases |names| - k
  {
    if k < |names| - 1 {
      DownHasEach(names, k + 1, t);
      assert names[k + 1..] == [names[k + 1]] + names[k + 2..];
    }
  }

  lemma {:induction false} TicksCounted(acts: seq<Action>, t: Prio)
    ensures multiset(TicksOf(acts))[t] == multiset(acts)[Tick(t)]
    decreases |acts|
  {
    if acts != [] {
      var front, a := acts[..|acts| - 1], acts[|acts| - 1];
      TicksCounted(front, t);
      assert acts == front + [a];
    }
  }

  /** The step is not about t, and hands nothing to it. */
  predicate Spares(s: State, a: Action, t: Prio)
    requires Enabled(s, a)
  {
    match a
    case Post(e, _) => t !in s.events[e].waiters
    case Abort(e) => t !in s.events[e].waiters
    case _ => a.t != t
  }

  lemma SparedStays(s: State, a: Action, t: Prio)
    requires Inv(s) && Enabled(s, a) && Spares(s, a, t) && t in s.tasks
    ensures var s' := Apply(s, a);
            t in s'.tasks && s'.tasks[t] == s.tasks[t] && (t in s'.ready <==> t in s.ready)
  {
    match a
    case Post(e, m) => assert EventOk(s, e);
    case Abort(e) => assert EventOk(s, e);
    case _ =>
  }

  /** Every step of the run ticks t or spares it. */
  ghost predicate OnlyTicked(s: State, acts: seq<Action>, t: Prio)
    requires Legal(s, acts)
    decreases |acts|
  {
    acts == [] ||
    ((acts[0] == Tick(t) || Spares(s, acts[0], t)) && OnlyTicked(Apply(s, acts[0]), acts[1..], t))
  }

  lemma {:induction false} NeverTicked(s: State, acts: seq<Action>, t: Prio)
    requires Legal(s, acts) && OnlyTicked(s, acts, t) && t in s.tasks && multiset(acts)[Tick(t)] == 0
    ensures var s' := Run(s, acts);
            t in s'.tasks && s'.tasks[t] == s.tasks[t] && (t in s'.ready <==> t in s.ready)
    decreases |acts|
  {
    if acts != [] {
      assert acts == [acts[0]] + acts[1..];
      SparedStays(s, acts[0], t);
      NeverTicked(Apply(s, acts[0]), acts[1..], t);
    }
  }

  lemma {:induction false} TickedOnce(s: State, acts: seq<Action>, t: Prio)
    requires Legal(s, acts) && OnlyTicked(s, acts, t) && t in s.tasks && multiset(acts)[Tick(t)] == 1
    ensures var s' := Run(s, acts);
            t in s'.tasks && s'.tasks[t] == Ticked(s.tasks[t]) && (t in s'.ready <==> t in s.ready || Due(s.tasks[t]))
    decreases |acts|
  {
    if acts != [] {
      assert acts == [acts[0]] + acts[1..];
      if acts[0] == Tick(t) {
        NeverTicked(Apply(s, acts[0]), acts[1..], t);
      } else {
        SparedStays(s, acts[0], t);
        TickedOnce(Apply(s, acts[0]), acts[1..], t);
      }
    }
  }

  /** A clock tick whose walk passed these names, whatever came between its turns: every task on
      the list but its tail that nothing else touched meanwhile has lost exactly one tick of its
      delay, and has become ready exactly when that was its last and it is not suspended. */
  lemma WalkTicksOnce(s: State, acts: seq<Action>, names: seq<Prio>, t: Prio)
    requires Legal(s, acts) && OnlyTicked(s, acts, t) && t in s.tasks
    requires names != [] && TicksOf(acts) == Down(names, 0) && t in names[1..]
    requires forall i, j :: 0 <= i < j < |names| ==> names[i] != names[j]
    ensures var s' := Run(s, acts);
            t in s'.tasks && s'.tasks[t] == Ticked(s.tasks[t]) && (t in s'.ready <==> t in s.ready || Due(s.tasks[t]))
  {
    DownHasEach(names, 0, t);
    TicksCounted(acts, t);
    TickedOnce(s, acts, t);
  }

  // ---------- one outcome per pend ----------

  /** What a step hands to a waiting task. */
  datatype Delivery = Handed(e: EventId, m: Msg) | Cut(e: EventId)

  ghost function Gets(s: State, a: Action, t: Prio): seq<Delivery>
    requires Enabled(s, a)
  {
    match a
    case Post(e, m) => if s.events[e].waiters != {} && Highest(s.events[e].waiters) == t then [Handed(e, m)] else []
    case Abort(e) => if s.events[e].waiters != {} && Highest(s.events[e].waiters) == t then [Cut(e)] else []
    case _ => []
  }

  ghost function Deliveries(s: State, acts: seq<Action>, t: Prio): seq<Delivery>
    requires Legal(s, acts)
    decreases |acts|
  {
    if acts == [] then [] else Gets(s, acts[0], t) + Deliveries(Apply(s, acts[0]), acts[1..], t)
  }

  /** The pend fields a delivery leaves behind. */
  predicate Shows(task: Task, d: Delivery) {
    && task.eventPtr == Some(d.e)
    && match d
       case Handed(e, m) => task.statPend == PendOk && task.msg == m
       case Cut(e) => task.statPend == PendAbort
  }

  lemma StepOnBlocked(s: State, a: Action, t: Prio)
    requires Inv(s) && Enabled(s, a) && a != Resume(t)
    requires t in s.tasks && s.tasks[t].multi.Some?
    ensures var s' := Apply(s, a);
            && t in s'.tasks && s'.tasks[t].multi == s.tasks[t].multi
            && (s.tasks[t].eventPtr.Some? ==>
                  && Gets(s, a, t) == []
                  && s'.tasks[t] == s.tasks[t].(stat := s'.tasks[t].stat))
            && (s.tasks[t].eventPtr.None? && Gets(s, a, t) == [] ==> s'.tasks[t].eventPtr.None?)
            && (Gets(s, a, t) != [] ==>
                  Shows(s'.tasks[t], Gets(s, a, t)[0]) && Gets(s, a, t)[0].e in s.tasks[t].multi.value)
  {
    assert TaskOk(s, t);
  }

  /** While a task is blocked in OSEventPendMulti at most one thing is handed to it, and its
      control block shows that thing. */
  lemma {:induction false} BlockedRun(s: State, acts: seq<Action>, t: Prio)
    requires Legal(s, acts) && Resume(t) !in acts
    requires t in s.tasks && s.tasks[t].multi.Some?
    ensures var s' := Run(s, acts);
            var got := Deliveries(s, acts, t);
            && Inv(s') && t in s'.tasks && s'.tasks[t].multi == s.tasks[t].multi
            && (s.tasks[t].eventPtr.Some? ==>
                  got == [] && s'.tasks[t] == s.tasks[t].(stat := s'.tasks[t].stat))
            && (s.tasks[t].eventPtr.None? ==>
                  && |got| <= 1
                  && (got == [] ==> s'.tasks[t].eventPtr.None?)
                  && (got != [] ==> Shows(s'.tasks[t], got[0]) && got[0].e in s.tasks[t].multi.value))
    decreases |acts|
  {
    if acts != [] {
      assert acts[0] in acts;
      StepOnBlocked(s, acts[0], t);
      BlockedRun(Apply(s, acts[0]), acts[1..], t);
    }
  }

  /** The pend call's report says exactly what was handed over: nothing means a timeout. */
  predicate Reports(o: Outcome, got: seq<Delivery>) {
    if got == [] then o == TimedOut
    else |got| == 1 && o == (match got[0] case Handed(e, m) => Received(e, m) case Cut(e) => Aborted(e))
  }

  /** The single outcome of a blocking OSEventPendMulti (t waits on es, nothing handed over yet), over every run of everyone else's
      critical sections between its two halves: what was handed over, whether or not the
      timeout fired before; an abort; or a timeout when nothing was handed over.  Afterwards
      the task is in no event's wait list. */
  lemma PendMultiHasOneOutcome(s1: State, t: Prio, es: seq<EventId>, acts: seq<Action>, s2: State)
    requires Legal(s1, acts) && Resume(t) !in acts && s2 == Run(s1, acts)
    requires t in s1.tasks && s1.tasks[t].multi == Some(es) && s1.tasks[t].eventPtr == None
    requires t in s2.tasks && t in s2.ready
    ensures Inv(s2) && s2.tasks[t].InPend()
    ensures Reports(OutcomeOf(s2.tasks[t]), Deliveries(s1, acts, t))
    ensures Deliveries(s1, acts, t) != [] ==> Deliveries(s1, acts, t)[0].e in es
    ensures InNoWaitList(Return(s2, t), t) && Return(s2, t).tasks[t] == FRESH_TASK
  {
    ghost var got := Deliveries(s1, acts, t);
    assert Inv(s2) && s2.tasks[t].InPend() && Reports(OutcomeOf(s2.tasks[t]), got)
           && (got != [] ==> got[0].e in es) by {
      BlockedRun(s1, acts, t);
      ReportsWhatItShows(s2.tasks[t], got);
    }
    ReturnLeavesAll(s2, t);
  }

  /** The state such a run starts from: the call found nothing available. */
  lemma PendMultiBlocks(s: State, t: Prio, es: seq<EventId>, timeout: nat)
    requires Inv(s) && Enabled(s, PendMulti(t, es, timeout))
    ensures var s1 := Apply(s, PendMulti(t, es, timeout));
            if exists e :: e in es && s.events[e].Available()
            then s1 == s.(events := s1.events) && TakeAll(s.events, es).1 != []
            else s1.tasks[t].multi == Some(es) && s1.tasks[t].eventPtr == None && t !in s1.ready
                 && forall e :: e in es ==> t in s1.events[e].waiters
  {
    TakeAllNothing(s.events, es);
  }

  lemma ReportsWhatItShows(task: Task, got: seq<Delivery>)
    requires task.InPend() && |got| <= 1
    requires got == [] ==> task.eventPtr.None?
    requires got != [] ==> Shows(task, got[0])
    ensures Reports(OutcomeOf(task), got)
  {
  }

  // ---------- suspension and the multi-pend ----------

  /** Out of the ready list, with no timeout left to bring the task back. */
  predicate Stranded(s: State, t: Prio) {
    t in s.tasks && s.tasks[t].multi.Some? && t !in s.ready && s.tasks[t].dly == 0
  }

  lemma StepKeepsStranded(s: State, a: Action, t: Prio)
    requires Inv(s) && Enabled(s, a) && Stranded(s, t) && Gets(s, a, t) == []
    ensures Stranded(Apply(s, a), t)
  {
    assert TaskOk(s, t);
    if a == Unsuspend(t) {
      assert FMulti in s.tasks[t].stat - {FSuspend};
    }
  }

  /** OSTaskResume cannot wake such a task: OS_STAT_MULTI stays in its status. */
  lemma {:induction false} StrandedUntilHanded(s: State, acts: seq<Action>, t: Prio)
    requires Legal(s, acts) && Stranded(s, t) && Deliveries(s, acts, t) == []
    ensures Stranded(Run(s, acts), t)
    decreases |acts|
  {
    if acts != [] {
      StepKeepsStranded(s, acts[0], t);
      StrandedUntilHanded(Apply(s, acts[0]), acts[1..], t);
    }
  }

  /** Something handed to a multi-pending task wakes it if and only if the task is not
      suspended at that moment; otherwise it never runs again, whatever happens, and what was
      handed to it is lost with it. */
  lemma HandoverWakesIffNotSuspended(s: State, a: Action, t: Prio)
    requires Inv(s) && Enabled(s, a) && Gets(s, a, t) != []
    requires t in s.tasks && s.tasks[t].multi.Some?
    ensures FSuspend !in s.tasks[t].stat <==> t in Apply(s, a).ready
    ensures FSuspend in s.tasks[t].stat ==>
              forall acts :: Legal(Apply(s, a), acts) ==> Stranded(Run(Apply(s, a), acts), t) && Resume(t) !in acts
  {
    assert TaskOk(s, t);
    var s' := Apply(s, a);
    StepKeepsInv(s, a);
    if FSuspend in s.tasks[t].stat {
      forall acts | Legal(s', acts)
        ensures Stranded(Run(s', acts), t) && Resume(t) !in acts
      {
        NeverAgain(s', acts, t);
      }
    }
  }

  /** The same fate for one suspended after it was woken and before it ran. */
  lemma SuspendLosesTheWoken(s: State, t: Prio, acts: seq<Action>)
    requires Inv(s) && Enabled(s, Suspend(t))
    requires s.tasks[t].multi.Some? && s.tasks[t].eventPtr.Some?
    requires Legal(Apply(s, Suspend(t)), acts)
    ensures Stranded(Run(Apply(s, Suspend(t)), acts), t) && Resume(t) !in acts
  {
    assert TaskOk(s, t);
    NeverAgain(Apply(s, Suspend(t)), acts, t);
  }

  lemma {:induction false} NeverAgain(s: State, acts: seq<Action>, t: Prio)
    requires Legal(s, acts) && Stranded(s, t) && s.tasks[t].eventPtr.Some?
    ensures Stranded(Run(s, acts), t) && Resume(t) !in acts
    decreases |acts|
  {
    if acts != [] {
      assert acts[0] != Resume(t);
      StepOnBlocked(s, acts[0], t);
      StepKeepsStranded(s, acts[0], t);
      NeverAgain(Apply(s, acts[0]), acts[1..], t);
    }
  }

  /** A multi-pending task that has been handed something and is ready. */
  predicate HandedAndReady(s: State, t: Prio) {
    t in s.tasks && s.tasks[t].multi.Some? && s.tasks[t].eventPtr.Some? && t in s.ready
  }

  lemma StepKeepsReady(s: State, a: Action, t: Prio)
    requires Inv(s) && Enabled(s, a) && HandedAndReady(s, t) && a != Resume(t)
    ensures if a == Suspend(t) then Stranded(Apply(s, a), t) else HandedAndReady(Apply(s, a), t)
    ensures Apply(s, a).tasks[t].eventPtr.Some?
  {
    assert TaskOk(s, t);
    StepOnBlocked(s, a, t);
  }

  /** Such a task is able to resume as long as nobody suspends it. */
  lemma {:induction false} ReadyUntilSuspended(s: State, acts: seq<Action>, t: Prio)
    requires Legal(s, acts) && HandedAndReady(s, t) && Resume(t) !in acts
    ensures Enabled(Run(s, acts), Resume(t)) <==> Suspend(t) !in acts
    decreases |acts|
  {
    if acts != [] {
      assert acts[0] in acts;
      assert forall a :: a in acts <==> a == acts[0] || a in acts[1..];
      StepKeepsReady(s, acts[0], t);
      if acts[0] == Suspend(t) {
        NeverAgain(Apply(s, acts[0]), acts[1..], t);
      } else {
        ReadyUntilSuspended(Apply(s, acts[0]), acts[1..], t);
      }
    }
  }

  /** What is handed to a multi-pending task reaches it exactly when the task is not suspended
      at that moment and not suspended before it runs: over every continuation in which it has
      not run yet, it is able to resume if and only if that is so. */
  lemma HandoverReachesIffNeverSuspended(s: State, a: Action, t: Prio, acts: seq<Action>)
    requires Inv(s) && Enabled(s, a) && Gets(s, a, t) != []
    requires t in s.tasks && s.tasks[t].multi.Some?
    requires Legal(Apply(s, a), acts) && Resume(t) !in acts
    ensures Enabled(Run(Apply(s, a), acts), Resume(t)) <==> FSuspend !in s.tasks[t].stat && Suspend(t) !in acts
  {
    HandoverLeaves(s, a, t);
    if FSuspend in s.tasks[t].stat {
      NeverAgain(Apply(s, a), acts, t);
      NotAble(Run(Apply(s, a), acts), t);
    } else {
      ReadyUntilSuspended(Apply(s, a), acts, t);
    }
  }

  lemma HandoverLeaves(s: State, a: Action, t: Prio)
    requires Inv(s) && Enabled(s, a) && Gets(s, a, t) != []
    requires t in s.tasks && s.tasks[t].multi.Some?
    ensures var s' := Apply(s, a);
            && (if FSuspend in s.tasks[t].stat then Stranded(s', t) else HandedAndReady(s', t))
            && s'.tasks[t].eventPtr.Some?
  {
    assert TaskOk(s, t);
    StepOnBlocked(s, a, t);
  }

  lemma NotAble(s: State, t: Prio)
    requires Stranded(s, t)
    ensures !Enabled(s, Resume(t))
  {
  }

  // ---------- conservation of messages ----------

  /** How many units (e, m) an event stores. */
  function Stored(ev: Event, m: Msg): nat {
    match ev.kind
    case Sem => if m == 0 then ev.count else 0
    case Mbox => if ev.box == m && m != 0 then 1 else 0
    case Queue => multiset(ev.queue)[m]
    case Other => 0
  }

  /** Handed over, and not yet returned by the pend call. */
  predicate Holds(s: State, t: Prio, e: EventId, m: Msg) {
    && t in s.tasks && e < |s.events|
    && s.tasks[t].eventPtr == Some(e) && t !in s.events[e].waiters
    && s.tasks[t].statPend == PendOk && s.tasks[t].msg == m
  }

  function Holders(s: State, e: EventId, m: Msg): set<Prio> {
    set t | t in s.tasks && Holds(s, t, e, m)
  }

  function B(b: bool): nat { if b then 1 else 0 }

  /** Units accepted by a step's post. */
  function Accepted(s: State, a: Action, e: EventId, m: Msg): nat {
    B(a == Post(e, m) && e < |s.events| && (s.events[e].waiters != {} || s.events[e].Room()))
  }

  /** Units a step returns to a caller. */
  function Returned(s: State, a: Action, e: EventId, m: Msg): nat
    requires Enabled(s, a)
  {
    match a
    case Resume(t) => B(OutcomeOf(s.tasks[t]) == Received(e, m))
    case PendMulti(t, es, _) => multiset(TakeAll(s.events, es).1)[(e, m)]
    case Pend(t, e', _) => B(e' == e && s.events[e].Available() && s.events[e].Front() == m)
    case _ => 0
  }

  function Units(s: State, e: EventId, m: Msg): nat
    requires e < |s.events|
  {
    Stored(s.events[e], m) + |Holders(s, e, m)|
  }

  lemma CardinalityMove(h: set<Prio>, h': set<Prio>, t: Prio)
    requires h - {t} == h' - {t}
    ensures |h'| + B(t in h) == |h| + B(t in h')
  {
    var rest := h - {t};
    assert t in h ==> h == rest + {t};
    assert t in h' ==> h' == rest + {t};
    assert t !in h ==> h == rest;
    assert t !in h' ==> h' == rest;
  }

  lemma HoldersMove(s: State, s': State, t: Prio, e: EventId, m: Msg)
    requires forall u :: u != t ==> (Holds(s, u, e, m) <==> Holds(s', u, e, m))
    ensures |Holders(s', e, m)| + B(Holds(s, t, e, m)) == |Holders(s, e, m)| + B(Holds(s', t, e, m))
  {
    forall u
      ensures u in Holders(s, e, m) <==> Holds(s, u, e, m)
      ensures u in Holders(s', e, m) <==> Holds(s', u, e, m)
    {
    }
    CardinalityMove(Holders(s, e, m), Holders(s', e, m), t);
  }

  lemma WaitersStoreNothing(ev: Event, w: set<Prio>, m: Msg)
    ensures Stored(ev.(waiters := w), m) == Stored(ev, m)
  {
  }

  /** A step that moves one task only changes the units by what that task holds. */
  lemma OneTaskUnits(s: State, s': State, t: Prio, e: EventId, m: Msg)
    requires |s'.events| == |s.events| && e < |s.events|
    requires forall u :: u != t ==> (u in s'.tasks <==> u in s.tasks)
    requires forall u :: u != t && u in s.tasks ==> s'.tasks[u] == s.tasks[u]
    requires s'.events[e] == s.events[e].(waiters := s'.events[e].waiters)
    requires s'.events[e].waiters - {t} == s.events[e].waiters - {t}
    ensures Units(s', e, m) + B(Holds(s, t, e, m)) == Units(s, e, m) + B(Holds(s', t, e, m))
  {
    WaitersStoreNothing(s.events[e], s'.events[e].waiters, m);
    forall u | u != t
      ensures Holds(s, u, e, m) <==> Holds(s', u, e, m)
    {
      assert u in s.events[e].waiters <==> u in s.events[e].waiters - {t};
      assert u in s'.events[e].waiters <==> u in s'.events[e].waiters - {t};
    }
    HoldersMove(s, s', t, e, m);
  }

  lemma PutStoresOne(ev: Event, m: Msg, k: Msg)
    requires ev.Room() && ev.Carries(m)
    ensures Stored(ev.Put(m), k) == Stored(ev, k) + B(k == m)
  {
  }

  lemma TakenRemovesOne(ev: Event, k: Msg)
    requires ev.Available()
    ensures Stored(ev, k) == Stored(ev.Taken(), k) + B(k == ev.Front())
  {
    if ev.kind.Queue? {
      assert ev.queue == [ev.queue[0]] + ev.queue[1..];
    }
  }

  lemma {:induction false} TakeAllConserves(events: seq<Event>, es: seq<EventId>, e: EventId, m: Msg)
    requires InRange(|events|, es) && e < |events|
    ensures var (evs, taken) := TakeAll(events, es);
            Stored(events[e], m) == Stored(evs[e], m) + multiset(taken)[(e, m)]
    decreases |es|
  {
    if es != [] {
      if events[es[0]].Available() {
        TakenRemovesOne(events[es[0]], m);
        var events1 := events[es[0] := events[es[0]].Taken()];
        TakeAllConserves(events1, es[1..], e, m);
        var rest := TakeAll(events1, es[1..]).1;
        assert TakeAll(events, es).1 == [(es[0], events[es[0]].Front())] + rest;
      } else {
        TakeAllConserves(events, es[1..], e, m);
      }
    }
  }

  lemma RdyConserves(s: State, e': EventId, k: Msg, ps: PendStat, e: EventId, m: Msg)
    requires Inv(s) && e' < |s.events| && e < |s.events| && s.events[e'].waiters != {} && EventOk(s, e')
    requires ps != PendTimeout
    ensures Units(Rdy(s, e', k, ps), e, m) == Units(s, e, m) + B(ps == PendOk && e == e' && m == k)
  {
    var t := Highest(s.events[e'].waiters);
    var s' := Rdy(s, e', k, ps);
    OneTaskUnits(s, s', t, e, m);
    WaiterHoldsNothing(s, t, e', e, m);
    assert s'.tasks[t].eventPtr == Some(e') by { assert TaskOk(s, t); }
  }

  /** A task in some wait list has nothing handed to it. */
  lemma WaiterHoldsNothing(s: State, t: Prio, e': EventId, e: EventId, m: Msg)
    requires t in s.tasks && TaskOk(s, t) && Waits(s, t, e')
    ensures !Holds(s, t, e, m)
  {
  }

  lemma RunnerHoldsNothing(s: State, t: Prio, e: EventId, m: Msg)
    requires Runs(s, t)
    ensures !Holds(s, t, e, m)
  {
  }

  lemma PostConserves(s: State, e': EventId, k: Msg, e: EventId, m: Msg)
    requires Inv(s) && Enabled(s, Post(e', k)) && e < |s.events|
    ensures Units(s, e, m) + Accepted(s, Post(e', k), e, m) == Units(Apply(s, Post(e', k)), e, m)
  {
    assert EventOk(s, e');
    if s.events[e'].waiters != {} {
      RdyConserves(s, e', k, PendOk, e, m);
    } else {
      if s.events[e'].Room() { PutStoresOne(s.events[e'], k, m); }
      assert Holders(Apply(s, Post(e', k)), e, m) == Holders(s, e, m);
    }
  }

  lemma SameHolders(s: State, evs: seq<Event>, e: EventId, m: Msg)
    requires |evs| == |s.events| && e < |evs| && evs[e].waiters == s.events[e].waiters
    ensures Holders(s.(events := evs), e, m) == Holders(s, e, m)
  {
  }

  lemma PendMultiConserves(s: State, t: Prio, es: seq<EventId>, timeout: nat, e: EventId, m: Msg)
    requires Inv(s) && Enabled(s, PendMulti(t, es, timeout)) && e < |s.events|
    ensures Units(s, e, m) == Units(Apply(s, PendMulti(t, es, timeout)), e, m)
                              + multiset(TakeAll(s.events, es).1)[(e, m)]
  {
    var (evs, taken) := TakeAll(s.events, es);
    if taken != [] {
      TakeAllConserves(s.events, es, e, m);
      TakeAllFrame(s.events, es);
      SameHolders(s, evs, e, m);
    } else {
      OneTaskUnits(s, WaitMulti(s, t, es, timeout), t, e, m);
      RunnerHoldsNothing(s, t, e, m);
    }
  }

  lemma PendConserves(s: State, t: Prio, e': EventId, timeout: nat, e: EventId, m: Msg)
    requires Inv(s) && Enabled(s, Pend(t, e', timeout)) && e < |s.events|
    ensures Units(s, e, m) == Units(Apply(s, Pend(t, e', timeout)), e, m)
                              + Returned(s, Pend(t, e', timeout), e, m)
  {
    if s.events[e'].Available() {
      TakenRemovesOne(s.events[e'], m);
      SameHolders(s, s.events[e' := s.events[e'].Taken()], e, m);
    } else {
      OneTaskUnits(s, WaitOne(s, t, e', timeout), t, e, m);
      RunnerHoldsNothing(s, t, e, m);
    }
  }

  lemma HoldsIsReceived(s: State, t: Prio, e: EventId, m: Msg)
    requires Inv(s) && Enabled(s, Resume(t)) && e < |s.events|
    ensures Holds(s, t, e, m) <==> OutcomeOf(s.tasks[t]) == Received(e, m)
  {
    assert TaskOk(s, t);
  }

  lemma ResumeConserves(s: State, t: Prio, e: EventId, m: Msg)
    requires Inv(s) && Enabled(s, Resume(t)) && e < |s.events|
    ensures Units(s, e, m) == Units(Return(s, t), e, m) + B(OutcomeOf(s.tasks[t]) == Received(e, m))
  {
    HoldsIsReceived(s, t, e, m);
    OneTaskUnits(s, Return(s, t), t, e, m);
  }

  /** Ticks, delays, suspensions and creations move no unit. */
  lemma OthersConserve(s: State, a: Action, e: EventId, m: Msg)
    requires Inv(s) && Enabled(s, a) && e < |s.events|
    requires a.Tick? || a.Delay? || a.Suspend? || a.Unsuspend? || a.Create?
    ensures Apply(s, a).events == s.events
    ensures Units(s, e, m) == Units(Apply(s, a), e, m)
  {
    assert a.t in s.tasks ==> TaskOk(s, a.t);
    OneTaskUnits(s, Apply(s, a), a.t, e, m);
  }

  /** No step creates, drops or duplicates a unit. */
  lemma StepConserves(s: State, a: Action, e: EventId, m: Msg)
    requires Inv(s) && Enabled(s, a) && e < |s.events|
    ensures |Apply(s, a).events| == |s.events|
    ensures Units(s, e, m) + Accepted(s, a, e, m) == Units(Apply(s, a), e, m) + Returned(s, a, e, m)
  {
    match a
    case Post(e', k) => PostConserves(s, e', k, e, m);
    case Abort(e') =>
      assert EventOk(s, e');
      if s.events[e'].waiters != {} {
        RdyConserves(s, e', 0, PendAbort, e, m);
      }
    case PendMulti(t, es, timeout) => PendMultiConserves(s, t, es, timeout, e, m);
    case Pend(t, e', timeout) => PendConserves(s, t, e', timeout, e, m);
    case Resume(t) => ResumeConserves(s, t, e, m);
    case _ => OthersConserve(s, a, e, m);
  }

  ghost function TotalAccepted(s: State, acts: seq<Action>, e: EventId, m: Msg): nat
    requires Legal(s, acts)
    decreases |acts|
  {
    if acts == [] then 0
    else Accepted(s, acts[0], e, m) + TotalAccepted(Apply(s, acts[0]), acts[1..], e, m)
  }

  ghost function TotalReturned(s: State, acts: seq<Action>, e: EventId, m: Msg): nat
    requires Legal(s, acts)
    decreases |acts|
  {
    if acts == [] then 0
    else Returned(s, acts[0], e, m) + TotalReturned(Apply(s, acts[0]), acts[1..], e, m)
  }

  /** Over every run: units present at the start plus units accepted equal units present at the
      end plus units returned, where a unit handed to a task counts as present until the task
      returns it.  No unit is dropped or duplicated; one handed to a task that never runs again
      stays with it for ever. */
  lemma {:induction false} RunConserves(s: State, acts: seq<Action>, e: EventId, m: Msg)
    requires Legal(s, acts) && e < |s.events|
    ensures |Run(s, acts).events| == |s.events|
    ensures Units(s, e, m) + TotalAccepted(s, acts, e, m)
            == Units(Run(s, acts), e, m) + TotalReturned(s, acts, e, m)
    decreases |acts|
  {
    if acts != [] {
      StepConserves(s, acts[0], e, m);
      RunConserves(Apply(s, acts[0]), acts[1..], e, m);
    }
  }

  // ---------- a run that loses a message ----------

  const EMPTY_SEM := Event(Sem, 0, 0, [], 0, {})
  const BOOT := State(20, {20}, map[20 := FRESH_TASK], [EMPTY_SEM])
  const LOSING_RUN: seq<Action> :=
    [Create(5), PendMulti(5, [0], 0), Suspend(5), Post(0, 0), Unsuspend(5)]

  ghost function After(n: nat): State
    requires n <= 5
  {
    if n == 0 then BOOT
    else if n == 1 then State(20, {5, 20}, map[20 := FRESH_TASK, 5 := FRESH_TASK], [EMPTY_SEM])
    else if n == 2 then
      State(20, {20}, map[20 := FRESH_TASK, 5 := Task(0, {FSem, FMulti}, PendOk, None, Some([0]), 0)],
            [EMPTY_SEM.(waiters := {5})])
    else if n == 3 then
      State(20, {20}, map[20 := FRESH_TASK, 5 := Task(0, {FSem, FMulti, FSuspend}, PendOk, None, Some([0]), 0)],
            [EMPTY_SEM.(waiters := {5})])
    else if n == 4 then
      State(20, {20}, map[20 := FRESH_TASK, 5 := Task(0, {FMulti, FSuspend}, PendOk, Some(0), Some([0]), 0)],
            [EMPTY_SEM])
    else
      State(20, {20}, map[20 := FRESH_TASK, 5 := Task(0, {FMulti}, PendOk, Some(0), Some([0]), 0)], [EMPTY_SEM])
  }

  ghost predicate Leads(n: nat)
    requires n < 5
  {
    Inv(After(n)) ==> Enabled(After(n), LOSING_RUN[n]) && Apply(After(n), LOSING_RUN[n]) == After(n + 1)
  }

  lemma CreateLeads() ensures Leads(0)
  {
    var s := After(0);
    assert s.ready + {5} == After(1).ready;
  }

  lemma PendLeads() ensures Leads(1)
  {
    var s := After(1);
    var es: seq<EventId> := [0];
    assert es[0] in es && s.events[es[0]].kind.Mask() == FSem;
    assert Masks(s.events, es) == {FSem};
    assert s.ready - {5} == After(2).ready;
    TakeAllNothing(s.events, es);
    assert s.events[0].waiters + {5} == After(2).events[0].waiters;
    assert AddWaiter(s.events, 5, es)[0] == After(2).events[0];
    assert AddWaiter(s.events, 5, es) == After(2).events;
    assert {} + {FSem} + {FMulti} == After(2).tasks[5].stat;
    assert s.tasks[5 := After(2).tasks[5]] == After(2).tasks;
  }

  lemma SuspendLeads() ensures Leads(2)
  {
    assert After(2).ready - {5} == After(3).ready;
    assert After(2).tasks[5].stat + {FSuspend} == After(3).tasks[5].stat;
  }

  lemma PostLeads() ensures Leads(3)
  {
    var s := After(3);
    var w := s.events[0].waiters;
    assert IsMin(5, w);
    assert Highest(w) == 5;
    assert s.tasks[5].stat - {FSem} == After(4).tasks[5].stat;
    var es: seq<EventId> := [0] + [0];
    assert es[0] in es && w - {5} == {};
    assert DropWaiter(s.events, 5, es) == After(4).events;
  }

  lemma UnsuspendLeads() ensures Leads(4)
  {
    assert After(4).tasks[5].stat - {FSuspend} == After(5).tasks[5].stat;
    assert FMulti in After(5).tasks[5].stat;
  }

  lemma LosingStep(n: nat)
    requires n < 5
    ensures Leads(n)
  {
    CreateLeads();
    PendLeads();
    SuspendLeads();
    PostLeads();
    UnsuspendLeads();
    assert n == 0 || n == 1 || n == 2 || n == 3 || n == 4;
  }

  lemma {:induction false} LosingRunFrom(n: nat)
    requires n <= 5 && Inv(After(n))
    ensures Legal(After(n), LOSING_RUN[n..]) && Run(After(n), LOSING_RUN[n..]) == After(5)
    decreases 5 - n
  {
    if n < 5 {
      LosingStep(n);
      StepKeepsInv(After(n), LOSING_RUN[n]);
      LosingRunFrom(n + 1);
      assert LOSING_RUN[n..][1..] == LOSING_RUN[n + 1..];
    } else {
      assert LOSING_RUN[n..] == [];
    }
  }

  /** The loss does happen: a task multi-pends on one semaphore, is suspended, is posted to and
      is resumed by OSTaskResume - and is then neither ready nor waiting ... */
  lemma LosingRunExists()
    ensures Initial(BOOT) && Legal(BOOT, LOSING_RUN) && Run(BOOT, LOSING_RUN) == After(5)
  {
    InitialKeepsInv(BOOT);
    LosingRunFrom(0);
    assert LOSING_RUN[0..] == LOSING_RUN;
  }

  /** ... for ever. */
  lemma SuspendedPostIsLost(s: State, acts: seq<Action>)
    requires s == After(5) && Legal(s, acts)
    ensures Stranded(Run(s, acts), 5) && Resume(5) !in acts
  {
    assert Stranded(s, 5) && s.tasks[5].eventPtr.Some?;
    NeverAgain(s, acts, 5);
  }
}
