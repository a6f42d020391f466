/** The globals of uC/OS-II and the functions of os_core.c that update them in place, each shown
    to do exactly what KernelSpec, SchedSpec and TcbLists say. */
module KernelCode {
  import opened Options
  import opened PrioBitmap
  import opened KernelSpec
  import opened TcbLists
  import opened EventBlocks
  import opened SchedSpec
  import KR = KernelRuns

  datatype TickStep = TickStepDis | TickStepWait | TickStepOnce

  /** The error codes a pend call can return. */
  datatype PendError = ErrNone | ErrEventType | ErrPendIsr | ErrPendLocked | ErrPendAbort | ErrTimeout

  /** How the first critical section of OSEventPendMulti ends. */
  datatype PendStart = Refused(err: PendError) | Got(taken: seq<(EventId, Msg)>) | MustWait

  /** What OSEventPendMulti returns for an outcome: the event, the message and the error code. */
  function Report(o: Outcome): (Option<EventId>, Msg, PendError) {
    match o
    case Received(e, m) => (Some(e), m, ErrNone)
    case Aborted(e) => (Some(e), 0, ErrPendAbort)
    case TimedOut => (None, 0, ErrTimeout)
  }

  /** What may come between two turns of the clock tick's walk, done only where a caller may do
      it: critical sections, and the filling in of a block between the two of a creation. */
  datatype Interrupt =
    PostTo(e: EventId, m: Msg) | AbortOn(e: EventId) | BeginTask(prio: Prio) | FillTask(prio: Prio) | LinkTask(prio: Prio)

  class Kernel {
    const lowestPrio: nat           // OS_LOWEST_PRIO, the idle task's priority
    var rdyGrp: bv8                 // OSRdyGrp
    var rdyTbl: seq<bv8>            // OSRdyTbl
    var tcbTbl: seq<Tcb>            // OSTCBTbl
    var prioTbl: seq<int>           // OSTCBPrioTbl
    var eventTbl: seq<Ecb>          // OSEventTbl
    var tcbList: int                // OSTCBList
    var tcbFreeList: int            // OSTCBFreeList
    var prioCur: Prio               // OSPrioCur
    var prioHighRdy: Prio           // OSPrioHighRdy
    var tcbCur: int                 // OSTCBCur
    var tcbHighRdy: int             // OSTCBHighRdy
    var intNesting: nat             // OSIntNesting
    var lockNesting: nat            // OSLockNesting
    var running: bool               // OSRunning
    var tickStep: TickStep          // OSTickStepState
    var time: nat                   // OSTime
    ghost var places: Places

    /** The bitmaps are consistent: the ready list and every event's wait list. */
    ghost predicate Bitmaps()
      reads this`rdyGrp, this`rdyTbl, this`eventTbl
    {
      && lowestPrio <= 63 && |rdyTbl| == lowestPrio / 8 + 1
      && Agree(rdyGrp, rdyTbl)
      && EcbsOk(eventTbl, |rdyTbl|)
    }

    /** The three linked structures of task control blocks are consistent. */
    ghost predicate Lists()
      reads this`tcbTbl, this`prioTbl, this`tcbList, this`tcbFreeList, this`places
    {
      && |prioTbl| == lowestPrio + 1
      && ListsOk(tcbTbl, prioTbl, tcbList, tcbFreeList, places)
    }

    ghost predicate Valid()
      reads this
    {
      Bitmaps() && Lists()
    }

    ghost function Ready(): set<Prio>
      reads this`rdyTbl
    {
      Members(rdyTbl)
    }

    ghost function Tasks(): map<Prio, Task>
      reads this`tcbTbl, this`prioTbl
    {
      TasksOf(tcbTbl, prioTbl)
    }

    ghost function Events(): seq<Event>
      requires Bitmaps()
      reads this`rdyGrp, this`rdyTbl, this`eventTbl
    {
      EventsOf(eventTbl, |rdyTbl|)
    }

    /** The state of KernelSpec this memory stands for. */
    ghost function Abs(): State
      requires Bitmaps()
      reads this
    {
      State(lowestPrio, Ready(), Tasks(), Events())
    }

    /** Multitasking has started: the current task is a task, and so is whatever is ready. */
    ghost predicate Started()
      reads this`running, this`prioCur, this`tcbCur, this`prioTbl, this`tcbTbl, this`rdyTbl
    {
      && running && Ready() != {} && Ready() <= Tasks().Keys
      && prioCur in Tasks() && tcbCur == prioTbl[prioCur]
    }

    /** Once it has started. */
    ghost predicate StartedIfRunning()
      reads this`running, this`prioCur, this`tcbCur, this`prioTbl, this`tcbTbl, this`rdyTbl
    {
      running ==> Started()
    }

    ghost function SchedView(): SchedSpec.Sched
      reads this
    {
      SchedSpec.Sched(prioCur, Ready(), intNesting, lockNesting)
    }

    /** What the bitmap statements need of a block. */
    predicate Fits(t: Tcb)
      reads this`rdyTbl
    {
      t.BitsOk() && t.y < |rdyTbl|
    }

    // ---------- single steps ----------

    lemma BlockOf(q: Prio)
      requires Bitmaps() && Lists() && q in Tasks()
      ensures q <= lowestPrio && 0 <= prioTbl[q] < |tcbTbl| && places.IsActive(prioTbl[q])
      ensures tcbTbl[prioTbl[q]].prio == q && Fits(tcbTbl[prioTbl[q]])
      ensures Tasks()[q] == tcbTbl[prioTbl[q]].View()
    {
      TaskBlock(tcbTbl, prioTbl, tcbList, tcbFreeList, places, q);
    }

    lemma ActiveBlock(i: int)
      requires Bitmaps() && Lists() && places.IsActive(i)
      ensures 0 <= i < |tcbTbl| && Fits(tcbTbl[i])
      ensures tcbTbl[i].prio in Tasks() && prioTbl[tcbTbl[i].prio] == i
      ensures Tasks()[tcbTbl[i].prio] == tcbTbl[i].View()
    {
      ActiveTask(tcbTbl, prioTbl, tcbList, tcbFreeList, places, i);
    }

    /** Stores the pend fields of one active block. */
    method StoreTcb(i: nat, v: Tcb)
      requires Lists() && places.IsActive(i) && i < |tcbTbl| && tcbTbl[i].SameLinks(v)
      modifies this`tcbTbl
      ensures Lists() && tcbTbl == old(tcbTbl)[i := v]
      ensures Tasks() == old(Tasks())[v.prio := v.View()]
    {
      UpdateTask(tcbTbl, prioTbl, tcbList, tcbFreeList, places, i, v);
      tcbTbl := tcbTbl[i := v];
    }

    /** OSRdyGrp |= BitY; OSRdyTbl[Y] |= BitX */
    method MakeReady(t: Tcb)
      requires Bitmaps() && Fits(t)
      modifies this`rdyGrp, this`rdyTbl
      ensures Bitmaps() && |rdyTbl| == old(|rdyTbl|)
      ensures Ready() == old(Ready()) + {t.prio}
    {
      InsertAddsOne(rdyGrp, rdyTbl, t.y, t.x);
      rdyGrp := rdyGrp | t.bitY;
      rdyTbl := WithBit(rdyTbl, t.y, t.bitX);
    }

    /** OSRdyTbl[Y] &= ~BitX, and OSRdyGrp &= ~BitY when the byte became zero. */
    method MakeUnready(t: Tcb)
      requires Bitmaps() && Fits(t)
      modifies this`rdyGrp, this`rdyTbl
      ensures Bitmaps() && |rdyTbl| == old(|rdyTbl|)
      ensures Ready() == old(Ready()) - {t.prio}
    {
      RemoveDropsOne(rdyGrp, rdyTbl, t.y, t.x);
      rdyTbl := WithoutBit(rdyTbl, t.y, t.bitX);
      rdyGrp := GroupAfter(rdyGrp, rdyTbl, t.y, t.bitY);
    }

    // ---------- wait lists ----------

    /** OS_EventTaskRemove */
    method EventTaskRemove(t: Tcb, e: EventId)
      requires Bitmaps() && Fits(t) && e < |eventTbl|
      modifies this`eventTbl
      ensures Bitmaps() && |eventTbl| == old(|eventTbl|) && Events() == Drop1(old(Events()), t.prio, e)
    {
      assert eventTbl[e].Ok(|rdyTbl|);
      DelistDrops(eventTbl[e], |rdyTbl|, t.y, t.x);
      UpdateEcb(eventTbl, |rdyTbl|, e, Delist(eventTbl[e], t.y, t.bitX, t.bitY));
      eventTbl := eventTbl[e := Delist(eventTbl[e], t.y, t.bitX, t.bitY)];
    }

    /** OS_EventTaskRemoveMulti */
    method EventTaskRemoveMulti(t: Tcb, es: seq<EventId>)
      requires Bitmaps() && Fits(t) && InRange(|eventTbl|, es)
      modifies this`eventTbl
      ensures Bitmaps() && |eventTbl| == old(|eventTbl|) && Events() == DropEach(old(Events()), t.prio, es)
    {
      var i := 0;
      while i < |es|
        invariant 0 <= i <= |es| && Bitmaps() && |eventTbl| == old(|eventTbl|)
        invariant Events() == DropEach(old(Events()), t.prio, es[..i])
      {
        assert es[..i + 1][..i] == es[..i];
        EventTaskRemove(t, es[i]);
        i := i + 1;
      }
      assert es[..i] == es;
    }

    /** The enlisting statements of OS_EventTaskWait and OS_EventTaskWaitMulti. */
    method Enrol(t: Tcb, e: EventId)
      requires Bitmaps() && Fits(t) && e < |eventTbl|
      modifies this`eventTbl
      ensures Bitmaps() && |eventTbl| == old(|eventTbl|) && Events() == Add1(old(Events()), t.prio, e)
    {
      assert eventTbl[e].Ok(|rdyTbl|);
      EnlistAdds(eventTbl[e], |rdyTbl|, t.y, t.x);
      UpdateEcb(eventTbl, |rdyTbl|, e, Enlist(eventTbl[e], t.y, t.bitX, t.bitY));
      eventTbl := eventTbl[e := Enlist(eventTbl[e], t.y, t.bitX, t.bitY)];
    }

    /** The loop of OS_EventTaskWaitMulti. */
    method EnrolAll(t: Tcb, es: seq<EventId>)
      requires Bitmaps() && Fits(t) && InRange(|eventTbl|, es)
      modifies this`eventTbl
      ensures Bitmaps() && |eventTbl| == old(|eventTbl|) && Events() == AddEach(old(Events()), t.prio, es)
    {
      var i := 0;
      while i < |es|
        invariant 0 <= i <= |es| && Bitmaps() && |eventTbl| == old(|eventTbl|)
        invariant Events() == AddEach(old(Events()), t.prio, es[..i])
      {
        assert es[..i + 1][..i] == es[..i];
        Enrol(t, es[i]);
        i := i + 1;
      }
      assert es[..i] == es;
    }

    /** OS_EventTaskWait: the current task waits on one event and is no longer ready. */
    method EventTaskWait(e: EventId)
      requires Valid() && places.IsActive(tcbCur) && tcbCur < |tcbTbl| && e < |eventTbl|
      modifies this`rdyGrp, this`rdyTbl, this`tcbTbl, this`eventTbl
      ensures Valid()
      ensures var t := old(tcbTbl[tcbCur]);
              && Tasks() == old(Tasks())[t.prio := t.(eventPtr := Some(e)).View()]
              && Ready() == old(Ready()) - {t.prio}
              && Events() == Add1(old(Events()), t.prio, e)
    {
      ActiveBlock(tcbCur);
      StoreTcb(tcbCur, tcbTbl[tcbCur].(eventPtr := Some(e)));
      var t := tcbTbl[tcbCur];
      Enrol(t, e);
      MakeUnready(t);
    }

    /** OS_EventTaskWaitMulti */
    method EventTaskWaitMulti(es: seq<EventId>)
      requires Valid() && places.IsActive(tcbCur) && tcbCur < |tcbTbl| && InRange(|eventTbl|, es)
      modifies this`rdyGrp, this`rdyTbl, this`tcbTbl, this`eventTbl
      ensures Valid()
      ensures var t := old(tcbTbl[tcbCur]);
              && Tasks() == old(Tasks())[t.prio := t.(eventPtr := None, multi := Some(es)).View()]
              && Ready() == old(Ready()) - {t.prio}
              && Events() == AddEach(old(Events()), t.prio, es)
    {
      ActiveBlock(tcbCur);
      StoreTcb(tcbCur, tcbTbl[tcbCur].(eventPtr := None, multi := Some(es)));
      var t := tcbTbl[tcbCur];
      EnrolAll(t, es);
      MakeUnready(t);
    }

    /** The two lookups of OS_EventTaskRdy. */
    method HighestWaiter(e: EventId) returns (prio: Prio)
      requires Bitmaps() && e < |eventTbl| && Events()[e].waiters != {}
      ensures prio == Highest(Events()[e].waiters)
    {
      assert eventTbl[e].Ok(|rdyTbl|);
      LookupFindsMin(eventTbl[e].grp, eventTbl[e].tbl);
      var y := OSUnMapTbl(eventTbl[e].grp);
      var x := OSUnMapTbl(eventTbl[e].tbl[y]);
      prio := 8 * y + x;                                  // (y << 3) + x
      MinIsUnique(prio, Highest(Events()[e].waiters), Events()[e].waiters);
    }

    /** OS_EventTaskRdy after its lookups: the fields and the ready list ... */
    method ReadyBlock(ptcb: nat, msg: Msg, msk: Flag, pendStat: PendStat)
      requires Valid() && places.IsActive(ptcb) && ptcb < |tcbTbl|
      modifies this`rdyGrp, this`rdyTbl, this`tcbTbl
      ensures Valid() && |rdyTbl| == old(|rdyTbl|)
      ensures var t := old(tcbTbl[ptcb]);
              && tcbTbl == old(tcbTbl)[ptcb := t.(dly := 0, msg := msg, stat := t.stat - {msk}, statPend := pendStat)]
              && Ready() == (if FSuspend in t.stat - {msk} then old(Ready()) else old(Ready()) + {t.prio})
    {
      ActiveBlock(ptcb);
      var t := tcbTbl[ptcb];
      StoreTcb(ptcb, t.(dly := 0, msg := msg, stat := t.stat - {msk}, statPend := pendStat));
      if FSuspend !in tcbTbl[ptcb].stat {
        MakeReady(t);
      }
    }

    /** ... and the wait lists. */
    method LeaveLists(ptcb: nat, e: EventId)
      requires Valid() && places.IsActive(ptcb) && ptcb < |tcbTbl| && e < |eventTbl|
      requires tcbTbl[ptcb].multi.Some? ==> InRange(|eventTbl|, tcbTbl[ptcb].multi.value)
      modifies this`tcbTbl, this`eventTbl
      ensures Valid()
      ensures var t := old(tcbTbl[ptcb]);
              && tcbTbl == old(tcbTbl)[ptcb := t.(eventPtr := if t.multi.Some? then Some(e) else t.eventPtr)]
              && Events() == (if t.multi.Some? then DropEach(Drop1(old(Events()), t.prio, e), t.prio, t.multi.value)
                              else Drop1(old(Events()), t.prio, e))
    {
      ActiveBlock(ptcb);
      var t := tcbTbl[ptcb];
      EventTaskRemove(t, e);
      if t.multi.Some? {
        EventTaskRemoveMulti(t, t.multi.value);
        StoreTcb(ptcb, t.(eventPtr := Some(e)));
      }
    }

    /** OS_EventTaskRdy for the task found. */
    method HandOver(prio: Prio, e: EventId, msg: Msg, msk: Flag, pendStat: PendStat)
      requires Valid() && prio in Tasks() && e < |eventTbl|
      requires Tasks()[prio].multi.Some? ==> InRange(|eventTbl|, Tasks()[prio].multi.value)
      modifies this`rdyGrp, this`rdyTbl, this`tcbTbl, this`eventTbl
      ensures Valid()
      ensures Tasks() == old(Tasks())[prio := Readied(old(Tasks())[prio], e, msg, msk, pendStat)]
      ensures Ready() == if FSuspend in old(Tasks())[prio].stat - {msk} then old(Ready()) else old(Ready()) + {prio}
      ensures Events() == if old(Tasks())[prio].multi.Some?
                          then DropEach(Drop1(old(Events()), prio, e), prio, old(Tasks())[prio].multi.value)
                          else Drop1(old(Events()), prio, e)
    {
      BlockOf(prio);
      var ptcb := prioTbl[prio];
      ghost var tcbs, t := tcbTbl, tcbTbl[ptcb];
      ReadyBlock(ptcb, msg, msk, pendStat);
      LeaveLists(ptcb, e);
      ghost var t' := tcbTbl[ptcb];
      assert tcbTbl == tcbs[ptcb := t'];
      UpdateTasksOnly(tcbs, prioTbl, tcbList, tcbFreeList, places, ptcb, t');
    }

    /** OS_EventTaskRdy: hands the event to its highest-priority waiter. */
    method EventTaskRdy(e: EventId, msg: Msg, msk: Flag, pendStat: PendStat) returns (prio: Prio)
      requires Valid() && Inv(Abs()) && e < |eventTbl|
      requires Events()[e].waiters != {} && msk == eventTbl[e].kind.Mask()
      modifies this`rdyGrp, this`rdyTbl, this`tcbTbl, this`eventTbl
      ensures Valid()
      ensures prio == Highest(old(Events())[e].waiters) && prio in old(Tasks())
      ensures Abs() == Rdy(old(Abs()), e, msg, pendStat)
    {
      ghost var s := Abs();
      WaiterFacts(s, e);
      prio := HighestWaiter(e);
      HandOver(prio, e, msg, msk, pendStat);
      DropOne(s.events, prio, e);
      if s.tasks[prio].multi.Some? {
        DropMore(s.events, prio, e, s.tasks[prio].multi.value);
      }
      RdyIs(s, e, msg, pendStat, Abs());
    }

    // ---------- scheduling ----------

    /** OS_SchedNew */
    method SchedNew()
      requires Bitmaps() && Ready() != {}
      modifies this`prioHighRdy
      ensures prioHighRdy == Highest(Ready())
    {
      LookupFindsMin(rdyGrp, rdyTbl);
      var y := OSUnMapTbl(rdyGrp);
      prioHighRdy := 8 * y + OSUnMapTbl(rdyTbl[y]);
      MinIsUnique(prioHighRdy, Highest(Ready()), Ready());
    }

    /** The common tail of OS_Sched and OSIntExit; OS_TASK_SW and OSIntCtxSw install the new task. */
    method SwitchToHighest()
      requires Bitmaps() && Started()
      modifies this`prioHighRdy, this`prioCur, this`tcbHighRdy, this`tcbCur
      ensures Started() && prioCur == Highest(Ready())
    {
      SchedNew();
      if prioHighRdy != prioCur {
        tcbHighRdy := prioTbl[prioHighRdy];
        tcbCur, prioCur := tcbHighRdy, prioHighRdy;
      }
    }

    /** OS_Sched */
    method Sched()
      requires Bitmaps() && Started()
      modifies this`prioHighRdy, this`prioCur, this`tcbHighRdy, this`tcbCur
      ensures Started() && SchedView() == Reschedule(old(SchedView()))
    {
      if intNesting == 0 {
        if lockNesting == 0 {
          SwitchToHighest();
        }
      }
    }

    /** OSIntEnter */
    method IntEnter()
      requires Bitmaps() && StartedIfRunning()
      modifies this`intNesting
      ensures StartedIfRunning() && SchedView() == if running then Enter(old(SchedView())) else old(SchedView())
    {
      if running {
        if intNesting < 255 {
          intNesting := intNesting + 1;
        }
      }
    }

    /** OSIntExit */
    method IntExit()
      requires Bitmaps() && StartedIfRunning()
      modifies this`intNesting, this`prioHighRdy, this`prioCur, this`tcbHighRdy, this`tcbCur
      ensures StartedIfRunning() && SchedView() == if running then Exit(old(SchedView())) else old(SchedView())
    {
      if running {
        if intNesting > 0 {
          intNesting := intNesting - 1;
        }
        if intNesting == 0 {
          if lockNesting == 0 {
            SwitchToHighest();
          }
        }
      }
    }

    /** OSSchedLock */
    method SchedLock()
      requires Bitmaps() && StartedIfRunning()
      modifies this`lockNesting
      ensures StartedIfRunning() && SchedView() == if running then Lock(old(SchedView())) else old(SchedView())
    {
      if running {
        if intNesting == 0 {
          if lockNesting < 255 {
            lockNesting := lockNesting + 1;
          }
        }
      }
    }

    /** OSSchedUnlock */
    method SchedUnlock()
      requires Bitmaps() && StartedIfRunning()
      modifies this`lockNesting, this`prioHighRdy, this`prioCur, this`tcbHighRdy, this`tcbCur
      ensures StartedIfRunning() && SchedView() == if running then Unlock(old(SchedView())) else old(SchedView())
    {
      if running {
        if lockNesting > 0 {
          lockNesting := lockNesting - 1;
          if lockNesting == 0 {
            if intNesting == 0 {
              Sched();
            }
          }
        }
      }
    }

    /** OSStart; nothing happens when multitasking has started already. */
    method Start()
      requires Bitmaps() && StartedIfRunning() && Ready() != {} && Ready() <= Tasks().Keys
      modifies this`prioHighRdy, this`prioCur, this`tcbHighRdy, this`tcbCur, this`running
      ensures Started() && prioCur == if old(running) then old(prioCur) else Highest(Ready())
      ensures intNesting == old(intNesting) && lockNesting == old(lockNesting)
    {
      if !running {
        SchedNew();
        prioCur := prioHighRdy;
        tcbHighRdy := prioTbl[prioHighRdy];
        tcbCur := tcbHighRdy;
        running := true;                                  // OSStartHighRdy
      }
    }

    // ---------- the clock tick ----------

    /** The fields OSTimeTick rewrites in one block, and whether the task becomes ready. */
    static method TickFields(t: Tcb) returns (t': Tcb, ready: bool)
      ensures t.SameLinks(t') && t'.View() == Ticked(t.View())
      ensures ready <==> Due(t.View())
    {
      t', ready := t, false;
      if t'.dly != 0 {
        t' := t'.(dly := t'.dly - 1);
        if t'.dly == 0 {
          if t'.stat * PEND_ANY != {} {
            t' := t'.(stat := t'.stat - PEND_ANY, statPend := PendTimeout);
          } else {
            t' := t'.(statPend := PendOk);
          }
          ready := FSuspend !in t'.stat;
        }
      }
    }

    /** The body of OSTimeTick's loop. */
    method TickBlock(ptcb: nat)
      requires Valid() && places.IsActive(ptcb) && ptcb < |tcbTbl|
      modifies this`rdyGrp, this`rdyTbl, this`tcbTbl
      ensures Valid()
      ensures tcbTbl == old(tcbTbl)[ptcb := tcbTbl[ptcb]] && old(tcbTbl[ptcb]).SameLinks(tcbTbl[ptcb])
      ensures var t := old(tcbTbl[ptcb]);
              && t.prio in old(Tasks()) && old(Tasks())[t.prio] == t.View()
              && Tasks() == old(Tasks())[t.prio := Ticked(t.View())]
              && Ready() == if Due(t.View()) then old(Ready()) + {t.prio} else old(Ready())
    {
      ActiveBlock(ptcb);
      var t, ready := TickFields(tcbTbl[ptcb]);
      if ready {
        MakeReady(tcbTbl[ptcb]);
      }
      StoreTcb(ptcb, t);
    }

    /** One turn of the loop at position k of the list. */
    method TickTurn(ptcb: nat, ghost k: nat) returns (next: nat)
      requires Valid() && 0 < k < |places.active| && ptcb == places.active[k]
      modifies this`rdyGrp, this`rdyTbl, this`tcbTbl
      ensures Valid() && next == places.active[k - 1] && next < |tcbTbl|
      ensures NamesOf(tcbTbl, places) == old(NamesOf(tcbTbl, places))
      ensures NamesOf(tcbTbl, places)[k] in old(Tasks())
      ensures Abs() == TickOne(old(Abs()), NamesOf(tcbTbl, places)[k])
    {
      ListStep(tcbTbl, prioTbl, tcbList, tcbFreeList, places, k);
      NameAt(tcbTbl, places.active, k);
      ghost var t, s := tcbTbl[ptcb].prio, Abs();
      next := tcbTbl[ptcb].next;
      TickBlock(ptcb);
      TickOneIs(s, t, Abs());
      SameNames(old(tcbTbl), tcbTbl, places);
    }

    /** OSTimeTick: every task but the idle one is visited exactly once. */
    method TimeTick()
      requires Valid() && places.active != []
      modifies this`time, this`tickStep, this`rdyGrp, this`rdyTbl, this`tcbTbl
      ensures Valid() && time == (old(time) + 1) % 0x1_0000_0000
      ensures tickStep == if running && old(tickStep).TickStepOnce? then TickStepWait else old(tickStep)
      ensures Abs() == if running && !old(tickStep).TickStepWait?
                       then TickSome(old(Abs()), old(Tasks()).Keys - {lowestPrio}) else old(Abs())
    {
      time := (time + 1) % 0x1_0000_0000;
      if !running {
        return;
      }
      match tickStep {
        case TickStepDis =>
        case TickStepWait => return;
        case TickStepOnce => tickStep := TickStepWait;
      }
      TickAll();
    }

    /** The loop of OSTimeTick. */
    method TickAll()
      requires Valid() && places.active != []
      modifies this`rdyGrp, this`rdyTbl, this`tcbTbl
      ensures Valid() && Abs() == TickSome(old(Abs()), old(Abs()).tasks.Keys - {lowestPrio})
    {
      ghost var s, names := Abs(), NamesOf(tcbTbl, places);
      ListNamesTasks(names);
      WholeWalk(s, names);
      TickWalk(names);
    }

    /** Each task is on the active list once, the idle task at the tail. */
    lemma ListNamesTasks(names: seq<Prio>)
      requires Valid() && names == NamesOf(tcbTbl, places)
      ensures NameEach(names, Tasks().Keys)
      ensures forall k :: 0 <= k < |names| ==> (names[k] == lowestPrio <==> k == 0)
    {
      NamesAreTasks(tcbTbl, prioTbl, tcbList, tcbFreeList, places, names);
    }

    /** The walk stands at position k of the active list, which these names belong to. */
    ghost predicate WalkAt(names: seq<Prio>, k: nat, ptcb: nat)
      reads this`tcbTbl, this`places
    {
      && k < |names| == |places.active| && names == NamesOf(tcbTbl, places)
      && ptcb == places.active[k] && ptcb < |tcbTbl|
    }

    /** One turn, seen from the start of the walk. */
    method TickNextTask(ptcb: nat, ghost k: nat, ghost s: State, ghost names: seq<Prio>) returns (next: nat)
      requires Valid() && k > 0 && WalkAt(names, k, ptcb) && Abs() == TickFrom(s, names, k)
      modifies this`rdyGrp, this`rdyTbl, this`tcbTbl
      ensures Valid() && WalkAt(names, k - 1, next) && Abs() == TickFrom(s, names, k - 1)
    {
      NameIs(tcbTbl, prioTbl, tcbList, tcbFreeList, places, k);
      TickDown(s, names, k);
      next := TickTurn(ptcb, k);
    }

    /** The walk ends at the tail. */
    lemma WalkEnds(names: seq<Prio>, k: nat, ptcb: nat)
      requires Valid() && WalkAt(names, k, ptcb)
      ensures tcbTbl[ptcb].prio == lowestPrio <==> k == 0
    {
      NameIs(tcbTbl, prioTbl, tcbList, tcbFreeList, places, k);
      NameAt(tcbTbl, places.active, k);
    }

    lemma WalkStarts(names: seq<Prio>)
      requires Valid() && names == NamesOf(tcbTbl, places) && names != []
      ensures tcbList >= 0 && WalkAt(names, |names| - 1, tcbList)
    {
      ListNext(tcbTbl, prioTbl, tcbList, tcbFreeList, places, |names| - 1);
    }

    /** The walk down the active list, until the idle task. */
    method TickWalk(ghost names: seq<Prio>)
      requires Valid() && names == NamesOf(tcbTbl, places) && names != []
      modifies this`rdyGrp, this`rdyTbl, this`tcbTbl
      ensures Valid() && Abs() == TickFrom(old(Abs()), names, 0)
    {
      ghost var s := Abs();
      ghost var k: nat := |names| - 1;
      WalkStarts(names);
      var ptcb: nat := tcbList;
      WalkEnds(names, k, ptcb);
      while tcbTbl[ptcb].prio != lowestPrio
        invariant Valid() && WalkAt(names, k, ptcb) && (tcbTbl[ptcb].prio == lowestPrio <==> k == 0)
        invariant Abs() == TickFrom(s, names, k)
        decreases k
      {
        ptcb := TickNextTask(ptcb, k, s, names);
        k := k - 1;
        WalkEnds(names, k, ptcb);
      }
    }

    // ---------- posts and aborts ----------

    method StoreEcb(e: EventId, b: Ecb)
      requires Bitmaps() && e < |eventTbl| && b.Ok(|rdyTbl|)
      modifies this`eventTbl
      ensures Bitmaps() && |eventTbl| == old(|eventTbl|)
      ensures Events() == old(Events())[e := b.View()]
    {
      UpdateEcb(eventTbl, |rdyTbl|, e, b);
      eventTbl := eventTbl[e := b];
    }

    /** What a post does when nobody waits. */
    method Deposit(e: EventId, msg: Msg) returns (stored: bool)
      requires Bitmaps() && e < |eventTbl|
      modifies this`eventTbl
      ensures Bitmaps() && |eventTbl| == old(|eventTbl|) && stored == old(Events())[e].Room()
      ensures Events() == if stored then old(Events())[e := old(Events())[e].Put(msg)] else old(Events())
    {
      var b := eventTbl[e];
      assert b.Ok(|rdyTbl|);
      stored := false;
      match b.kind {
        case Sem =>
          if b.cnt < 65535 {
            StoreEcb(e, b.(cnt := b.cnt + 1));
            stored := true;
          }
        case Mbox =>
          if b.ptr == 0 {
            StoreEcb(e, b.(ptr := msg));
            stored := true;
          }
        case Queue =>
          if b.q.entries < |b.q.buf| {
            PushAppends(b.q, msg);
            StoreEcb(e, b.(q := b.q.Push(msg)));
            stored := true;
          }
        case Other =>
      }
    }

    /** The critical section of OSSemPost, OSMboxPost and OSQPost. */
    method PostEvent(e: EventId, msg: Msg) returns (accepted: bool)
      requires Valid() && Inv(Abs()) && Enabled(Abs(), Post(e, msg))
      modifies this`rdyGrp, this`rdyTbl, this`tcbTbl, this`eventTbl
      ensures Valid() && Abs() == Apply(old(Abs()), Post(e, msg))
      ensures accepted == (old(Events())[e].waiters != {} || old(Events())[e].Room())
    {
      assert eventTbl[e].Ok(|rdyTbl|);
      GroupTellsEmpty(eventTbl[e].grp, eventTbl[e].tbl);
      if eventTbl[e].grp != 0 {
        var _ := EventTaskRdy(e, msg, eventTbl[e].kind.Mask(), PendOk);
        accepted := true;
      } else {
        accepted := Deposit(e, msg);
      }
    }

    /** The critical section of OSSemPendAbort, OSMboxPendAbort and OSQPendAbort. */
    method AbortEvent(e: EventId)
      requires Valid() && Inv(Abs()) && Enabled(Abs(), Abort(e))
      modifies this`rdyGrp, this`rdyTbl, this`tcbTbl, this`eventTbl
      ensures Valid() && Abs() == Apply(old(Abs()), Abort(e))
    {
      assert eventTbl[e].Ok(|rdyTbl|);
      GroupTellsEmpty(eventTbl[e].grp, eventTbl[e].tbl);
      if eventTbl[e].grp != 0 {
        var _ := EventTaskRdy(e, 0, eventTbl[e].kind.Mask(), PendAbort);
      }
    }

    // ---------- OSEventPendMulti ----------

    /** One turn of the loop that looks for events already available. */
    method TakeOne(e: EventId) returns (got: bool, msg: Msg)
      requires Bitmaps() && e < |eventTbl| && !eventTbl[e].kind.Other?
      modifies this`eventTbl
      ensures Bitmaps() && |eventTbl| == old(|eventTbl|) && got == old(Events())[e].Available()
      ensures got ==> msg == old(Events())[e].Front() && Events() == old(Events())[e := old(Events())[e].Taken()]
      ensures !got ==> eventTbl == old(eventTbl)
    {
      var b := eventTbl[e];
      assert b.Ok(|rdyTbl|);
      got, msg := false, 0;
      match b.kind {
        case Sem =>
          if b.cnt > 0 {
            StoreEcb(e, b.(cnt := b.cnt - 1));
            got := true;
          }
        case Mbox =>
          if b.ptr != 0 {
            got, msg := true, b.ptr;
            StoreEcb(e, b.(ptr := 0));
          }
        case Queue =>
          if b.q.entries > 0 {
            PopTakesFirst(b.q);
            got, msg := true, b.q.buf[b.q.out];
            StoreEcb(e, b.(q := b.q.Pop()));
          }
      }
    }

    /** The loop: takes from every event that has something, collects the status flags of the
        others. */
    method TakeReady(es: seq<EventId>) returns (taken: seq<(EventId, Msg)>, stat: set<Flag>)
      requires Bitmaps() && InRange(|eventTbl|, es) && forall i :: 0 <= i < |es| ==> !Events()[es[i]].kind.Other?
      modifies this`eventTbl
      ensures Bitmaps() && |eventTbl| == old(|eventTbl|)
      ensures Events() == TakeAll(old(Events()), es).0 && taken == TakeAll(old(Events()), es).1
      ensures taken == [] ==> stat == MaskEach(Events(), es)
    {
      ghost var evs := Events();
      taken, stat := [], {};
      var i := 0;
      TakingStarts(evs, es);
      while i < |es|
        invariant 0 <= i <= |es| && Bitmaps() && |eventTbl| == |evs|
        invariant forall j :: 0 <= j < |es| ==> !Events()[es[j]].kind.Other?
        invariant TakingAt(evs, Events(), es, i, taken, stat)
      {
        ghost var now := Events();
        var got, msg := TakeOne(es[i]);
        if got {
          TookOne(evs, now, es, i, taken, stat);
          taken := taken + [(es[i], msg)];
        } else {
          PassedOne(evs, now, es, i, taken, stat);
          stat := stat + {eventTbl[es[i]].kind.Mask()};
        }
        i := i + 1;
      }
      TakingEnds(evs, Events(), es, taken, stat);
    }

    /** The last statements before OS_Sched: the current task goes to wait. */
    method WaitForMany(es: seq<EventId>, stat: set<Flag>, timeout: nat)
      requires Valid() && prioCur in Tasks() && tcbCur == prioTbl[prioCur] && InRange(|eventTbl|, es)
      modifies this`rdyGrp, this`rdyTbl, this`tcbTbl, this`eventTbl
      ensures Valid()
      ensures Tasks() == old(Tasks())[prioCur := Task(timeout, old(Tasks())[prioCur].stat + stat + {FMulti}, PendOk,
                                                      None, Some(es), old(Tasks())[prioCur].msg)]
      ensures Ready() == old(Ready()) - {prioCur} && Events() == AddEach(old(Events()), prioCur, es)
    {
      BlockOf(prioCur);
      ghost var tasks := Tasks();
      var t := tcbTbl[tcbCur];
      StoreTcb(tcbCur, t.(stat := t.stat + stat + {FMulti}, statPend := PendOk, dly := timeout));
      EventTaskWaitMulti(es);
      ghost var t' := t.(stat := t.stat + stat + {FMulti}, statPend := PendOk, dly := timeout);
      TwiceIsLast(tasks, prioCur, t'.View(), t'.(eventPtr := None, multi := Some(es)).View());
    }

    method WaitForEvents(es: seq<EventId>, stat: set<Flag>, timeout: nat)
      requires Valid() && prioCur in Tasks() && tcbCur == prioTbl[prioCur] && InRange(|eventTbl|, es)
      requires stat == MaskEach(Events(), es)
      modifies this`rdyGrp, this`rdyTbl, this`tcbTbl, this`eventTbl
      ensures Valid() && Abs() == WaitMulti(old(Abs()), prioCur, es, timeout)
    {
      ghost var s := Abs();
      MaskEachIsMasks(s.events, es);
      AddEachIsAddWaiter(s.events, prioCur, es);
      WaitForMany(es, stat, timeout);
      WaitMultiIs(s, prioCur, es, timeout, Abs());
    }

    /** OSEventPendMulti up to OS_Sched: refuses, or takes everything available, or waits. */
    method PendMultiStart(es: seq<EventId>, timeout: nat) returns (r: PendStart)
      requires Valid() && Started() && Inv(Abs()) && InRange(|eventTbl|, es) && Runs(Abs(), prioCur)
      modifies this`rdyGrp, this`rdyTbl, this`tcbTbl, this`eventTbl
      ensures Valid()
      ensures r.Refused? ==> Abs() == old(Abs())
      ensures r == (if !AllPendable(old(Abs()), es) then Refused(ErrEventType)
                    else if intNesting > 0 then Refused(ErrPendIsr)
                    else if lockNesting > 0 then Refused(ErrPendLocked)
                    else if TakeAll(old(Events()), es).1 != [] then Got(TakeAll(old(Events()), es).1)
                    else MustWait)
      ensures !r.Refused? ==> Enabled(old(Abs()), PendMulti(prioCur, es, timeout))
                              && Abs() == Apply(old(Abs()), PendMulti(prioCur, es, timeout))
    {
      var ok := CheckTypes(es);
      if !ok {
        return Refused(ErrEventType);
      }
      if intNesting > 0 {
        return Refused(ErrPendIsr);
      }
      if lockNesting > 0 {
        return Refused(ErrPendLocked);
      }
      ghost var s := Abs();
      var taken, stat := TakeReady(es);
      if taken != [] {
        return Got(taken);
      }
      TakeAllNothing(s.events, es);
      WaitForEvents(es, stat, timeout);
      return MustWait;
    }

    /** The loop that validates the event types. */
    method CheckTypes(es: seq<EventId>) returns (ok: bool)
      requires Bitmaps() && InRange(|eventTbl|, es)
      ensures ok <==> forall i :: 0 <= i < |es| ==> !Events()[es[i]].kind.Other?
    {
      var i := 0;
      while i < |es|
        invariant 0 <= i <= |es|
        invariant forall j :: 0 <= j < i ==> !Events()[es[j]].kind.Other?
      {
        assert eventTbl[es[i]].Ok(|rdyTbl|);
        if eventTbl[es[i]].kind.Other? {
          assert Events()[es[i]].kind.Other?;
          return false;
        }
        i := i + 1;
      }
      return true;
    }

    /** The two switches after OS_Sched: the outcome, and what is left to do with the wait lists. */
    static method Outcomes(t: Tcb, kind: Kind) returns (ev: Option<EventId>, msg: Msg, err: PendError, leave: bool)
      requires t.multi.Some? && (t.eventPtr.Some? && t.statPend == PendOk && kind.Sem? ==> t.msg == 0)
      requires t.eventPtr.Some? ==> !kind.Other?
      ensures (ev, msg, err) == Report(OutcomeOf(t.View()))
      ensures leave <==> OutcomeOf(t.View()).TimedOut?
    {
      ev, msg, leave := None, 0, false;
      var statPend := t.statPend;
      match statPend {
        case PendOk | PendAbort =>
          if t.eventPtr.Some? {
            ev := t.eventPtr;
          } else {
            statPend, leave := PendTimeout, true;
          }
        case PendTimeout =>
          leave := true;
      }
      match statPend {
        case PendOk =>
          if kind != Sem {
            msg := t.msg;
          }
          err := ErrNone;
        case PendAbort =>
          err := ErrPendAbort;
        case PendTimeout =>
          err := ErrTimeout;
      }
    }

    /** OSEventPendMulti after OS_Sched: what the call returns, and the task leaves every wait
        list it is still in. */
    method PendMultiFinish(es: seq<EventId>) returns (ev: Option<EventId>, msg: Msg, err: PendError)
      requires Valid() && Inv(Abs()) && prioCur in Tasks() && tcbCur == prioTbl[prioCur]
      requires prioCur in Ready() && Tasks()[prioCur].multi == Some(es)
      modifies this`tcbTbl, this`eventTbl
      ensures Valid() && Abs() == Return(old(Abs()), prioCur)
      ensures (ev, msg, err) == Report(OutcomeOf(old(Tasks())[prioCur]))
    {
      ResumeFacts(Abs(), prioCur);
      ev, msg, err := ReturnFromPend(es);
    }

    /** The same from what the invariant says about the current task alone. */
    method ReturnFromPend(es: seq<EventId>) returns (ev: Option<EventId>, msg: Msg, err: PendError)
      requires Valid() && prioCur in Tasks() && tcbCur == prioTbl[prioCur]
      requires Tasks()[prioCur].multi == Some(es) && CanReturn(Abs(), Tasks()[prioCur], es)
      modifies this`tcbTbl, this`eventTbl
      ensures Valid() && Abs() == Return(old(Abs()), prioCur)
      ensures (ev, msg, err) == Report(OutcomeOf(old(Tasks())[prioCur]))
    {
      ghost var s := Abs();
      ev, msg, err := FinishPend(es);
      DropEachIsDropWaiter(s.events, prioCur, es);
      ReturnIs(s, prioCur, Abs());
    }

    method FinishPend(es: seq<EventId>) returns (ev: Option<EventId>, msg: Msg, err: PendError)
      requires Valid() && prioCur in Tasks() && tcbCur == prioTbl[prioCur]
      requires Tasks()[prioCur].multi == Some(es) && CanReturn(Abs(), Tasks()[prioCur], es)
      modifies this`tcbTbl, this`eventTbl
      ensures Valid()
      ensures var t := old(Tasks())[prioCur];
              && (ev, msg, err) == Report(OutcomeOf(t))
              && Tasks() == old(Tasks())[prioCur := Task(t.dly, {}, PendOk, None, None, 0)]
              && Events() == if OutcomeOf(t).TimedOut? then DropEach(old(Events()), prioCur, es) else old(Events())
    {
      BlockOf(prioCur);
      var t := tcbTbl[tcbCur];
      var kind := Other;
      if t.eventPtr.Some? {
        assert eventTbl[t.eventPtr.value].Ok(|rdyTbl|);
        kind := eventTbl[t.eventPtr.value].kind;
      }
      var leave;
      ev, msg, err, leave := Outcomes(t, kind);
      ClearPend(es, leave);
    }

    /** The last statements: the wait lists if still in them, and the pend fields. */
    method ClearPend(es: seq<EventId>, leave: bool)
      requires Valid() && prioCur in Tasks() && tcbCur == prioTbl[prioCur] && InRange(|eventTbl|, es)
      modifies this`tcbTbl, this`eventTbl
      ensures Valid()
      ensures Tasks() == old(Tasks())[prioCur := Task(old(Tasks())[prioCur].dly, {}, PendOk, None, None, 0)]
      ensures Events() == if leave then DropEach(old(Events()), prioCur, es) else old(Events())
    {
      BlockOf(prioCur);
      var t := tcbTbl[tcbCur];
      if leave {
        EventTaskRemoveMulti(t, es);
      }
      StoreTcb(tcbCur, t.(stat := {}, statPend := PendOk, eventPtr := None, multi := None, msg := 0));
    }

    // ---------- task creation ----------

    /** First critical section of OS_TCBInit, called for some priority. */
    method TcbAlloc(ghost prio: Prio) returns (ptcb: int)
      requires Valid()
      modifies this`tcbFreeList, this`places
      ensures Valid() && Abs() == old(Abs())
      ensures old(tcbFreeList) == NIL ==> ptcb == NIL && places == old(places)
      ensures old(tcbFreeList) != NIL ==> TakenFrom(old(places), ptcb) && places == Allocated(old(places), prio)
    {
      ptcb := tcbFreeList;
      if ptcb != NIL {
        AllocMoves(tcbTbl, prioTbl, tcbList, tcbFreeList, places, prio);
        tcbFreeList := tcbTbl[ptcb].next;
        places := Allocated(places, prio);
      }
    }

    /** Between the critical sections, interrupts enabled: the block taken is filled in. */
    method TcbFill(ptcb: nat, prio: Prio)
      requires Valid() && ptcb < |tcbTbl| == |places.spot| && places.spot[ptcb].InFlight?
      requires prio <= lowestPrio && prioTbl[prio] < 0
      requires forall j :: 0 <= j < |places.spot| ==> places.spot[j] != Filled(prio)
      modifies this`tcbTbl, this`places
      ensures Valid() && Abs() == old(Abs()) && |tcbTbl| == old(|tcbTbl|)
      ensures places == old(places).(spot := old(places).spot[ptcb := Filled(prio)])
      ensures tcbTbl[ptcb].prio == prio
    {
      var t := Tcb(tcbTbl[ptcb].next, tcbTbl[ptcb].prev, None, None, 0, 0, {}, PendOk, prio,
                   prio % 8, prio / 8, Bit(prio % 8), Bit(prio / 8));
      FilledPrio(tcbTbl, prioTbl, tcbList, tcbFreeList, places);
      FillKeeps(tcbTbl, prioTbl, tcbList, tcbFreeList, places, ptcb, t);
      tcbTbl := tcbTbl[ptcb := t];
      places := places.(spot := places.spot[ptcb := Filled(prio)]);
    }

    /** Second critical section of OS_TCBInit: the block heads the active list and the task is
        ready. */
    method TcbLink(ptcb: nat)
      requires Valid() && ptcb < |tcbTbl| && places.IsFilled(ptcb)
      requires places.active == [] ==> tcbTbl[ptcb].prio == lowestPrio
      modifies this`prioTbl, this`tcbTbl, this`tcbList, this`rdyGrp, this`rdyTbl, this`places
      ensures Valid() && |tcbTbl| == old(|tcbTbl|)
      ensures ptcb < |old(places).spot| && places == LinkedPlaces(old(places), ptcb)
      ensures var q := old(tcbTbl[ptcb].prio);
              && q !in old(Tasks()) && q < |old(prioTbl)| && prioTbl == old(prioTbl)[q := ptcb]
              && Tasks() == old(Tasks())[q := FRESH_TASK]
              && Ready() == old(Ready()) + {q} && Events() == old(Events())
    {
      LinkBlock(ptcb);
      ActiveBlock(ptcb);
      MakeReady(tcbTbl[ptcb]);
    }

    method LinkBlock(ptcb: nat)
      requires Lists() && ptcb < |tcbTbl| && places.IsFilled(ptcb)
      requires places.active == [] ==> tcbTbl[ptcb].prio == lowestPrio
      modifies this`prioTbl, this`tcbTbl, this`tcbList, this`places
      ensures Lists() && ptcb < |tcbTbl| == old(|tcbTbl|) && tcbTbl[ptcb].prio == old(tcbTbl[ptcb].prio)
      ensures places == LinkedPlaces(old(places), ptcb) && places.IsActive(ptcb)
      ensures var q := old(tcbTbl[ptcb].prio);
              && q !in old(Tasks()) && q < |old(prioTbl)| && prioTbl == old(prioTbl)[q := ptcb]
              && Tasks() == old(Tasks())[q := FRESH_TASK]
    {
      LinkAdds(tcbTbl, prioTbl, tcbList, tcbFreeList, places, ptcb);
      ghost var tcbs := tcbTbl;
      prioTbl := prioTbl[tcbTbl[ptcb].prio := ptcb];
      tcbTbl := tcbTbl[ptcb := tcbTbl[ptcb].(next := tcbList, prev := NIL)];
      if tcbList != NIL {
        tcbTbl := tcbTbl[tcbList := tcbTbl[tcbList].(prev := ptcb)];
      }
      assert tcbTbl == LinkedTcbs(tcbs, tcbList, ptcb);
      tcbList := ptcb;
      places := LinkedPlaces(places, ptcb);
    }

    /** The same for a creation in progress. */
    method BeginCreation(prio: Prio, creating: map<Prio, Creation>) returns (creating': map<Prio, Creation>)
      requires Valid() && CreationsOk(prioTbl, places, creating)
      requires prio <= lowestPrio && prioTbl[prio] < 0 && prio !in creating
      modifies this`tcbFreeList, this`places
      ensures Valid() && Abs() == old(Abs()) && CreationsOk(prioTbl, places, creating')
      ensures places.active == old(places).active
      ensures old(tcbFreeList) == NIL ==> creating' == creating
      ensures old(tcbFreeList) != NIL ==> prio in creating' && creating' == creating[prio := creating'[prio]] && !creating'[prio].filled
    {
      ghost var p := places;
      var ptcb := TcbAlloc(prio);
      if ptcb == NIL {
        return creating;
      }
      BeginKeeps(prioTbl, p, creating, prio, ptcb);
      return creating[prio := Creation(ptcb, false)];
    }

    method FillCreation(prio: Prio, creating: map<Prio, Creation>) returns (creating': map<Prio, Creation>)
      requires Valid() && CreationsOk(prioTbl, places, creating) && prio in creating && !creating[prio].filled
      modifies this`tcbTbl, this`places
      ensures Valid() && Abs() == old(Abs()) && CreationsOk(prioTbl, places, creating')
      ensures places.active == old(places).active && |tcbTbl| == old(|tcbTbl|)
      ensures creating' == creating[prio := Creation(creating[prio].ptcb, true)]
    {
      FilledKeeps(prioTbl, places, creating, prio);
      FilledPrio(tcbTbl, prioTbl, tcbList, tcbFreeList, places);
      TcbFill(creating[prio].ptcb, prio);
      return creating[prio := Creation(creating[prio].ptcb, true)];
    }

    method LinkCreation(prio: Prio, creating: map<Prio, Creation>) returns (creating': map<Prio, Creation>)
      requires Valid() && CreationsOk(prioTbl, places, creating) && prio in creating && creating[prio].filled
      requires places.active == [] ==> prio == lowestPrio
      modifies this`prioTbl, this`tcbTbl, this`tcbList, this`rdyGrp, this`rdyTbl, this`places
      ensures Valid() && prio !in old(Tasks()) && Abs() == Created(old(Abs()), prio)
      ensures CreationsOk(prioTbl, places, creating') && creating' == creating - {prio}
      ensures places.active == old(places).active + [creating[prio].ptcb]
      ensures KeepsPrios(old(prioTbl), prioTbl) && |tcbTbl| == old(|tcbTbl|)
    {
      LinkedKeeps(prioTbl, places, creating, prio);
      FilledPrio(tcbTbl, prioTbl, tcbList, tcbFreeList, places);
      TcbLink(creating[prio].ptcb);
      return creating - {prio};
    }

    /** OS_TCBInit, whatever other creations are in progress, but without interrupts between its
        own critical sections. */
    method TcbInit(prio: Prio, creating: map<Prio, Creation>) returns (created: bool)
      requires Valid() && CreationsOk(prioTbl, places, creating)
      requires prio <= lowestPrio && prioTbl[prio] < 0 && prio !in creating
      requires places.active == [] ==> prio == lowestPrio
      modifies this`tcbFreeList, this`places, this`prioTbl, this`tcbTbl, this`tcbList, this`rdyGrp, this`rdyTbl
      ensures Valid() && CreationsOk(prioTbl, places, creating) && created == (old(tcbFreeList) != NIL)
      ensures !created ==> Abs() == old(Abs()) && places.active == old(places).active
      ensures created ==> prio !in old(Tasks()) && Abs() == Created(old(Abs()), prio)
      ensures created ==> |places.active| == |old(places.active)| + 1 && old(places.active) <= places.active
      ensures KeepsPrios(old(prioTbl), prioTbl) && |tcbTbl| == old(|tcbTbl|)
    {
      var begun := BeginCreation(prio, creating);
      if prio !in begun {
        return false;
      }
      var filled := FillCreation(prio, begun);
      var linked := LinkCreation(prio, filled);
      Finished(creating, prio, begun[prio], filled[prio]);
      return true;
    }

    // ---------- initialisation ----------

    /** OSInit for the ready list, the TCB tables and the given events, none of them waited for. */
    constructor (lowest: nat, nTasks: nat, events: seq<Ecb>)
      requires lowest <= 63 && nTasks > 0
      requires forall e :: 0 <= e < |events| ==> events[e].q.Ok() && |events[e].tbl| == lowest / 8 + 1
      ensures Valid() && lowestPrio == lowest && !running && intNesting == 0 && lockNesting == 0
      ensures Ready() == {} && Tasks() == map[] && |Events()| == |events|
      ensures forall e :: 0 <= e < |events| ==>
                Events()[e] == Event(events[e].kind, events[e].cnt, events[e].ptr, events[e].q.Contents(),
                                     |events[e].q.buf|, {})
      ensures places == InitialPlaces(nTasks) && |tcbTbl| == nTasks
    {
      lowestPrio := lowest;
      rdyGrp := 0;
      rdyTbl := seq(lowest / 8 + 1, _ => 0);
      prioTbl := seq(lowest + 1, _ => NIL);
      tcbTbl := seq(nTasks, _ => Tcb(NIL, NIL, None, None, 0, 0, {}, PendOk, 0, 0, 0, 0, 0));
      eventTbl := [];
      tcbList, tcbFreeList := NIL, 0;
      prioCur, prioHighRdy, tcbCur, tcbHighRdy := 0, 0, NIL, NIL;
      intNesting, lockNesting, running := 0, 0, false;
      tickStep, time := TickStepDis, 0;
      places := InitialPlaces(nTasks);
      new;
      ClearedTable(rdyTbl);
      InitTcbList(nTasks);
      AddEvents(events);
    }

    /** The loop of OS_InitTCBList. */
    method InitTcbList(n: nat)
      requires |tcbTbl| == n && n > 0 && tcbList == NIL && tcbFreeList == 0 && places == InitialPlaces(n)
      requires forall i :: 0 <= i < n ==> tcbTbl[i].next == NIL
      requires forall q :: 0 <= q < |prioTbl| ==> prioTbl[q] == NIL
      requires |prioTbl| == lowestPrio + 1
      modifies this`tcbTbl
      ensures Lists() && Tasks() == map[] && |tcbTbl| == n
    {
      var i := 0;
      while i < n - 1
        invariant 0 <= i <= n - 1 && |tcbTbl| == n
        invariant forall j :: 0 <= j < i ==> tcbTbl[j].next == j + 1
        invariant forall j :: i <= j < n ==> tcbTbl[j].next == NIL
      {
        tcbTbl := tcbTbl[i := tcbTbl[i].(next := i + 1)];
        i := i + 1;
      }
      AllFree(tcbTbl, prioTbl, n);
    }

    /** OS_EventWaitListInit for each event. */
    method AddEvents(events: seq<Ecb>)
      requires Bitmaps() && eventTbl == []
      requires forall e :: 0 <= e < |events| ==> events[e].q.Ok() && |events[e].tbl| == |rdyTbl|
      modifies this`eventTbl
      ensures Bitmaps() && |eventTbl| == |events|
      ensures forall e :: 0 <= e < |events| ==>
                Events()[e] == Event(events[e].kind, events[e].cnt, events[e].ptr, events[e].q.Contents(),
                                     |events[e].q.buf|, {})
    {
      var i := 0;
      while i < |events|
        invariant 0 <= i <= |events| && Bitmaps() && |eventTbl| == i
        invariant forall e :: 0 <= e < i ==>
                    Events()[e] == Event(events[e].kind, events[e].cnt, events[e].ptr, events[e].q.Contents(),
                                         |events[e].q.buf|, {})
      {
        var b := WaitListInit(events[i]);
        AppendEcb(eventTbl, |rdyTbl|, b);
        eventTbl := eventTbl + [b];
        i := i + 1;
      }
    }

    /** OS_EventWaitListInit */
    static method WaitListInit(b: Ecb) returns (b': Ecb)
      requires b.q.Ok() && |b.tbl| <= 8
      ensures b'.Ok(|b.tbl|) && b'.View() == Event(b.kind, b.cnt, b.ptr, b.q.Contents(), |b.q.buf|, {})
    {
      b' := b.(grp := 0);
      var i := 0;
      while i < |b'.tbl|
        invariant 0 <= i <= |b'.tbl| == |b.tbl| && b' == b.(grp := 0, tbl := b'.tbl)
        invariant forall j :: 0 <= j < i ==> b'.tbl[j] == 0
      {
        b' := b'.(tbl := b'.tbl[i := 0]);
        i := i + 1;
      }
      ClearedTable(b'.tbl);
    }

    /** OS_InitTaskIdle: the first task, at the lowest priority. */
    method InitTaskIdle()
      requires Valid() && !running && places == InitialPlaces(|tcbTbl|) && |tcbTbl| > 0
      requires Tasks() == map[] && Ready() == {} && forall e :: 0 <= e < |Events()| ==> Events()[e].waiters == {}
      modifies this`tcbFreeList, this`places, this`prioTbl, this`tcbTbl, this`tcbList, this`rdyGrp, this`rdyTbl
      ensures Valid() && Initial(Abs()) && Inv(Abs()) && |places.active| == 1 && Events() == old(Events())
      ensures CreationsOk(prioTbl, places, map[])
    {
      FreeListStarts(tcbTbl, prioTbl, tcbList, tcbFreeList, |tcbTbl|);
      NoTaskYet(tcbTbl, prioTbl, tcbList, tcbFreeList, places, lowestPrio);
      var _ := TcbInit(lowestPrio, map[]);
      InitialKeepsInv(Abs());
    }

    // ---------- a clock tick with interrupts between its turns ----------

    method DoPost(e: EventId, m: Msg) returns (ghost acts: seq<Action>)
      requires Valid() && Inv(Abs())
      modifies this`rdyGrp, this`rdyTbl, this`tcbTbl, this`eventTbl
      ensures Valid() && AtMostOne(old(Abs()), acts, Abs())
    {
      acts := [];
      if e < |eventTbl| {
        assert eventTbl[e].Ok(|rdyTbl|);
        if eventTbl[e].kind.Other? || (eventTbl[e].kind.Sem? && m != 0) || (eventTbl[e].kind.Mbox? && m == 0) {
          return;
        }
        acts := [Post(e, m)];
        var _ := PostEvent(e, m);
      }
    }

    method DoAbort(e: EventId) returns (ghost acts: seq<Action>)
      requires Valid() && Inv(Abs())
      modifies this`rdyGrp, this`rdyTbl, this`tcbTbl, this`eventTbl
      ensures Valid() && AtMostOne(old(Abs()), acts, Abs())
    {
      acts := [];
      if e < |eventTbl| {
        assert eventTbl[e].Ok(|rdyTbl|);
        if eventTbl[e].kind.Other? {
          return;
        }
        acts := [Abort(e)];
        AbortEvent(e);
      }
    }

    method DoBegin(prio: Prio, creating: map<Prio, Creation>) returns (creating': map<Prio, Creation>)
      requires Valid() && CreationsOk(prioTbl, places, creating)
      modifies this`tcbFreeList, this`places
      ensures Valid() && Abs() == old(Abs()) && CreationsOk(prioTbl, places, creating') && places.active == old(places).active
    {
      creating' := creating;
      if prio <= lowestPrio && prioTbl[prio] < 0 && prio !in creating {
        creating' := BeginCreation(prio, creating);
      }
    }

    method DoFill(prio: Prio, creating: map<Prio, Creation>) returns (creating': map<Prio, Creation>)
      requires Valid() && CreationsOk(prioTbl, places, creating)
      modifies this`tcbTbl, this`places
      ensures Valid() && Abs() == old(Abs()) && CreationsOk(prioTbl, places, creating') && places.active == old(places).active
      ensures |tcbTbl| == old(|tcbTbl|)
    {
      creating' := creating;
      if prio in creating && !creating[prio].filled {
        creating' := FillCreation(prio, creating);
      }
    }

    method DoLink(prio: Prio, creating: map<Prio, Creation>) returns (creating': map<Prio, Creation>, ghost acts: seq<Action>)
      requires Valid() && Inv(Abs()) && CreationsOk(prioTbl, places, creating) && places.active != []
      modifies this`places, this`prioTbl, this`tcbTbl, this`tcbList, this`rdyGrp, this`rdyTbl
      ensures Valid() && CreationsOk(prioTbl, places, creating') && AtMostOne(old(Abs()), acts, Abs())
      ensures old(places.active) <= places.active && KeepsPrios(old(prioTbl), prioTbl) && |tcbTbl| == old(|tcbTbl|)
    {
      creating', acts := creating, [];
      if prio in creating && creating[prio].filled {
        creating' := LinkCreation(prio, creating);
        acts := [Create(prio)];
        CreateIsOne(old(Abs()), prio, Abs());
      }
    }

    /** One interruption between two turns. */
    method Interrupted(what: Interrupt, creating: map<Prio, Creation>) returns (creating': map<Prio, Creation>, ghost acts: seq<Action>)
      requires Valid() && Inv(Abs()) && CreationsOk(prioTbl, places, creating) && places.active != []
      modifies this`tcbFreeList, this`places, this`prioTbl, this`tcbTbl, this`tcbList, this`rdyGrp, this`rdyTbl, this`eventTbl
      ensures Valid() && CreationsOk(prioTbl, places, creating') && AtMostOne(old(Abs()), acts, Abs()) && |tcbTbl| == old(|tcbTbl|)
      ensures old(places.active) <= places.active && NamesIn(tcbTbl, old(places.active)) == old(NamesOf(tcbTbl, places))
    {
      creating' := creating;
      match what {
        case PostTo(e, m) => acts := DoPost(e, m);
        case AbortOn(e) => acts := DoAbort(e);
        case BeginTask(prio) => acts := []; creating' := DoBegin(prio, creating);
        case FillTask(prio) => acts := []; creating' := DoFill(prio, creating);
        case LinkTask(prio) => creating', acts := DoLink(prio, creating);
      }
      NamesKept(old(tcbTbl), old(prioTbl), old(tcbList), old(tcbFreeList), old(places),
                tcbTbl, prioTbl, tcbList, tcbFreeList, places);
    }

    /** Any number of them. */
    method InterruptedBy(all: seq<Interrupt>, creating: map<Prio, Creation>, ghost s: State, ghost acts0: seq<Action>)
      returns (creating': map<Prio, Creation>, ghost acts: seq<Action>)
      requires Valid() && CreationsOk(prioTbl, places, creating) && places.active != [] && KR.Reaches(s, acts0, Abs())
      modifies this`tcbFreeList, this`places, this`prioTbl, this`tcbTbl, this`tcbList, this`rdyGrp, this`rdyTbl, this`eventTbl
      ensures Valid() && CreationsOk(prioTbl, places, creating')
      ensures KR.Reaches(s, acts, Abs()) && KR.TicksOf(acts) == KR.TicksOf(acts0) && |tcbTbl| == old(|tcbTbl|)
      ensures old(places.active) <= places.active && NamesIn(tcbTbl, old(places.active)) == old(NamesOf(tcbTbl, places))
    {
      acts, creating' := acts0, creating;
      var i := 0;
      while i < |all|
        invariant 0 <= i <= |all| && Valid() && CreationsOk(prioTbl, places, creating') && |tcbTbl| == old(|tcbTbl|)
        invariant KR.Reaches(s, acts, Abs()) && KR.TicksOf(acts) == KR.TicksOf(acts0)
        invariant old(places.active) <= places.active && NamesIn(tcbTbl, old(places.active)) == old(NamesOf(tcbTbl, places))
      {
        ghost var before, xs, ys := tcbTbl, old(places.active), places.active;
        KR.ReachedInv(s, acts, Abs());
        ghost var more;
        creating', more := Interrupted(all[i], creating');
        acts := OneMoreAct(s, acts, more, Abs());
        ShorterNames(before, tcbTbl, xs, ys);
        i := i + 1;
      }
    }

    /** The walk stands at position k of the list it started on. */
    ghost predicate WalkIn(list: seq<nat>, names: seq<Prio>, k: nat, ptcb: nat)
      reads this`tcbTbl, this`places
    {
      && list <= places.active && NamesIn(tcbTbl, list) == names && k < |list|
      && ptcb == list[k] && ptcb < |tcbTbl|
    }

    /** A turn of that walk. */
    method TickInList(ptcb: nat, ghost k: nat, ghost list: seq<nat>, ghost names: seq<Prio>) returns (next: nat)
      requires Valid() && k > 0 && WalkIn(list, names, k, ptcb)
      modifies this`rdyGrp, this`rdyTbl, this`tcbTbl
      ensures Valid() && WalkIn(list, names, k - 1, next)
      ensures names[k] in old(Tasks()) && names[k] != lowestPrio && Abs() == TickOne(old(Abs()), names[k])
    {
      NameIs(tcbTbl, prioTbl, tcbList, tcbFreeList, places, k);
      FirstNames(tcbTbl, list, places.active, k);
      ghost var before := tcbTbl;
      next := TickTurn(ptcb, k);
      ShorterNames(before, tcbTbl, list, places.active);
    }

    /** ... after a run of these steps, which ticked the tasks behind position k. */
    ghost predicate Walking(s: State, list: seq<nat>, names: seq<Prio>, k: nat, ptcb: nat, creating: map<Prio, Creation>,
                            acts: seq<Action>)
      reads this
    {
      && Valid() && CreationsOk(prioTbl, places, creating) && WalkIn(list, names, k, ptcb)
      && KR.Reaches(s, acts, Abs()) && KR.TicksOf(acts) == KR.Down(names, k)
    }

    /** A turn, and what comes after it. */
    method TurnAndInterrupts(ptcb: nat, all: seq<Interrupt>, creating: map<Prio, Creation>,
                             ghost s: State, ghost list: seq<nat>, ghost names: seq<Prio>, ghost k: nat, ghost acts0: seq<Action>)
      returns (next: nat, creating': map<Prio, Creation>, ghost acts: seq<Action>)
      requires Walking(s, list, names, k, ptcb, creating, acts0) && tcbTbl[ptcb].prio != lowestPrio
      modifies this`tcbFreeList, this`places, this`prioTbl, this`tcbTbl, this`tcbList, this`rdyGrp, this`rdyTbl, this`eventTbl
      ensures k > 0 && Walking(s, list, names, k - 1, next, creating', acts) && next < |tcbTbl|
    {
      ListEnds(list, names, k, ptcb);
      KR.ReachedInv(s, acts0, Abs());
      next := TickInList(ptcb, k, list, names);
      ghost var ticked := OneMoreTick(s, acts0, names[k], Abs());
      ghost var now, ys := tcbTbl, places.active;
      creating', acts := InterruptedBy(all, creating, s, ticked);
      ShorterNames(now, tcbTbl, list, ys);
      StillFirst(list, ys, places.active);
    }

    /** OSTimeTick's walk with anything between its turns, whatever creations stand between their
        critical sections: every task on the list at its start but the idle one is ticked exactly
        once, in list order, and the walk ends; tasks linked meanwhile come in front of it and are
        not ticked. */
    method TickWalkInterrupted(between: nat -> seq<Interrupt>, creating: map<Prio, Creation>)
      returns (creating': map<Prio, Creation>, ghost acts: seq<Action>)
      requires Valid() && Inv(Abs()) && CreationsOk(prioTbl, places, creating) && places.active != []
      modifies this`tcbFreeList, this`places, this`prioTbl, this`tcbTbl, this`tcbList, this`rdyGrp, this`rdyTbl, this`eventTbl
      ensures Valid() && CreationsOk(prioTbl, places, creating') && KR.Reaches(old(Abs()), acts, Abs())
      ensures KR.TicksOf(acts) == KR.Down(old(NamesOf(tcbTbl, places)), 0)
    {
      ghost var s, list, names := Abs(), places.active, NamesOf(tcbTbl, places);
      WalkStarts(names);
      ghost var k, last;
      k, last, creating', acts := WalkInterrupted(tcbList, between, creating, s, list, names);
      ListEnds(list, names, k, last);
    }

    method WalkInterrupted(first: nat, between: nat -> seq<Interrupt>, creating: map<Prio, Creation>,
                           ghost s: State, ghost list: seq<nat>, ghost names: seq<Prio>)
      returns (ghost k: nat, ghost last: nat, creating': map<Prio, Creation>, ghost acts: seq<Action>)
      requires list != [] && Walking(s, list, names, |list| - 1, first, creating, [])
      modifies this`tcbFreeList, this`places, this`prioTbl, this`tcbTbl, this`tcbList, this`rdyGrp, this`rdyTbl, this`eventTbl
      ensures Walking(s, list, names, k, last, creating', acts) && tcbTbl[last].prio == lowestPrio
    {
      k, acts, creating' := |list| - 1, [], creating;
      var ptcb: nat, turn := first, 0;
      while tcbTbl[ptcb].prio != lowestPrio
        invariant ptcb < |tcbTbl| && Walking(s, list, names, k, ptcb, creating', acts)
        decreases k
      {
        ptcb, creating', acts := TurnAndInterrupts(ptcb, between(turn), creating', s, list, names, k, acts);
        k, turn := k - 1, turn + 1;
      }
      last := ptcb;
    }

    lemma ListEnds(list: seq<nat>, names: seq<Prio>, k: nat, ptcb: nat)
      requires Valid() && WalkIn(list, names, k, ptcb)
      ensures tcbTbl[ptcb].prio == lowestPrio <==> k == 0
    {
      NameIs(tcbTbl, prioTbl, tcbList, tcbFreeList, places, k);
      NameAt(tcbTbl, places.active, k);
    }

    // ---------- suspension (os_task.c) ----------

    /** The critical section of OSTaskSuspend. */
    method TaskSuspend(prio: Prio)
      requires Valid() && Inv(Abs()) && Enabled(Abs(), Suspend(prio))
      modifies this`rdyGrp, this`rdyTbl, this`tcbTbl
      ensures Valid() && Abs() == Apply(old(Abs()), Suspend(prio))
    {
      BlockOf(prio);
      var t := tcbTbl[prioTbl[prio]];
      MakeUnready(t);
      StoreTcb(prioTbl[prio], t.(stat := t.stat + {FSuspend}));
    }

    /** The critical section of OSTaskResume. */
    method TaskResume(prio: Prio)
      requires Valid() && Inv(Abs()) && Enabled(Abs(), Unsuspend(prio))
      modifies this`rdyGrp, this`rdyTbl, this`tcbTbl
      ensures Valid() && Abs() == Apply(old(Abs()), Unsuspend(prio))
    {
      ClearSuspend(prio);
    }

    method ClearSuspend(prio: Prio)
      requires Valid() && prio in Tasks()
      modifies this`rdyGrp, this`rdyTbl, this`tcbTbl
      ensures Valid() && Abs() == Unsuspended(old(Abs()), prio)
    {
      BlockOf(prio);
      var t := tcbTbl[prioTbl[prio]];
      if FSuspend in t.stat {
        t := t.(stat := t.stat - {FSuspend});
        StoreTcb(prioTbl[prio], t);
        if t.stat == {} {
          if t.dly == 0 {
            MakeReady(t);
          }
        }
      }
    }
  }

  /** Nothing, or one step that is not a tick, from one state to another. */
  ghost predicate AtMostOne(s: State, acts: seq<Action>, s': State)
    requires Inv(s)
  {
    if acts == [] then s' == s
    else |acts| == 1 && !acts[0].Tick? && Enabled(s, acts[0]) && s' == Apply(s, acts[0])
  }

  lemma CreateIsOne(s: State, q: Prio, s': State)
    requires Inv(s) && q !in s.tasks && s' == Created(s, q)
    ensures AtMostOne(s, [Create(q)], s')
  {
  }

  /** Begun, filled and linked, a creation is no longer in progress. */
  lemma Finished(cs: map<Prio, Creation>, q: Prio, c: Creation, c': Creation)
    requires q !in cs
    ensures cs[q := c][q := c'] - {q} == cs
  {
  }

  /** A run goes on with such a step. */
  lemma OneMoreAct(s: State, acts: seq<Action>, more: seq<Action>, s': State) returns (acts': seq<Action>)
    requires KR.Legal(s, acts) && Inv(KR.Run(s, acts)) && AtMostOne(KR.Run(s, acts), more, s')
    ensures KR.Reaches(s, acts', s') && KR.TicksOf(acts') == KR.TicksOf(acts)
  {
    acts' := acts;
    if more != [] {
      KR.RunKeepsInv(s, acts, more[0]);
      acts' := acts + [more[0]];
      KR.TicksConcat(acts, more[0]);
    }
  }

  lemma OneMoreTick(s: State, acts: seq<Action>, t: Prio, s': State) returns (acts': seq<Action>)
    requires KR.Legal(s, acts) && Inv(KR.Run(s, acts)) && Enabled(KR.Run(s, acts), Tick(t))
    requires s' == TickOne(KR.Run(s, acts), t)
    ensures KR.Reaches(s, acts', s') && KR.TicksOf(acts') == KR.TicksOf(acts) + [t]
  {
    KR.RunKeepsInv(s, acts, Tick(t));
    KR.TicksConcat(acts, Tick(t));
    acts' := acts + [Tick(t)];
  }

  lemma StillFirst<T>(a: seq<T>, b: seq<T>, c: seq<T>)
    requires a <= b <= c
    ensures a <= c
  {
  }

  /** What keeps the names of a list keeps those of its first part. */
  lemma ShorterNames(tcbs: seq<Tcb>, tcbs': seq<Tcb>, xs: seq<nat>, ys: seq<nat>)
    requires xs <= ys && NamesIn(tcbs', ys) == NamesIn(tcbs, ys)
    ensures NamesIn(tcbs', xs) == NamesIn(tcbs, xs)
  {
    forall k | 0 <= k < |xs|
      ensures NamesIn(tcbs', xs)[k] == NamesIn(tcbs, xs)[k]
    {
      FirstNames(tcbs, xs, ys, k);
      FirstNames(tcbs', xs, ys, k);
    }
  }
}
