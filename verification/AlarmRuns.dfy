/** The 32-bit alarm clock against an ideal one with unbounded time, over whole runs. */
module AlarmRuns {
  import opened Machine
  import opened Options
  import opened AlarmClock

  // ---------- the ideal clock: unbounded time, absolute deadlines ----------

  datatype Timed = Timed(id: Id, due: nat)

  function IdealWithout(list: seq<Timed>, id: Id): (r: seq<Timed>)
    ensures |r| <= |list|
  {
    if list == [] then []
    else IdealWithout(list[..|list| - 1], id) + (if list[|list| - 1].id == id then [] else [list[|list| - 1]])
  }

  function IdealOp(list: seq<Timed>, op: Op, now: nat): seq<Timed> {
    match op
    case OpStart(id, ticks) => [Timed(id, now + ticks + 1)] + list
    case OpStop(id) => IdealWithout(list, id)
  }

  function IdealOps(list: seq<Timed>, ops: seq<Op>, now: nat): seq<Timed>
    decreases |ops|
  {
    if ops == [] then list else IdealOps(IdealOp(list, ops[0], now), ops[1..], now)
  }

  function IdealDrop(list: seq<Timed>, ops: seq<Op>): (r: seq<Timed>)
    ensures |r| <= |list|
    decreases |ops|
  {
    if ops == [] then list
    else IdealDrop(if ops[0].OpStop? then IdealWithout(list, ops[0].id) else list, ops[1..])
  }

  function IdealCalled(d: Timed, now: nat, r: Reaction): seq<Timed> {
    if r.period == 0 || Stops(r.ops, d.id) then [] else [Timed(d.id, now + r.period)]
  }

  /** A tick of the ideal clock calls the alarms that are due, in order. */
  function IdealWalk(front: seq<Timed>, todo: seq<Timed>, now: nat, does: Id -> Reaction): seq<Timed>
    decreases |todo|
  {
    if todo == [] then front
    else
      var d, r := todo[0], does(todo[0].id);
      if d.due != now then IdealWalk(front + [d], todo[1..], now, does)
      else IdealWalk(IdealOps(front, r.ops, now) + IdealCalled(d, now, r), IdealDrop(todo[1..], r.ops), now, does)
  }

  function IdealCallsOf(todo: seq<Timed>, now: nat, does: Id -> Reaction): seq<Id>
    decreases |todo|
  {
    if todo == [] then []
    else if todo[0].due != now then IdealCallsOf(todo[1..], now, does)
    else [todo[0].id] + IdealCallsOf(IdealDrop(todo[1..], does(todo[0].id).ops), now, does)
  }

  /** The 32-bit alarm stands for the absolute deadline: same residue, and the flag tells
      whether the deadline lies in a later lap of the counter.  The last disjunct is the one
      longest delay, started on the last tick of a lap. */
  predicate Tracks(a: Alarm, d: Timed, now: nat) {
    && a.id == d.id && a.time == Word(d.due) && now < d.due
    && ((d.due - now < WRAP && a.rollover == (d.due / WRAP > now / WRAP))
        || (d.due - now == WRAP && Word(now) == WRAP - 1 && !a.rollover))
  }

  predicate TracksAll(list: seq<Alarm>, ideal: seq<Timed>, now: nat) {
    |list| == |ideal| && forall i :: 0 <= i < |list| ==> Tracks(list[i], ideal[i], now)
  }

  lemma NextTick(now: nat)
    ensures Word(now) == WRAP - 1 ==> Word(now + 1) == 0 && (now + 1) / WRAP == now / WRAP + 1
    ensures Word(now) != WRAP - 1 ==> Word(now + 1) == Word(now) + 1 && (now + 1) / WRAP == now / WRAP
  {
  }

  /** Which lap of the counter a deadline less than a lap away falls in. */
  lemma Lap(due: nat, now: nat)
    requires now <= due < now + WRAP
    ensures due / WRAP == now / WRAP || due / WRAP == now / WRAP + 1
    ensures due / WRAP == now / WRAP <==> Word(due) >= Word(now)
  {
  }

  lemma ClearedTracks(a: Alarm, d: Timed, now: nat)
    requires Tracks(a, d, now)
    ensures var c := Cleared(a, Word(now + 1));
            && c.id == d.id && c.time == Word(d.due) && now + 1 <= d.due < now + 1 + WRAP
            && c.rollover == (d.due / WRAP > (now + 1) / WRAP)
            && (Expired(c, Word(now + 1)) <==> d.due == now + 1)
  {
    NextTick(now);
    Lap(d.due, now + 1);
  }

  lemma RearmedTracks(c: Alarm, now: nat, period: U32)
    requires c.time == Word(now) && !c.rollover && period != 0
    ensures Tracks(Rearmed(c, Word(now), period), Timed(c.id, now + period), now)
  {
    Lap(now + period, now);
    assert Word(c.time + period) == Word(now + period);
  }

  /** One tick of one alarm. */
  lemma ServeTracks(a: Alarm, d: Timed, now: nat, r: Reaction)
    requires Tracks(a, d, now)
    ensures var t := Word(now + 1);
            var c := Cleared(a, t);
            && (Expired(c, t) <==> d.due == now + 1)
            && if Expired(c, t) then TracksAll(Called(c, t, r), IdealCalled(d, now + 1, r), now + 1) else Tracks(c, d, now + 1)
  {
    ClearedTracks(a, d, now);
    if d.due == now + 1 && r.period != 0 {
      RearmedTracks(Cleared(a, Word(now + 1)), now + 1, r.period);
    }
  }

  lemma {:induction false} WithoutTracks(list: seq<Alarm>, ideal: seq<Timed>, now: nat, id: Id)
    requires TracksAll(list, ideal, now)
    ensures TracksAll(Without(list, id), IdealWithout(ideal, id), now)
  {
    if list != [] {
      var n := |list| - 1;
      assert Tracks(list[n], ideal[n], now);
      WithoutTracks(list[..n], ideal[..n], now, id);
    }
  }

  /** Delays the 32-bit arithmetic can express from this counter value. */
  predicate Fits(ticks: U32, nticks: U32) {
    ticks < WRAP - 1 || nticks == WRAP - 1
  }

  predicate OpsFit(ops: seq<Op>, nticks: U32) {
    forall i :: 0 <= i < |ops| && ops[i].OpStart? ==> Fits(ops[i].ticks, nticks)
  }

  /** ... for everything that callbacks start. */
  predicate TickFits(todo: seq<Alarm>, now: U32, does: Id -> Reaction)
    decreases |todo|
  {
    todo == []
    || if !Expired(Cleared(todo[0], now), now) then TickFits(todo[1..], now, does)
       else OpsFit(does(todo[0].id).ops, now) && TickFits(Drop(todo[1..], does(todo[0].id).ops), now, does)
  }

  lemma NewAlarmTracksIffFits(id: Id, ticks: U32, now: nat)
    ensures Tracks(NewAlarm(id, ticks, Word(now)), Timed(id, now + ticks + 1), now) <==> Fits(ticks, Word(now))
  {
    var s := Word(ticks + Word(now) + 1);
    assert s == Word(now + ticks + 1);
  }

  lemma TracksFront(a: Alarm, d: Timed, list: seq<Alarm>, ideal: seq<Timed>, now: nat)
    requires Tracks(a, d, now) && TracksAll(list, ideal, now)
    ensures TracksAll([a] + list, [d] + ideal, now)
  {
  }

  lemma TracksConcat(a: seq<Alarm>, d: seq<Timed>, list: seq<Alarm>, ideal: seq<Timed>, now: nat)
    requires TracksAll(a, d, now) && TracksAll(list, ideal, now)
    ensures TracksAll(a + list, d + ideal, now)
  {
  }

  lemma OneTracks(a: Alarm, d: Timed, now: nat)
    requires Tracks(a, d, now)
    ensures TracksAll([a], [d], now)
  {
  }

  lemma OpTracks(list: seq<Alarm>, ideal: seq<Timed>, op: Op, now: nat)
    requires TracksAll(list, ideal, now) && (op.OpStart? ==> Fits(op.ticks, Word(now)))
    ensures TracksAll(DoOp(list, op, Word(now)), IdealOp(ideal, op, now), now)
  {
    match op {
      case OpStart(id, ticks) =>
        NewAlarmTracksIffFits(id, ticks, now);
        TracksFront(NewAlarm(id, ticks, Word(now)), Timed(id, now + ticks + 1), list, ideal, now);
      case OpStop(id) => WithoutTracks(list, ideal, now, id);
    }
  }

  lemma {:induction false} OpsTrack(list: seq<Alarm>, ideal: seq<Timed>, ops: seq<Op>, now: nat)
    requires TracksAll(list, ideal, now) && OpsFit(ops, Word(now))
    ensures TracksAll(DoOps(list, ops, Word(now)), IdealOps(ideal, ops, now), now)
    decreases |ops|
  {
    if ops != [] {
      OpTracks(list, ideal, ops[0], now);
      OpsTrack(DoOp(list, ops[0], Word(now)), IdealOp(ideal, ops[0], now), ops[1..], now);
    }
  }

  lemma {:induction false} DropTracks(list: seq<Alarm>, ideal: seq<Timed>, ops: seq<Op>, now: nat)
    requires TracksAll(list, ideal, now)
    ensures TracksAll(Drop(list, ops), IdealDrop(ideal, ops), now)
    decreases |ops|
  {
    if ops != [] {
      WithoutTracks(list, ideal, now, ops[0].id);
      if ops[0].OpStop? {
        DropTracks(Without(list, ops[0].id), IdealWithout(ideal, ops[0].id), ops[1..], now);
      } else {
        DropTracks(list, ideal, ops[1..], now);
      }
    }
  }

  /** A tick does to the 32-bit list what it does to the ideal one. */
  lemma {:induction false} WalkTracks(
    front: seq<Alarm>, before: seq<Timed>, todo: seq<Alarm>, ahead: seq<Timed>, now: nat, does: Id -> Reaction)
    requires TracksAll(front, before, now + 1) && TracksAll(todo, ahead, now) && TickFits(todo, Word(now + 1), does)
    ensures CallsOf(todo, Word(now + 1), does) == IdealCallsOf(ahead, now + 1, does)
    ensures TracksAll(WalkOf(front, todo, Word(now + 1), does), IdealWalk(before, ahead, now + 1, does), now + 1)
    decreases |todo|
  {
    if todo != [] {
      var t, r := Word(now + 1), does(todo[0].id);
      var a, d := Cleared(todo[0], t), ahead[0];
      ServeTracks(todo[0], d, now, r);
      RestTracks(todo, ahead, now);
      if Expired(a, t) {
        OpsTrack(front, before, r.ops, now + 1);
        TracksConcat(DoOps(front, r.ops, t), IdealOps(before, r.ops, now + 1), Called(a, t, r), IdealCalled(d, now + 1, r), now + 1);
        DropTracks(todo[1..], ahead[1..], r.ops, now);
        WalkTracks(DoOps(front, r.ops, t) + Called(a, t, r), IdealOps(before, r.ops, now + 1) + IdealCalled(d, now + 1, r),
                   Drop(todo[1..], r.ops), IdealDrop(ahead[1..], r.ops), now, does);
      } else {
        OneTracks(a, d, now + 1);
        TracksConcat(front, before, [a], [d], now + 1);
        WalkTracks(front + [a], before + [d], todo[1..], ahead[1..], now, does);
      }
    }
  }

  lemma RestTracks(todo: seq<Alarm>, ahead: seq<Timed>, now: nat)
    requires TracksAll(todo, ahead, now) && todo != []
    ensures Tracks(todo[0], ahead[0], now) && TracksAll(todo[1..], ahead[1..], now)
  {
  }

  // ---------- whole runs ----------

  datatype Ideal = Ideal(now: nat, list: seq<Timed>)

  /** The callbacks an action makes, in order. */
  function Made(c: Clock, a: Act): seq<Id> {
    if a.Tick? then CallsOf(c.list, Word(c.nticks + 1), a.does) else []
  }

  function IdealStep(i: Ideal, a: Act): Ideal {
    match a
    case Start(id, ticks) => i.(list := [Timed(id, i.now + ticks + 1)] + i.list)
    case Stop(id) => i.(list := IdealWithout(i.list, id))
    case Tick(does) => Ideal(i.now + 1, IdealWalk([], i.list, i.now + 1, does))
  }

  function IdealMade(i: Ideal, a: Act): seq<Id> {
    if a.Tick? then IdealCallsOf(i.list, i.now + 1, a.does) else []
  }

  /** The callbacks made by each action of a run. */
  function Trace(c: Clock, acts: seq<Act>): (trace: seq<seq<Id>>)
    ensures |trace| == |acts|
    decreases |acts|
  {
    if acts == [] then [] else [Made(c, acts[0])] + Trace(Step(c, acts[0]), acts[1..])
  }

  function IdealTrace(i: Ideal, acts: seq<Act>): (trace: seq<seq<Id>>)
    ensures |trace| == |acts|
    decreases |acts|
  {
    if acts == [] then [] else [IdealMade(i, acts[0])] + IdealTrace(IdealStep(i, acts[0]), acts[1..])
  }

  /** Callers keep to what they must, and a tick ends. */
  predicate Possible(c: Clock, a: Act) {
    match a
    case Start(id, _) => !Listed(c.list, id)
    case Stop(_) => true
    case Tick(does) => Goes([], c.list, Word(c.nticks + 1), does)
  }

  /** Every delay fits. */
  predicate FitsIn(c: Clock, a: Act) {
    match a
    case Start(_, ticks) => Fits(ticks, c.nticks)
    case Stop(_) => true
    case Tick(does) => TickFits(c.list, Word(c.nticks + 1), does)
  }

  predicate AllPossible(c: Clock, acts: seq<Act>)
    decreases |acts|
  {
    acts == [] || (Possible(c, acts[0]) && AllPossible(Step(c, acts[0]), acts[1..]))
  }

  predicate AllFit(c: Clock, acts: seq<Act>)
    decreases |acts|
  {
    acts == [] || (FitsIn(c, acts[0]) && AllFit(Step(c, acts[0]), acts[1..]))
  }

  predicate Simulates(c: Clock, i: Ideal) {
    c.nticks == Word(i.now) && TracksAll(c.list, i.list, i.now)
  }

  lemma StartSimulates(c: Clock, i: Ideal, id: Id, ticks: U32)
    requires Simulates(c, i) && Fits(ticks, c.nticks)
    ensures Simulates(Step(c, Start(id, ticks)), IdealStep(i, Start(id, ticks)))
  {
    NewAlarmTracksIffFits(id, ticks, i.now);
    var a, d := NewAlarm(id, ticks, c.nticks), Timed(id, i.now + ticks + 1);
    assert Tracks(a, d, i.now);
    TracksFront(a, d, c.list, i.list, i.now);
  }

  lemma TickSimulates(c: Clock, i: Ideal, does: Id -> Reaction)
    requires Simulates(c, i) && TickFits(c.list, Word(c.nticks + 1), does)
    ensures var a := Tick(does);
            Simulates(Step(c, a), IdealStep(i, a)) && Made(c, a) == IdealMade(i, a)
  {
    assert Word(c.nticks + 1) == Word(i.now + 1);
    WalkTracks([], [], c.list, i.list, i.now, does);
  }

  lemma StepSimulates(c: Clock, i: Ideal, a: Act)
    requires Simulates(c, i) && FitsIn(c, a)
    ensures Simulates(Step(c, a), IdealStep(i, a)) && Made(c, a) == IdealMade(i, a)
  {
    match a
    case Start(id, ticks) => StartSimulates(c, i, id, ticks);
    case Stop(id) => WithoutTracks(c.list, i.list, i.now, id);
    case Tick(does) => TickSimulates(c, i, does);
  }

  /** For unboundedly many ticks, starts and stops, and across every wrap of the counter, the
      32-bit clock makes exactly the callbacks of the ideal clock. */
  lemma {:induction false} RunIsIdeal(c: Clock, i: Ideal, acts: seq<Act>)
    requires Simulates(c, i) && AllFit(c, acts)
    ensures Trace(c, acts) == IdealTrace(i, acts)
    decreases |acts|
  {
    if acts != [] {
      StepSimulates(c, i, acts[0]);
      RunIsIdeal(Step(c, acts[0]), IdealStep(i, acts[0]), acts[1..]);
    }
  }

  function Final(c: Clock, acts: seq<Act>): Clock
    decreases |acts|
  {
    if acts == [] then c else Final(Step(c, acts[0]), acts[1..])
  }

  function IdealFinal(i: Ideal, acts: seq<Act>): Ideal
    decreases |acts|
  {
    if acts == [] then i else IdealFinal(IdealStep(i, acts[0]), acts[1..])
  }

  lemma {:induction false} RunSimulates(c: Clock, i: Ideal, acts: seq<Act>)
    requires Simulates(c, i) && AllFit(c, acts)
    ensures Simulates(Final(c, acts), IdealFinal(i, acts))
    decreases |acts|
  {
    if acts != [] {
      StepSimulates(c, i, acts[0]);
      RunSimulates(Step(c, acts[0]), IdealStep(i, acts[0]), acts[1..]);
    }
  }

  /** From the start on: the clock behaves as the ideal one throughout, and stands for it at the
      end. */
  lemma ReachableIsIdeal(acts: seq<Act>)
    requires AllFit(Clock(0, []), acts)
    ensures Trace(Clock(0, []), acts) == IdealTrace(Ideal(0, []), acts)
    ensures Simulates(Final(Clock(0, []), acts), IdealFinal(Ideal(0, []), acts))
  {
    RunIsIdeal(Clock(0, []), Ideal(0, []), acts);
    RunSimulates(Clock(0, []), Ideal(0, []), acts);
  }

  // ---------- the schedule of one alarm among the others ----------

  /** The schedule the documentation promises: first at due, then exactly k ticks after each
      call that returned k > 0, and never again after a call that returned 0; answer(t) is what
      the callback returns when it is called at tick t. */
  function Schedule(due: Option<nat>, end: nat, answer: nat -> U32): seq<nat>
    decreases due.Some?, if due.Some? then end - due.value else 0
  {
    if due.None? || due.value > end then []
    else [due.value] + Schedule(NextDue(due.value, answer(due.value)), end, answer)
  }

  function NextDue(now: nat, reply: U32): Option<nat> {
    if reply == 0 then None else Some(now + reply)
  }

  /** Unwrapped time after an action. */
  function After(now: nat, a: Act): nat {
    if a.Tick? then now + 1 else now
  }

  function End(acts: seq<Act>, now: nat): nat
    decreases |acts|
  {
    if acts == [] then now else End(acts[1..], After(now, acts[0]))
  }

  /** Ticks, counted without wrapping, at which a trace calls id. */
  function TimesOf(trace: seq<seq<Id>>, acts: seq<Act>, id: Id, now: nat): seq<nat>
    requires |trace| == |acts|
    decreases |acts|
  {
    if acts == [] then []
    else (if id in trace[0] then [After(now, acts[0])] else []) + TimesOf(trace[1..], acts[1..], id, After(now, acts[0]))
  }

  predicate Avoids(ops: seq<Op>, id: Id) {
    forall i :: 0 <= i < |ops| ==> ops[i].id != id
  }

  /** The action does not start or stop id, nor does any callback, and id's own callback says what
      answer says. */
  ghost predicate Spares(a: Act, id: Id, now: nat, answer: nat -> U32) {
    match a
    case Start(other, _) => other != id
    case Stop(other) => other != id
    case Tick(does) => does(id).period == answer(now + 1) && forall x: Id :: Avoids(does(x).ops, id)
  }

  ghost predicate LeftAlone(acts: seq<Act>, id: Id, now: nat, answer: nat -> U32)
    decreases |acts|
  {
    acts == [] || (Spares(acts[0], id, now, answer) && LeftAlone(acts[1..], id, After(now, acts[0]), answer))
  }

  function DueAfter(due: Option<nat>, now: nat, reply: U32): Option<nat> {
    if due == Some(now) then NextDue(now, reply) else due
  }

  /** The alarms of that name. */
  function Of(list: seq<Alarm>, id: Id): seq<Alarm> {
    if list == [] then []
    else Of(list[..|list| - 1], id) + (if list[|list| - 1].id == id then [list[|list| - 1]] else [])
  }

  lemma {:induction false} OfConcat(a: seq<Alarm>, b: seq<Alarm>, id: Id)
    ensures Of(a + b, id) == Of(a, id) + Of(b, id)
  {
    if b == [] {
      assert a + b == a;
    } else {
      var n := |b| - 1;
      assert (a + b)[..|a + b| - 1] == a + b[..n];
      OfConcat(a, b[..n], id);
    }
  }

  lemma OfOne(a: Alarm, id: Id)
    ensures Of([a], id) == if a.id == id then [a] else []
  {
    assert Of([a][..0], id) == [];
  }

  lemma {:induction false} OfUnlisted(list: seq<Alarm>, id: Id)
    requires !Listed(list, id)
    ensures Of(list, id) == []
  {
    if list != [] {
      OfUnlisted(list[..|list| - 1], id);
    }
  }

  /** A turn keeps the name. */
  lemma OfServed(a: Alarm, now: U32, r: Reaction, id: Id)
    ensures Of([Cleared(a, now)], id) == if a.id == id then [Cleared(a, now)] else []
    ensures Of(Called(Cleared(a, now), now, r), id) == if a.id == id then Called(Cleared(a, now), now, r) else []
  {
    OfOne(Cleared(a, now), id);
    OfOne(Rearmed(Cleared(a, now), now, r.period), id);
  }

  lemma OfFirst(list: seq<Alarm>, id: Id)
    requires list != []
    ensures Of(list, id) == (if list[0].id == id then [list[0]] else []) + Of(list[1..], id)
  {
    assert list == [list[0]] + list[1..];
    OfConcat([list[0]], list[1..], id);
    OfOne(list[0], id);
  }

  lemma {:induction false} StopIsSeparate(list: seq<Alarm>, gone: Id, id: Id)
    requires gone != id
    ensures Of(Without(list, gone), id) == Of(list, id)
  {
    if list != [] {
      var front, a := list[..|list| - 1], list[|list| - 1];
      StopIsSeparate(front, gone, id);
      OfConcat(Without(front, gone), if a.id == gone then [] else [a], id);
      OfOne(a, id);
    }
  }

  lemma {:induction false} OpsAreSeparate(list: seq<Alarm>, ops: seq<Op>, now: U32, id: Id)
    requires Avoids(ops, id)
    ensures Of(DoOps(list, ops, now), id) == Of(list, id)
    decreases |ops|
  {
    if ops != [] {
      match ops[0] {
        case OpStart(other, ticks) =>
          OfConcat([NewAlarm(other, ticks, now)], list, id);
          OfOne(NewAlarm(other, ticks, now), id);
        case OpStop(other) => StopIsSeparate(list, other, id);
      }
      OpsAreSeparate(DoOp(list, ops[0], now), ops[1..], now, id);
    }
  }

  lemma {:induction false} DropIsSeparate(list: seq<Alarm>, ops: seq<Op>, id: Id)
    requires Avoids(ops, id)
    ensures Of(Drop(list, ops), id) == Of(list, id)
    decreases |ops|
  {
    if ops != [] {
      if ops[0].OpStop? {
        StopIsSeparate(list, ops[0].id, id);
        DropIsSeparate(Without(list, ops[0].id), ops[1..], id);
      } else {
        DropIsSeparate(list, ops[1..], id);
      }
    }
  }

  /** What one tick leaves of an alarm; reply is what its callback would answer. */
  function Serve(a: Alarm, now: U32, reply: U32): seq<Alarm> {
    var c := Cleared(a, now);
    if !Expired(c, now) then [c]
    else if reply == 0 then []
    else [Rearmed(c, now, reply)]
  }

  function Calls(a: Alarm, now: U32): seq<Id> {
    if Expired(Cleared(a, now), now) then [a.id] else []
  }

  /** What a tick does to alarms of one name that nobody starts or stops. */
  function ServeAll(list: seq<Alarm>, now: U32, period: U32): seq<Alarm> {
    if list == [] then [] else Serve(list[0], now, period) + ServeAll(list[1..], now, period)
  }

  function CallsAll(list: seq<Alarm>, now: U32): seq<Id> {
    if list == [] then [] else Calls(list[0], now) + CallsAll(list[1..], now)
  }

  lemma ServeFirst(a: Alarm, list: seq<Alarm>, now: U32, period: U32)
    ensures ServeAll([a] + list, now, period) == Serve(a, now, period) + ServeAll(list, now, period)
    ensures CallsAll([a] + list, now) == Calls(a, now) + CallsAll(list, now)
  {
    assert ([a] + list)[1..] == list;
  }

  lemma ServeIsCalled(a: Alarm, now: U32, r: Reaction)
    requires Avoids(r.ops, a.id)
    ensures Serve(a, now, r.period) == if Expired(Cleared(a, now), now) then Called(Cleared(a, now), now, r) else [Cleared(a, now)]
  {
  }

  /** What a turn of the walk does to alarms of one name: it moves what it served of them from
      the stretch before it to the one behind it. */
  lemma TurnIsSeparate(
    front: seq<Alarm>, todo: seq<Alarm>, now: U32, r: Reaction, id: Id, served: seq<Alarm>, rest: seq<Alarm>, period: U32)
    requires todo != [] && Of(rest, id) == Of(todo[1..], id) && (todo[0].id == id ==> period == r.period)
    requires Of(served, id) == Of(front, id) + if todo[0].id == id then Serve(todo[0], now, r.period) else []
    ensures Of(served, id) + ServeAll(Of(rest, id), now, period) == Of(front, id) + ServeAll(Of(todo, id), now, period)
    ensures id in CallsAll(Of(todo, id), now) <==>
              (todo[0].id == id && Expired(Cleared(todo[0], now), now)) || id in CallsAll(Of(rest, id), now)
  {
    OfFirst(todo, id);
    if todo[0].id == id {
      ServedThen(Of(front, id), todo[0], Of(rest, id), now, period);
    } else {
      assert [] + Of(rest, id) == Of(rest, id) && Of(front, id) + [] == Of(front, id);
    }
  }

  lemma ServedThen(front: seq<Alarm>, a: Alarm, rest: seq<Alarm>, now: U32, period: U32)
    ensures front + Serve(a, now, period) + ServeAll(rest, now, period) == front + ServeAll([a] + rest, now, period)
    ensures a.id in CallsAll([a] + rest, now) <==> Expired(Cleared(a, now), now) || a.id in CallsAll(rest, now)
  {
    ServeFirst(a, rest, now, period);
    Regroup(front, Serve(a, now, period), ServeAll(rest, now, period));
  }

  lemma QuietIsSeparate(front: seq<Alarm>, a: Alarm, now: U32, period: U32, id: Id)
    requires !Expired(Cleared(a, now), now)
    ensures Of(front + [Cleared(a, now)], id) == Of(front, id) + if a.id == id then Serve(a, now, period) else []
  {
    OfConcat(front, [Cleared(a, now)], id);
    OfServed(a, now, Reaction([], period), id);
  }

  lemma CallIsSeparate(front: seq<Alarm>, a: Alarm, now: U32, r: Reaction, id: Id)
    requires Expired(Cleared(a, now), now) && Avoids(r.ops, id)
    ensures Of(DoOps(front, r.ops, now) + Called(Cleared(a, now), now, r), id)
            == Of(front, id) + if a.id == id then Serve(a, now, r.period) else []
  {
    OpsAreSeparate(front, r.ops, now, id);
    OfConcat(DoOps(front, r.ops, now), Called(Cleared(a, now), now, r), id);
    OfServed(a, now, r, id);
    if a.id == id {
      ServeIsCalled(a, now, r);
    }
  }

  /** What a tick does to an alarm depends on no other alarm, unless a callback starts or stops it. */
  lemma {:induction false} TickIsSeparate(front: seq<Alarm>, todo: seq<Alarm>, now: U32, does: Id -> Reaction, id: Id)
    requires forall x: Id :: Avoids(does(x).ops, id)
    ensures Of(WalkOf(front, todo, now, does), id) == Of(front, id) + ServeAll(Of(todo, id), now, does(id).period)
    ensures id in CallsOf(todo, now, does) <==> id in CallsAll(Of(todo, id), now)
    decreases |todo|
  {
    if todo == [] {
      assert ServeAll([], now, does(id).period) == [];
    } else {
      var a, r := Cleared(todo[0], now), does(todo[0].id);
      if Expired(a, now) {
        var served, rest := DoOps(front, r.ops, now) + Called(a, now, r), Drop(todo[1..], r.ops);
        CallIsSeparate(front, todo[0], now, r, id);
        DropIsSeparate(todo[1..], r.ops, id);
        TurnIsSeparate(front, todo, now, r, id, served, rest, does(id).period);
        TickIsSeparate(served, rest, now, does, id);
      } else {
        QuietIsSeparate(front, todo[0], now, r.period, id);
        TurnIsSeparate(front, todo, now, r, id, front + [a], todo[1..], does(id).period);
        TickIsSeparate(front + [a], todo[1..], now, does, id);
      }
    }
  }

  /** The alarm named id has this deadline, or is not linked. */
  predicate HasDue(c: Clock, id: Id, due: Option<nat>, now: nat) {
    c.nticks == Word(now) && TracksAll(Of(c.list, id), DueList(id, due), now)
  }

  function DueList(id: Id, due: Option<nat>): seq<Timed> {
    if due.Some? then [Timed(id, due.value)] else []
  }

  /** What a step does to id's deadline, and when it calls id, whatever the others do. */
  lemma StepMovesDue(c: Clock, a: Act, id: Id, due: Option<nat>, now: nat, answer: nat -> U32)
    requires HasDue(c, id, due, now) && Spares(a, id, now, answer)
    ensures HasDue(Step(c, a), id, Later(due, a, now, answer), After(now, a))
    ensures id in Made(c, a) <==> a.Tick? && due == Some(now + 1)
  {
    match a
    case Start(other, ticks) =>
      OfConcat([NewAlarm(other, ticks, c.nticks)], c.list, id);
      OfOne(NewAlarm(other, ticks, c.nticks), id);
    case Stop(gone) =>
      StopIsSeparate(c.list, gone, id);
    case Tick(does) =>
      TickMovesDue(c, does, id, due, now);
  }

  lemma TickMovesDue(c: Clock, does: Id -> Reaction, id: Id, due: Option<nat>, now: nat)
    requires HasDue(c, id, due, now) && forall x: Id :: Avoids(does(x).ops, id)
    ensures HasDue(Step(c, Tick(does)), id, DueAfter(due, now + 1, does(id).period), now + 1)
    ensures id in Made(c, Tick(does)) <==> due == Some(now + 1)
  {
    WordNext(now);
    TickIsSeparate([], c.list, Word(now + 1), does, id);
    OwnTick(Of(c.list, id), id, due, now, does(id).period);
    assert Of([], id) == [];
  }

  lemma WordNext(now: nat)
    ensures Word(Word(now) + 1) == Word(now + 1)
  {
  }

  lemma OwnTick(mine: seq<Alarm>, id: Id, due: Option<nat>, now: nat, period: U32)
    requires TracksAll(mine, DueList(id, due), now)
    ensures TracksAll(ServeAll(mine, Word(now + 1), period), DueList(id, DueAfter(due, now + 1, period)), now + 1)
    ensures id in CallsAll(mine, Word(now + 1)) <==> due == Some(now + 1)
  {
    if due.Some? {
      assert mine == [mine[0]] + [] && Tracks(mine[0], Timed(id, due.value), now);
      ServeFirst(mine[0], [], Word(now + 1), period);
      ServeTracks(mine[0], Timed(id, due.value), now, Reaction([], period));
      ServeIsCalled(mine[0], Word(now + 1), Reaction([], period));
    }
  }

  function Later(due: Option<nat>, a: Act, now: nat, answer: nat -> U32): Option<nat> {
    if a.Tick? then DueAfter(due, now + 1, answer(now + 1)) else due
  }

  lemma ScheduleStep(due: Option<nat>, a: Act, now: nat, end: nat, answer: nat -> U32)
    requires (due.Some? ==> now < due.value) && After(now, a) <= end
    ensures Schedule(due, end, answer)
            == (if a.Tick? && due == Some(now + 1) then [now + 1] else []) + Schedule(Later(due, a, now, answer), end, answer)
    ensures Later(due, a, now, answer).Some? ==> After(now, a) < Later(due, a, now, answer).value
  {
  }

  lemma {:induction false} EndIsLater(acts: seq<Act>, now: nat)
    ensures now <= End(acts, now)
    decreases |acts|
  {
    if acts != [] {
      EndIsLater(acts[1..], After(now, acts[0]));
    }
  }

  lemma TraceStep(c: Clock, acts: seq<Act>)
    requires acts != []
    ensures Trace(c, acts)[0] == Made(c, acts[0]) && Trace(c, acts)[1..] == Trace(Step(c, acts[0]), acts[1..])
  {
  }

  lemma {:induction false} DueKeepsSchedule(
    c: Clock, acts: seq<Act>, id: Id, due: Option<nat>, now: nat, answer: nat -> U32, trace: seq<seq<Id>>, end: nat)
    requires HasDue(c, id, due, now) && LeftAlone(acts, id, now, answer) && (due.Some? ==> now < due.value)
    requires trace == Trace(c, acts) && end == End(acts, now)
    ensures TimesOf(trace, acts, id, now) == Schedule(due, end, answer)
    decreases |acts|
  {
    if acts != [] {
      TraceStep(c, acts);
      EndIsLater(acts[1..], After(now, acts[0]));
      StepMovesDue(c, acts[0], id, due, now, answer);
      ScheduleStep(due, acts[0], now, end, answer);
      DueKeepsSchedule(Step(c, acts[0]), acts[1..], id, Later(due, acts[0], now, answer), After(now, acts[0]), answer, trace[1..], end);
    }
  }

  /** Whatever the other alarms do - start with any delay, stop, fire - id is called at exactly
      the ticks of its schedule. */
  ghost predicate KeepsSchedule(c: Clock, id: Id, due: nat, now: nat) {
    forall acts: seq<Act>, answer: nat -> U32 ::
      AllPossible(c, acts) && LeftAlone(acts, id, now, answer)
      ==> TimesOf(Trace(c, acts), acts, id, now) == Schedule(Some(due), End(acts, now), answer)
  }

  /** An alarm started with some delay keeps its schedule, for unboundedly many ticks, exactly
      when the delay is not the largest 32-bit value or the counter is just about to wrap. */
  lemma StartKeepsScheduleIffFits(c: Clock, id: Id, ticks: U32, now: nat)
    requires c.nticks == Word(now) && !Listed(c.list, id)
    ensures KeepsSchedule(Step(c, Start(id, ticks)), id, now + ticks + 1, now) <==> Fits(ticks, c.nticks)
  {
    if Fits(ticks, c.nticks) {
      FittingStartKeepsSchedule(c, id, ticks, now);
    } else {
      LongestDelayFiresAtOnce(c, id, now);
    }
  }

  lemma FittingStartKeepsSchedule(c: Clock, id: Id, ticks: U32, now: nat)
    requires c.nticks == Word(now) && !Listed(c.list, id) && Fits(ticks, c.nticks)
    ensures KeepsSchedule(Step(c, Start(id, ticks)), id, now + ticks + 1, now)
  {
    var c', due := Step(c, Start(id, ticks)), now + ticks + 1;
    StartedHasDue(c, id, ticks, now);
    forall acts: seq<Act>, answer: nat -> U32 | AllPossible(c', acts) && LeftAlone(acts, id, now, answer)
      ensures TimesOf(Trace(c', acts), acts, id, now) == Schedule(Some(due), End(acts, now), answer)
    {
      DueKeepsSchedule(c', acts, id, Some(due), now, answer, Trace(c', acts), End(acts, now));
    }
  }

  lemma StartedHasDue(c: Clock, id: Id, ticks: U32, now: nat)
    requires c.nticks == Word(now) && !Listed(c.list, id) && Fits(ticks, c.nticks)
    ensures HasDue(Step(c, Start(id, ticks)), id, Some(now + ticks + 1), now)
  {
    var a := NewAlarm(id, ticks, c.nticks);
    StartedIsAlone(c, id, ticks, a);
    NewAlarmTracksIffFits(id, ticks, now);
    OneTracks(a, Timed(id, now + ticks + 1), now);
  }

  lemma StartedIsAlone(c: Clock, id: Id, ticks: U32, a: Alarm)
    requires !Listed(c.list, id) && a == NewAlarm(id, ticks, c.nticks)
    ensures Of(Step(c, Start(id, ticks)).list, id) == [a] && Step(c, Start(id, ticks)).nticks == c.nticks
  {
    OfUnlisted(c.list, id);
    OfConcat([a], c.list, id);
    OfOne(a, id);
  }

  /** The failing family: the longest delay is called on the very next tick, even if nothing else
      happens. */
  lemma LongestDelayFiresAtOnce(c: Clock, id: Id, now: nat)
    requires c.nticks == Word(now) && c.nticks != WRAP - 1
    ensures !KeepsSchedule(Step(c, Start(id, WRAP - 1)), id, now + WRAP, now)
  {
    var c' := Step(c, Start(id, WRAP - 1));
    var a, t := NewAlarm(id, WRAP - 1, c.nticks), Word(c'.nticks + 1);
    LongestDelayIs(id, now);
    NextTick(now);
    var does, answer := (x: Id) => Reaction([], 0), (t: nat) => 0;
    var acts := [Tick(does)];
    OneQuietTick(c', does, id, now, answer);
    assert acts[1..] == [];
    assert c'.list[0] == a && Expired(Cleared(a, t), t);
    FirstIsCalled(c'.list, t, does);
    assert Trace(c', acts) == [CallsOf(c'.list, t, does)];
    assert now + 1 in TimesOf(Trace(c', acts), acts, id, now);
    assert End(acts, now) == now + 1;
    NotYetDue(now + WRAP, now + 1, answer);
  }

  lemma NotYetDue(due: nat, end: nat, answer: nat -> U32)
    requires due > end
    ensures Schedule(Some(due), end, answer) == []
  {
  }

  lemma FirstIsCalled(list: seq<Alarm>, now: U32, does: Id -> Reaction)
    requires list != [] && Expired(Cleared(list[0], now), now)
    ensures list[0].id in CallsOf(list, now, does)
  {
    assert CallsOf(list, now, does)[0] == list[0].id;
  }

  lemma OneQuietTick(c: Clock, does: Id -> Reaction, id: Id, now: nat, answer: nat -> U32)
    requires (forall x: Id :: does(x).ops == []) && does(id).period == answer(now + 1)
    ensures AllPossible(c, [Tick(does)]) && LeftAlone([Tick(does)], id, now, answer)
  {
    var acts := [Tick(does)];
    QuietGoes([], c.list, Word(c.nticks + 1), does);
    assert acts[1..] == [];
    assert Possible(c, acts[0]) && Spares(acts[0], id, now, answer);
    assert AllPossible(Step(c, acts[0]), acts[1..]);
  }

  /** Callbacks that start and stop nothing. */
  lemma {:induction false} QuietGoes(front: seq<Alarm>, todo: seq<Alarm>, now: U32, does: Id -> Reaction)
    requires forall x: Id :: does(x).ops == []
    ensures Goes(front, todo, now, does)
    decreases |todo|
  {
    if todo != [] {
      var a, r := Cleared(todo[0], now), does(todo[0].id);
      if Expired(a, now) {
        QuietGoes(DoOps(front, r.ops, now) + Called(a, now, r), Drop(todo[1..], r.ops), now, does);
      } else {
        QuietGoes(front + [a], todo[1..], now, does);
      }
    }
  }

  lemma LongestDelayIs(id: Id, now: nat)
    ensures NewAlarm(id, WRAP - 1, Word(now)).time == Word(now) && !NewAlarm(id, WRAP - 1, Word(now)).rollover
  {
    var c := Word(now);
    assert WRAP - 1 + c + 1 == WRAP + c;
  }
}
