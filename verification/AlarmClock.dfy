/** The HAL alarm list: a 32-bit tick counter that wraps, and alarms whose deadlines are kept
    modulo 2^32 together with a roll-over flag (alt_alarm_start.c, alt_tick.c). */
module AlarmClock {
  import opened Machine
  import opened Options

  type Id = nat

  datatype Alarm = Alarm(id: Id, time: U32, rollover: bool)

  datatype StartResult = Started | InvalidAlarm | NoClock

  // ---------- one alarm, one tick ----------

  function NewAlarm(id: Id, nticks: U32, now: U32): Alarm {
    var time := Word(nticks + now + 1);
    Alarm(id, time, time < now)
  }

  function Cleared(a: Alarm, now: U32): Alarm {
    if a.rollover && now == 0 then a.(rollover := false) else a
  }

  predicate Expired(a: Alarm, now: U32) {
    a.time <= now && !a.rollover
  }

  function Rearmed(a: Alarm, now: U32, period: U32): Alarm {
    var time := Word(a.time + period);
    a.(time := time, rollover := a.rollover || time < now)
  }

  function Without(list: seq<Alarm>, id: Id): (r: seq<Alarm>)
    ensures |r| <= |list|
  {
    if list == [] then []
    else Without(list[..|list| - 1], id) + (if list[|list| - 1].id == id then [] else [list[|list| - 1]])
  }

  predicate Listed(list: seq<Alarm>, id: Id) {
    exists i :: 0 <= i < |list| && list[i].id == id
  }

  // ---------- callbacks ----------

  /** What a callback may do: start and stop alarms. */
  datatype Op = OpStart(id: Id, ticks: U32) | OpStop(id: Id)

  /** ... and what it answers: the ticks until its next call, or 0. */
  datatype Reaction = Reaction(ops: seq<Op>, period: U32)

  function DoOp(list: seq<Alarm>, op: Op, now: U32): seq<Alarm> {
    match op
    case OpStart(id, ticks) => [NewAlarm(id, ticks, now)] + list
    case OpStop(id) => Without(list, id)
  }

  function DoOps(list: seq<Alarm>, ops: seq<Op>, now: U32): seq<Alarm>
    decreases |ops|
  {
    if ops == [] then list else DoOps(DoOp(list, ops[0], now), ops[1..], now)
  }

  predicate Stops(ops: seq<Op>, id: Id) {
    exists i :: 0 <= i < |ops| && ops[i] == OpStop(id)
  }

  /** What is left of a stretch of the list behind which nothing is started. */
  function Drop(list: seq<Alarm>, ops: seq<Op>): (r: seq<Alarm>)
    ensures |r| <= |list|
    decreases |ops|
  {
    if ops == [] then list
    else Drop(if ops[0].OpStop? then Without(list, ops[0].id) else list, ops[1..])
  }

  /** What is left of an alarm that was called. */
  function Called(a: Alarm, now: U32, r: Reaction): seq<Alarm> {
    if r.period == 0 || Stops(r.ops, a.id) then [] else [Rearmed(a, now, r.period)]
  }

  /** What a tick's walk leaves of the list, when it has left front behind it and has todo
      before it. */
  function WalkOf(front: seq<Alarm>, todo: seq<Alarm>, now: U32, does: Id -> Reaction): seq<Alarm>
    decreases |todo|
  {
    if todo == [] then front
    else
      var a, r := Cleared(todo[0], now), does(todo[0].id);
      if !Expired(a, now) then WalkOf(front + [a], todo[1..], now, does)
      else WalkOf(DoOps(front, r.ops, now) + Called(a, now, r), Drop(todo[1..], r.ops), now, does)
  }

  /** The callbacks it makes. */
  function CallsOf(todo: seq<Alarm>, now: U32, does: Id -> Reaction): seq<Id>
    decreases |todo|
  {
    if todo == [] then []
    else if !Expired(Cleared(todo[0], now), now) then CallsOf(todo[1..], now, does)
    else [todo[0].id] + CallsOf(Drop(todo[1..], does(todo[0].id).ops), now, does)
  }

  /** What callers must keep to: an alarm to start is not linked, and no callback starts its own. */
  predicate OpsOk(list: seq<Alarm>, ops: seq<Op>, self: Id, now: U32)
    decreases |ops|
  {
    ops == []
    || ((ops[0].OpStart? ==> !Listed(list, ops[0].id) && ops[0].id != self) && OpsOk(DoOp(list, ops[0], now), ops[1..], self, now))
  }

  /** A callback does not stop the alarm behind its own. */
  predicate Passes(rest: seq<Alarm>, ops: seq<Op>) {
    rest == [] || !Stops(ops, rest[0].id)
  }

  /** ... in the whole walk. */
  predicate Goes(front: seq<Alarm>, todo: seq<Alarm>, now: U32, does: Id -> Reaction)
    decreases |todo|
  {
    todo == []
    || var a, r := Cleared(todo[0], now), does(todo[0].id);
       if !Expired(a, now) then Goes(front + [a], todo[1..], now, does)
       else
         && OpsOk(front + [a] + todo[1..], r.ops, a.id, now) && Passes(todo[1..], r.ops)
         && Goes(DoOps(front, r.ops, now) + Called(a, now, r), Drop(todo[1..], r.ops), now, does)
  }

  predicate Unique(list: seq<Alarm>) {
    forall i, j :: 0 <= i < j < |list| ==> list[i].id != list[j].id
  }

  function FirstId(list: seq<Alarm>): Option<Id> {
    if list == [] then None else Some(list[0].id)
  }

  lemma {:induction false} WithoutConcat(a: seq<Alarm>, b: seq<Alarm>, id: Id)
    ensures Without(a + b, id) == Without(a, id) + Without(b, id)
  {
    if b == [] {
      assert a + b == a;
    } else {
      var n := |b| - 1;
      assert (a + b)[..|a + b| - 1] == a + b[..n];
      WithoutConcat(a, b[..n], id);
    }
  }

  lemma {:induction false} WithoutUnlisted(list: seq<Alarm>, id: Id)
    requires !Listed(list, id)
    ensures Without(list, id) == list
  {
    if list != [] {
      WithoutUnlisted(list[..|list| - 1], id);
    }
  }

  lemma WithoutLast(front: seq<Alarm>, a: Alarm, id: Id)
    ensures Without(front + [a], id) == if a.id == id then Without(front, id) else Without(front, id) + [a]
  {
    assert (front + [a])[..|front|] == front;
  }

  lemma WithoutOne(a: Alarm, id: Id)
    ensures Without([a], id) == if a.id == id then [] else [a]
  {
    assert [] + [a] == [a] && Without([], id) == [];
    WithoutLast([], a, id);
  }

  /** Stopping leaves the others, in order. */
  lemma {:induction false} WithoutKeeps(list: seq<Alarm>, id: Id, other: Id)
    ensures Listed(Without(list, id), other) <==> other != id && Listed(list, other)
    ensures Unique(list) ==> Unique(Without(list, id))
  {
    if list != [] {
      var front, a := list[..|list| - 1], list[|list| - 1];
      WithoutKeeps(front, id, other);
      WithoutKeeps(front, id, a.id);
      assert list == front + [a];
      WithoutLast(front, a, id);
      OneListed(front, a, other);
      OneListed(Without(front, id), a, other);
      if Unique(list) {
        assert !Listed(front, a.id);
      }
    }
  }

  lemma OneListed(front: seq<Alarm>, a: Alarm, id: Id)
    ensures Listed(front + [a], id) <==> Listed(front, id) || a.id == id
  {
    if Listed(front, id) {
      var i :| 0 <= i < |front| && front[i].id == id;
      assert (front + [a])[i].id == id;
    }
    if a.id == id {
      assert (front + [a])[|front|].id == id;
    }
  }

  lemma StopsNext(ops: seq<Op>, id: Id)
    requires ops != []
    ensures Stops(ops, id) <==> ops[0] == OpStop(id) || Stops(ops[1..], id)
  {
    if Stops(ops[1..], id) {
      var i :| 0 <= i < |ops[1..]| && ops[1..][i] == OpStop(id);
      assert ops[i + 1] == OpStop(id);
    }
    if Stops(ops, id) && ops[0] != OpStop(id) {
      var i :| 0 <= i < |ops| && ops[i] == OpStop(id);
      assert ops[1..][i - 1] == OpStop(id);
    }
  }

  /** What operations do in front of, to, and behind an alarm. */
  lemma {:induction false} OpsAround(front: seq<Alarm>, a: seq<Alarm>, rest: seq<Alarm>, ops: seq<Op>, now: U32)
    ensures DoOps(front + a + rest, ops, now) == DoOps(front, ops, now) + Drop(a, ops) + Drop(rest, ops)
    decreases |ops|
  {
    if ops != [] {
      var op, more := ops[0], ops[1..];
      match op {
        case OpStart(id, ticks) =>
          var n := [NewAlarm(id, ticks, now)];
          assert n + (front + a + rest) == (n + front) + a + rest;
          OpsAround(n + front, a, rest, more, now);
        case OpStop(id) =>
          WithoutConcat(front + a, rest, id);
          WithoutConcat(front, a, id);
          OpsAround(Without(front, id), Without(a, id), Without(rest, id), more, now);
      }
    }
  }

  lemma {:induction false} DropOne(a: Alarm, ops: seq<Op>)
    ensures Drop([a], ops) == if Stops(ops, a.id) then [] else [a]
    decreases |ops|
  {
    if ops != [] {
      StopsNext(ops, a.id);
      if ops[0] == OpStop(a.id) {
        WithoutOne(a, a.id);
        DropNone(ops[1..]);
      } else {
        WithoutOne(a, ops[0].id);
        DropOne(a, ops[1..]);
      }
    }
  }

  lemma {:induction false} DropNone(ops: seq<Op>)
    ensures Drop([], ops) == []
    decreases |ops|
  {
    if ops != [] {
      assert Without([], ops[0].id) == [];
      DropNone(ops[1..]);
    }
  }

  lemma {:induction false} DropConcat(a: seq<Alarm>, b: seq<Alarm>, ops: seq<Op>)
    ensures Drop(a + b, ops) == Drop(a, ops) + Drop(b, ops)
    decreases |ops|
  {
    if ops != [] {
      if ops[0].OpStop? {
        WithoutConcat(a, b, ops[0].id);
        DropConcat(Without(a, ops[0].id), Without(b, ops[0].id), ops[1..]);
      } else {
        DropConcat(a, b, ops[1..]);
      }
    }
  }

  /** A stretch that does not lose its first alarm starts with it. */
  lemma FirstStays(rest: seq<Alarm>, ops: seq<Op>)
    requires Passes(rest, ops)
    ensures FirstId(Drop(rest, ops)) == FirstId(rest)
    ensures rest != [] ==> Drop(rest, ops) != [] && Drop(rest, ops)[0] == rest[0]
  {
    if rest == [] {
      DropNone(ops);
    } else {
      assert rest == [rest[0]] + rest[1..];
      DropConcat([rest[0]], rest[1..], ops);
      DropOne(rest[0], ops);
    }
  }

  lemma {:induction false} OpsKeepUnique(list: seq<Alarm>, ops: seq<Op>, self: Id, now: U32)
    requires Unique(list) && OpsOk(list, ops, self, now)
    ensures Unique(DoOps(list, ops, now))
    decreases |ops|
  {
    if ops != [] {
      match ops[0] {
        case OpStart(id, ticks) => FrontUnique(NewAlarm(id, ticks, now), list);
        case OpStop(id) => WithoutKeeps(list, id, id);
      }
      OpsKeepUnique(DoOp(list, ops[0], now), ops[1..], self, now);
    }
  }

  lemma FrontUnique(a: Alarm, list: seq<Alarm>)
    requires Unique(list) && !Listed(list, a.id)
    ensures Unique([a] + list)
  {
  }

  lemma {:induction false} DropUnlisted(list: seq<Alarm>, ops: seq<Op>, id: Id)
    requires !Listed(list, id) || Stops(ops, id)
    ensures !Listed(Drop(list, ops), id)
    decreases |ops|
  {
    if ops != [] {
      StopsNext(ops, id);
      WithoutKeeps(list, ops[0].id, id);
      DropUnlisted(if ops[0].OpStop? then Without(list, ops[0].id) else list, ops[1..], id);
    }
  }

  /** No callback links its own alarm. */
  lemma {:induction false} OpsSpareSelf(list: seq<Alarm>, front: seq<Alarm>, ops: seq<Op>, self: Id, now: U32)
    requires OpsOk(list, ops, self, now) && !Listed(front, self)
    ensures !Listed(DoOps(front, ops, now), self)
    decreases |ops|
  {
    if ops != [] {
      if ops[0].OpStop? {
        WithoutKeeps(front, ops[0].id, self);
      }
      OpsSpareSelf(DoOp(list, ops[0], now), DoOp(front, ops[0], now), ops[1..], self, now);
    }
  }

  /** Where the list is when an alarm's callback has returned. */
  lemma CalledBack(front: seq<Alarm>, a: Alarm, rest: seq<Alarm>, ops: seq<Op>, now: U32)
    requires Unique(front + [a] + rest) && OpsOk(front + [a] + rest, ops, a.id, now) && Passes(rest, ops)
    ensures DoOps(front + [a] + rest, ops, now) == DoOps(front, ops, now) + Drop([a], ops) + Drop(rest, ops)
    ensures Drop([a], ops) == if Stops(ops, a.id) then [] else [a]
    ensures !Listed(DoOps(front, ops, now), a.id) && !Listed(Drop(rest, ops), a.id)
    ensures FirstId(Drop(rest, ops)) == FirstId(rest)
  {
    OpsAround(front, [a], rest, ops, now);
    DropOne(a, ops);
    FirstStays(rest, ops);
    AloneInList(front, a, rest);
    OpsSpareSelf(front + [a] + rest, front, ops, a.id, now);
    DropUnlisted(rest, ops, a.id);
  }

  lemma AloneInList(front: seq<Alarm>, a: Alarm, rest: seq<Alarm>)
    requires Unique(front + [a] + rest)
    ensures !Listed(front, a.id) && !Listed(rest, a.id)
  {
    var list := front + [a] + rest;
    assert list[|front|] == a;
    forall i | 0 <= i < |front|
      ensures front[i].id != a.id
    {
      assert list[i] == front[i];
    }
    forall i | 0 <= i < |rest|
      ensures rest[i].id != a.id
    {
      assert list[|front| + 1 + i] == rest[i];
    }
  }

  /** Clearing a flag moves no entry. */
  lemma SameEntry(front: seq<Alarm>, a: Alarm, rest: seq<Alarm>, b: Alarm)
    requires Unique(front + [a] + rest) && b.id == a.id
    ensures Unique(front + [b] + rest) && (front + [a] + rest)[|front| := b] == front + [b] + rest
  {
    var x, y := front + [a] + rest, front + [b] + rest;
    assert forall i :: 0 <= i < |x| ==> x[i].id == y[i].id;
  }

  // ---------- what happens to the list ----------

  datatype Act = Start(id: Id, ticks: U32) | Stop(gone: Id) | Tick(does: Id -> Reaction)

  datatype Clock = Clock(nticks: U32, list: seq<Alarm>)

  function Step(c: Clock, a: Act): Clock {
    match a
    case Start(id, ticks) => c.(list := [NewAlarm(id, ticks, c.nticks)] + c.list)
    case Stop(id) => c.(list := Without(c.list, id))
    case Tick(does) => Clock(Word(c.nticks + 1), WalkOf([], c.list, Word(c.nticks + 1), does))
  }

  // ---------- the running system ----------

  class Timer {
    var tickRate: U32
    var nticks: U32
    var list: seq<Alarm>

    /** No alarm is linked twice, and none without a system clock. */
    ghost predicate Valid()
      reads this
    {
      Unique(list) && (tickRate == 0 ==> list == [])
    }

    function View(): Clock
      reads this
    {
      Clock(nticks, list)
    }

    constructor (rate: U32)
      ensures Valid() && tickRate == rate && View() == Clock(0, [])
    {
      tickRate, nticks, list := rate, 0, [];
    }

    /** alt_alarm_start: the entry must not be linked already. */
    method AlarmStart(alarm: Option<Id>, ticks: U32) returns (r: StartResult)
      requires Valid() && (alarm.Some? ==> !Listed(list, alarm.value))
      modifies this`list
      ensures Valid()
      ensures tickRate == 0 ==> r == NoClock
      ensures tickRate != 0 ==> r == (if alarm.None? then InvalidAlarm else Started)
      ensures View() == if r == Started then Step(old(View()), Start(alarm.value, ticks)) else old(View())
    {
      if tickRate != 0 {
        if alarm.Some? {
          var time := Word(ticks + nticks + 1);
          var rollover := false;
          if time < nticks {
            rollover := true;
          }
          list := [Alarm(alarm.value, time, rollover)] + list;
          return Started;
        } else {
          return InvalidAlarm;
        }
      }
      return NoClock;
    }

    /** alt_alarm_stop: harmless on an alarm that is not linked. */
    method AlarmStop(id: Id)
      requires Valid()
      modifies this`list
      ensures Valid() && View() == Step(old(View()), Stop(id))
    {
      var kept, i := [], 0;
      while i < |list|
        invariant 0 <= i <= |list| && list == old(list)
        invariant kept == Without(list[..i], id)
      {
        if list[i].id != id {
          kept := kept + [list[i]];
        }
        assert list[..i + 1][..i] == list[..i];
        i := i + 1;
      }
      assert list[..i] == list;
      WithoutKeeps(list, id, id);
      assert Without([], id) == [];
      list := kept;
    }

    /** What a callback does to the list. */
    method CallBack(ops: seq<Op>, ghost self: Id)
      requires Valid() && tickRate != 0 && OpsOk(list, ops, self, nticks)
      modifies this`list
      ensures Valid() && list == DoOps(old(list), ops, nticks)
    {
      var i := 0;
      while i < |ops|
        invariant 0 <= i <= |ops| && Valid() && OpsOk(list, ops[i..], self, nticks)
        invariant DoOps(list, ops[i..], nticks) == DoOps(old(list), ops, nticks)
      {
        assert ops[i..][0] == ops[i] && ops[i..][1..] == ops[i + 1..];
        match ops[i] {
          case OpStart(id, ticks) => var _ := AlarmStart(Some(id), ticks);
          case OpStop(id) => AlarmStop(id);
        }
        i := i + 1;
      }
    }

    /** Where an entry is linked. */
    method Find(id: Id) returns (at: nat)
      ensures at <= |list| && (at < |list| ==> list[at].id == id)
      ensures forall i :: 0 <= i < at ==> list[i].id != id
    {
      at := 0;
      while at < |list| && list[at].id != id
        invariant at <= |list| && forall i :: 0 <= i < at ==> list[i].id != id
      {
        at := at + 1;
      }
    }

    /** What follows a callback that answered period > 0; the entry may be unlinked by now. */
    method Rearm(alarm: Alarm, period: U32, ghost before: seq<Alarm>, ghost after: seq<Alarm>)
      requires Valid() && !Listed(before, alarm.id) && !Listed(after, alarm.id)
      requires list == before + after || list == before + [alarm] + after
      modifies this`list
      ensures Valid()
      ensures list == if old(list) == before + after then before + after else before + [Rearmed(alarm, nticks, period)] + after
    {
      var time, rollover := Word(alarm.time + period), alarm.rollover;
      if time < nticks {
        rollover := true;
      }
      var at := Find(alarm.id);
      if at < |list| {
        assert at == |before|;
        list := list[at := Alarm(alarm.id, time, rollover)];
      }
    }

    /** What follows a callback. */
    method AfterCall(alarm: Alarm, r: Reaction, ghost before: seq<Alarm>, ghost after: seq<Alarm>)
      requires Valid() && !Listed(before, alarm.id) && !Listed(after, alarm.id)
      requires list == before + (if Stops(r.ops, alarm.id) then [] else [alarm]) + after
      modifies this`list
      ensures Valid() && list == before + Called(alarm, nticks, r) + after
    {
      if r.period == 0 {
        ghost var mine := if Stops(r.ops, alarm.id) then [] else [alarm];
        WithoutConcat(before + mine, after, alarm.id);
        WithoutConcat(before, mine, alarm.id);
        WithoutOne(alarm, alarm.id);
        WithoutUnlisted(before, alarm.id);
        WithoutUnlisted(after, alarm.id);
        assert Without([], alarm.id) == [];
        AlarmStop(alarm.id);
      } else {
        Rearm(alarm, r.period, before, after);
      }
    }

    /** One alarm's turn in the walk: id is the alarm the walk looks at, and next the one it will
        look at then, fixed before the callback. */
    method Turn(id: Id, does: Id -> Reaction, ghost front: seq<Alarm>, ghost todo: seq<Alarm>)
      returns (called: seq<Id>, next: Option<Id>, ghost front': seq<Alarm>, ghost todo': seq<Alarm>)
      requires Valid() && list == front + todo && FirstId(todo) == Some(id) && Goes(front, todo, nticks, does)
      modifies this`list
      ensures Valid() && list == front' + todo' && |todo'| < |todo|
      ensures next == FirstId(todo') && Goes(front', todo', nticks, does)
      ensures WalkOf(front', todo', nticks, does) == WalkOf(front, todo, nticks, does)
      ensures called + CallsOf(todo', nticks, does) == CallsOf(todo, nticks, does)
    {
      ghost var rest := todo[1..];
      assert list == front + [todo[0]] + rest;
      AloneInList(front, todo[0], rest);
      var at := Find(id);
      assert list[|front|] == todo[0] && forall i :: 0 <= i < |front| ==> list[i] == front[i];
      next := if at + 1 < |list| then Some(list[at + 1].id) else None;
      assert next == FirstId(rest);
      var alarm := list[at];
      if alarm.rollover && nticks == 0 {
        alarm := alarm.(rollover := false);
      }
      SameEntry(front, todo[0], rest, alarm);
      list := list[at := alarm];
      if alarm.time <= nticks && !alarm.rollover {
        var r := does(id);
        CalledBack(front, alarm, rest, r.ops, nticks);
        CallBack(r.ops, id);
        AfterCall(alarm, r, DoOps(front, r.ops, nticks), Drop(rest, r.ops));
        called, front', todo' := [id], DoOps(front, r.ops, nticks) + Called(alarm, nticks, r), Drop(rest, r.ops);
      } else {
        called, front', todo' := [], front + [alarm], rest;
      }
    }

    /** The walk over the list: every alarm that was linked gets exactly one turn, in list order,
        unless a callback stops it first; those that callbacks start get none. */
    method Walk(does: Id -> Reaction) returns (called: seq<Id>)
      requires Valid() && Goes([], list, nticks, does)
      modifies this`list
      ensures Valid() && list == WalkOf([], old(list), nticks, does) && called == CallsOf(old(list), nticks, does)
    {
      called := [];
      ghost var front, todo := [], list;
      var alarm := if list == [] then None else Some(list[0].id);
      while alarm.Some?
        invariant Valid() && list == front + todo && alarm == FirstId(todo) && Goes(front, todo, nticks, does)
        invariant WalkOf(front, todo, nticks, does) == WalkOf([], old(list), nticks, does)
        invariant called + CallsOf(todo, nticks, does) == CallsOf(old(list), nticks, does)
        decreases |todo|
      {
        var more, next;
        more, next, front, todo := Turn(alarm.value, does, front, todo);
        Regroup(called, more, CallsOf(todo, nticks, does));
        called, alarm := called + more, next;
      }
    }

    /** alt_tick. */
    method AltTick(does: Id -> Reaction) returns (called: seq<Id>)
      requires Valid() && Goes([], list, Word(nticks + 1), does)
      modifies this`nticks, this`list
      ensures Valid() && View() == Step(old(View()), Tick(does)) && called == CallsOf(old(list), nticks, does)
    {
      nticks := Word(nticks + 1);
      called := Walk(does);
    }
  }

  lemma Regroup<T>(a: seq<T>, b: seq<T>, c: seq<T>)
    ensures a + b + c == a + (b + c)
  {
  }
}
