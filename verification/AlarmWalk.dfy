/** When a tick's walk over the alarm list ends (alt_tick.c, alt_llist.h): the walk follows the
    next pointers entry by entry, whatever the callbacks do to the list meanwhile. */
module AlarmWalk {
  import opened Machine
  import opened AlarmClock

  /** Where a tick's walk stands: back at the list head, at a linked alarm, or at an entry no
      longer linked, which points to itself. */
  datatype Cursor = AtHead | On(id: Id) | Off(alarm: Alarm)

  datatype Walker = Walker(list: seq<Alarm>, at: Cursor)

  function Place(list: seq<Alarm>, id: Id): (i: nat)
    requires Listed(list, id)
    ensures i < |list| && list[i].id == id && forall j :: 0 <= j < i ==> list[j].id != id
  {
    if list[0].id == id then 0 else RestListed(list, id); 1 + Place(list[1..], id)
  }

  lemma RestListed(list: seq<Alarm>, id: Id)
    requires Listed(list, id) && list[0].id != id
    ensures Listed(list[1..], id)
  {
    var i :| 0 <= i < |list| && list[i].id == id;
    assert list[1..][i - 1] == list[i];
  }

  /** The next deadline, for an entry wherever it is linked. */
  function RearmIn(list: seq<Alarm>, id: Id, now: U32, period: U32): seq<Alarm> {
    if Listed(list, id) then list[Place(list, id) := Rearmed(list[Place(list, id)], now, period)] else list
  }

  /** What a callback and the statements after it leave of the list. */
  function AfterCallOf(list: seq<Alarm>, id: Id, now: U32, r: Reaction): seq<Alarm> {
    var l := DoOps(list, r.ops, now);
    if r.period == 0 then Without(l, id) else RearmIn(l, id, now, r.period)
  }

  /** Where an entry is that was linked behind another. */
  function Whereabouts(list: seq<Alarm>, next: seq<Alarm>): Cursor {
    if next == [] then AtHead else if Listed(list, next[0].id) then On(next[0].id) else Off(next[0])
  }

  /** One turn of the walk, wherever it stands. */
  function TurnOf(w: Walker, now: U32, does: Id -> Reaction): Walker {
    match w.at
    case AtHead => w
    case On(id) =>
      if !Listed(w.list, id) then w
      else
        var i := Place(w.list, id);
        var a := Cleared(w.list[i], now);
        var list := w.list[i := a];
        var left := if Expired(a, now) then AfterCallOf(list, id, now, does(id)) else list;
        Walker(left, Whereabouts(left, list[i + 1..]))
    case Off(alarm) =>
      var a := Cleared(alarm, now);
      if !Expired(a, now) then Walker(w.list, Off(a))
      else
        var r := does(a.id);
        var left := AfterCallOf(w.list, a.id, now, r);
        Walker(left, Whereabouts(left, [if r.period == 0 then a else Rearmed(a, now, r.period)]))
  }

  function Turns(w: Walker, now: U32, does: Id -> Reaction, k: nat): Walker
    decreases k
  {
    if k == 0 then w else Turns(TurnOf(w, now, does), now, does, k - 1)
  }

  /** The walk that a tick begins. */
  function Starting(list: seq<Alarm>): Walker {
    Walker(list, Whereabouts(list, list))
  }

  ghost predicate WalkEnds(list: seq<Alarm>, now: U32, does: Id -> Reaction) {
    exists k: nat :: Turns(Starting(list), now, does, k).at == AtHead
  }

  /** No callback of the walk stops the alarm behind its own. */
  predicate NoneStopsNext(todo: seq<Alarm>, now: U32, does: Id -> Reaction)
    decreases |todo|
  {
    todo == []
    || if !Expired(Cleared(todo[0], now), now) then NoneStopsNext(todo[1..], now, does)
       else Passes(todo[1..], does(todo[0].id).ops) && NoneStopsNext(Drop(todo[1..], does(todo[0].id).ops), now, does)
  }

  predicate Spared(ops: seq<Op>, id: Id) {
    forall i :: 0 <= i < |ops| ==> ops[i].OpStop? || ops[i].id != id
  }

  /** No callback starts one of these alarms. */
  ghost predicate NoRestart(list: seq<Alarm>, does: Id -> Reaction) {
    forall id: Id, x: Id :: Listed(list, id) ==> Spared(does(x).ops, id)
  }

  lemma {:induction false} SparedStaysOut(list: seq<Alarm>, ops: seq<Op>, id: Id, now: U32)
    requires Spared(ops, id) && (!Listed(list, id) || Stops(ops, id))
    ensures !Listed(DoOps(list, ops, now), id)
    decreases |ops|
  {
    if ops != [] {
      StopsNext(ops, id);
      if ops[0].OpStop? {
        WithoutKeeps(list, ops[0].id, id);
      } else {
        StartLists(list, ops[0], id, now);
      }
      SparedStaysOut(DoOp(list, ops[0], now), ops[1..], id, now);
    }
  }

  lemma StartLists(list: seq<Alarm>, op: Op, id: Id, now: U32)
    requires op.OpStart? && op.id != id
    ensures Listed(DoOp(list, op, now), id) <==> Listed(list, id)
  {
    var l := DoOp(list, op, now);
    if Listed(list, id) {
      var i :| 0 <= i < |list| && list[i].id == id;
      assert l[i + 1].id == id;
    }
    if Listed(l, id) {
      var i :| 0 <= i < |l| && l[i].id == id;
      assert list[i - 1].id == id;
    }
  }

  lemma RearmKeeps(list: seq<Alarm>, id: Id, now: U32, period: U32, other: Id)
    ensures Listed(RearmIn(list, id, now, period), other) <==> Listed(list, other)
  {
    var l := RearmIn(list, id, now, period);
    assert forall i :: 0 <= i < |list| ==> l[i].id == list[i].id;
  }

  /** An entry that its own callback and the one before it do not start stays out. */
  lemma CallSpares(list: seq<Alarm>, id: Id, now: U32, r: Reaction, other: Id)
    requires Spared(r.ops, other) && (!Listed(list, other) || Stops(r.ops, other))
    ensures !Listed(AfterCallOf(list, id, now, r), other)
  {
    SparedStaysOut(list, r.ops, other, now);
    WithoutKeeps(DoOps(list, r.ops, now), id, other);
    RearmKeeps(DoOps(list, r.ops, now), id, now, r.period, other);
  }

  /** A walk at an entry that is not linked stays there. */
  lemma {:induction false} OffForEver(w: Walker, now: U32, does: Id -> Reaction, k: nat)
    requires w.at.Off? && !Listed(w.list, w.at.alarm.id) && forall x: Id :: Spared(does(x).ops, w.at.alarm.id)
    ensures Turns(w, now, does, k).at != AtHead
    decreases k
  {
    if k > 0 {
      var id := w.at.alarm.id;
      CallSpares(w.list, id, now, does(id), id);
      OffForEver(TurnOf(w, now, does), now, does, k - 1);
    }
  }

  /** The walk has front behind it and todo before it. */
  ghost predicate Amid(w: Walker, front: seq<Alarm>, todo: seq<Alarm>, does: Id -> Reaction) {
    && w.list == front + todo && w.at == Whereabouts(todo, todo)
    && Unique(todo) && NoRestart(todo, does) && Apart(front, todo)
  }

  ghost predicate Apart(front: seq<Alarm>, todo: seq<Alarm>) {
    forall id: Id :: Listed(todo, id) ==> !Listed(front, id)
  }

  lemma PlaceBetween(front: seq<Alarm>, a: Alarm, rest: seq<Alarm>)
    requires !Listed(front, a.id)
    ensures Listed(front + [a] + rest, a.id) && Place(front + [a] + rest, a.id) == |front|
  {
    var list := front + [a] + rest;
    assert list[|front|] == a && forall i :: 0 <= i < |front| ==> list[i] == front[i];
  }

  lemma ConcatLists(a: seq<Alarm>, b: seq<Alarm>, id: Id)
    ensures Listed(a + b, id) <==> Listed(a, id) || Listed(b, id)
  {
    if Listed(a, id) {
      var i :| 0 <= i < |a| && a[i].id == id;
      assert (a + b)[i].id == id;
    }
    if Listed(b, id) {
      var i :| 0 <= i < |b| && b[i].id == id;
      assert (a + b)[|a| + i].id == id;
    }
  }

  lemma FirstAndRest(todo: seq<Alarm>, id: Id)
    requires todo != []
    ensures Listed(todo, id) <==> todo[0].id == id || Listed(todo[1..], id)
    ensures Unique(todo) ==> Unique(todo[1..]) && !Listed(todo[1..], todo[0].id)
  {
    assert todo == [todo[0]] + todo[1..];
    ConcatLists([todo[0]], todo[1..], id);
    assert Listed([todo[0]], id) <==> todo[0].id == id by {
      assert [todo[0]][0] == todo[0];
    }
  }

  lemma {:induction false} DropKeeps(list: seq<Alarm>, ops: seq<Op>, id: Id)
    ensures Listed(Drop(list, ops), id) ==> Listed(list, id)
    ensures Unique(list) ==> Unique(Drop(list, ops))
    decreases |ops|
  {
    if ops != [] {
      WithoutKeeps(list, ops[0].id, id);
      DropKeeps(if ops[0].OpStop? then Without(list, ops[0].id) else list, ops[1..], id);
    }
  }

  /** What is left of the rest is still apart from what is then behind the walk. */
  lemma StillApart(front: seq<Alarm>, a: Alarm, rest: seq<Alarm>, r: Reaction, now: U32, does: Id -> Reaction)
    requires Unique(rest) && !Listed(rest, a.id) && Apart(front, rest) && NoRestart(rest, does) && r == does(a.id)
    ensures var left := Drop(rest, r.ops);
            Unique(left) && NoRestart(left, does) && Apart(DoOps(front, r.ops, now) + Called(a, now, r), left)
  {
    var left, before, mine := Drop(rest, r.ops), DoOps(front, r.ops, now), Called(a, now, r);
    DropKeeps(rest, r.ops, a.id);
    forall id: Id | Listed(left, id)
      ensures Listed(rest, id) && !Listed(before + mine, id)
    {
      DropKeeps(rest, r.ops, id);
      assert Spared(does(a.id).ops, id);
      SparedStaysOut(front, r.ops, id, now);
      ConcatLists(before, mine, id);
      assert Listed(mine, id) ==> id == a.id;
    }
  }

  lemma QuietTurn(w: Walker, front: seq<Alarm>, todo: seq<Alarm>, now: U32, does: Id -> Reaction)
    requires Amid(w, front, todo, does) && todo != [] && !Expired(Cleared(todo[0], now), now)
    ensures Amid(TurnOf(w, now, does), front + [Cleared(todo[0], now)], todo[1..], does)
  {
    var a, rest := Cleared(todo[0], now), todo[1..];
    FirstAndRest(todo, todo[0].id);
    WhereItIs(w, front, todo, does);
    assert w.list[|front| := a] == front + [a] + rest;
    forall id: Id | Listed(rest, id)
      ensures Listed(todo, id) && !Listed(front + [a], id)
    {
      FirstAndRest(todo, id);
      OneListed(front, a, id);
    }
    NextIs(front + [a], rest);
  }

  lemma WhereItIs(w: Walker, front: seq<Alarm>, todo: seq<Alarm>, does: Id -> Reaction)
    requires Amid(w, front, todo, does) && todo != []
    ensures w.at == On(todo[0].id) && Listed(w.list, todo[0].id) && Place(w.list, todo[0].id) == |front|
    ensures w.list == front + [todo[0]] + todo[1..]
  {
    FirstAndRest(todo, todo[0].id);
    assert w.list == front + [todo[0]] + todo[1..];
    PlaceBetween(front, todo[0], todo[1..]);
  }

  lemma NextIs(front: seq<Alarm>, rest: seq<Alarm>)
    ensures Whereabouts(front + rest, rest) == Whereabouts(rest, rest)
  {
    if rest != [] {
      assert rest[0].id == rest[0].id && Listed(rest, rest[0].id);
      ConcatLists(front, rest, rest[0].id);
    }
  }

  lemma AfterCallIs(front: seq<Alarm>, a: Alarm, rest: seq<Alarm>, now: U32, r: Reaction)
    requires !Listed(front, a.id) && !Listed(rest, a.id) && Spared(r.ops, a.id)
    ensures AfterCallOf(front + [a] + rest, a.id, now, r) == DoOps(front, r.ops, now) + Called(a, now, r) + Drop(rest, r.ops)
  {
    var before, after := DoOps(front, r.ops, now), Drop(rest, r.ops);
    OpsAround(front, [a], rest, r.ops, now);
    DropOne(a, r.ops);
    SparedStaysOut(front, r.ops, a.id, now);
    DropUnlisted(rest, r.ops, a.id);
    if Stops(r.ops, a.id) {
      GoneBetween(before, after, a.id, now, r.period, before + [] + after);
    } else {
      OneBetween(before, a, after, now, r.period);
    }
  }

  lemma GoneBetween(before: seq<Alarm>, after: seq<Alarm>, id: Id, now: U32, period: U32, list: seq<Alarm>)
    requires !Listed(before, id) && !Listed(after, id) && list == before + [] + after
    ensures Without(list, id) == list && RearmIn(list, id, now, period) == list
  {
    ConcatLists(before, [], id);
    ConcatLists(before + [], after, id);
    WithoutUnlisted(list, id);
  }

  lemma OneBetween(before: seq<Alarm>, a: Alarm, after: seq<Alarm>, now: U32, period: U32)
    requires !Listed(before, a.id) && !Listed(after, a.id)
    ensures Without(before + [a] + after, a.id) == before + [] + after
    ensures RearmIn(before + [a] + after, a.id, now, period) == before + [Rearmed(a, now, period)] + after
  {
    WithoutConcat(before + [a], after, a.id);
    WithoutConcat(before, [a], a.id);
    WithoutOne(a, a.id);
    WithoutUnlisted(before, a.id);
    WithoutUnlisted(after, a.id);
    PlaceBetween(before, a, after);
    PutBetween(before, a, after, Rearmed(a, now, period));
  }

  lemma PutBetween(before: seq<Alarm>, a: Alarm, after: seq<Alarm>, b: Alarm)
    ensures (before + [a] + after)[|before|] == a && (before + [a] + after)[|before| := b] == before + [b] + after
  {
  }

  /** A turn that calls the callback. */
  lemma CallingTurn(w: Walker, front: seq<Alarm>, todo: seq<Alarm>, now: U32, does: Id -> Reaction)
    requires Amid(w, front, todo, does) && todo != [] && Expired(Cleared(todo[0], now), now)
    ensures var a, rest, r := Cleared(todo[0], now), todo[1..], does(todo[0].id);
            if Passes(rest, r.ops) then Amid(TurnOf(w, now, does), DoOps(front, r.ops, now) + Called(a, now, r), Drop(rest, r.ops), does)
            else Strays(TurnOf(w, now, does), does)
  {
    var a, rest, r := Cleared(todo[0], now), todo[1..], does(todo[0].id);
    FirstAndRest(todo, a.id);
    WhereItIs(w, front, todo, does);
    assert w.list[|front| := a] == front + [a] + rest && (front + [a] + rest)[|front| + 1..] == rest;
    forall id: Id | Listed(rest, id)
      ensures Listed(todo, id)
    {
      FirstAndRest(todo, id);
    }
    StillApart(front, a, rest, r, now, does);
    AfterCallIs(front, a, rest, now, r);
    TurnsTo(front, a, rest, r, now, does);
  }

  /** The walk is at an entry that is not linked, and no callback will link it. */
  ghost predicate Strays(w: Walker, does: Id -> Reaction) {
    w.at.Off? && !Listed(w.list, w.at.alarm.id) && forall x: Id :: Spared(does(x).ops, w.at.alarm.id)
  }

  /** Where the walk goes on. */
  lemma TurnsTo(front: seq<Alarm>, a: Alarm, rest: seq<Alarm>, r: Reaction, now: U32, does: Id -> Reaction)
    requires !Listed(rest, a.id) && NoRestart(rest, does) && r == does(a.id) && Apart(front, rest)
    requires Unique(rest)
    ensures var left, after := DoOps(front, r.ops, now) + Called(a, now, r) + Drop(rest, r.ops), Drop(rest, r.ops);
            if Passes(rest, r.ops) then Whereabouts(left, rest) == Whereabouts(after, after)
            else Strays(Walker(left, Whereabouts(left, rest)), does)
  {
    var before, after := DoOps(front, r.ops, now) + Called(a, now, r), Drop(rest, r.ops);
    if Passes(rest, r.ops) {
      FirstStays(rest, r.ops);
      NextIs(before, after);
    } else {
      var id := rest[0].id;
      FirstAndRest(rest, id);
      DropUnlisted(rest, r.ops, id);
      StrayIsOut(front, a, r, now, id);
      ConcatLists(before, after, id);
    }
  }

  lemma StrayIsOut(front: seq<Alarm>, a: Alarm, r: Reaction, now: U32, id: Id)
    requires !Listed(front, id) && Spared(r.ops, id) && a.id != id
    ensures !Listed(DoOps(front, r.ops, now) + Called(a, now, r), id)
  {
    SparedStaysOut(front, r.ops, id, now);
    ConcatLists(DoOps(front, r.ops, now), Called(a, now, r), id);
  }

  /** The walk goes on, or strays. */
  lemma OneTurn(w: Walker, front: seq<Alarm>, todo: seq<Alarm>, now: U32, does: Id -> Reaction)
    returns (front': seq<Alarm>, todo': seq<Alarm>)
    requires Amid(w, front, todo, does) && todo != []
    ensures NoneStopsNext(todo, now, does) ==> !Strays(TurnOf(w, now, does), does)
    ensures !Strays(TurnOf(w, now, does), does) ==>
              && Amid(TurnOf(w, now, does), front', todo', does) && |todo'| < |todo|
              && (NoneStopsNext(todo', now, does) <==> NoneStopsNext(todo, now, does))
              && WalkOf(front', todo', now, does) == WalkOf(front, todo, now, does)
  {
    var a, r := Cleared(todo[0], now), does(todo[0].id);
    if Expired(a, now) {
      CallingTurn(w, front, todo, now, does);
      front', todo' := DoOps(front, r.ops, now) + Called(a, now, r), Drop(todo[1..], r.ops);
    } else {
      QuietTurn(w, front, todo, now, does);
      front', todo' := front + [a], todo[1..];
    }
    AmidIsOn(TurnOf(w, now, does), front', todo', does);
  }

  lemma AmidIsOn(w: Walker, front: seq<Alarm>, todo: seq<Alarm>, does: Id -> Reaction)
    ensures Amid(w, front, todo, does) ==> !w.at.Off? && (todo != [] ==> w.at == On(todo[0].id))
  {
    if todo != [] {
      assert todo[0].id == todo[0].id && Listed(todo, todo[0].id);
    }
  }

  lemma {:induction false} EndsAfter(w: Walker, front: seq<Alarm>, todo: seq<Alarm>, now: U32, does: Id -> Reaction) returns (k: nat)
    requires Amid(w, front, todo, does) && NoneStopsNext(todo, now, does)
    ensures Turns(w, now, does, k) == Walker(WalkOf(front, todo, now, does), AtHead)
    decreases |todo|
  {
    if todo == [] {
      k := 0;
    } else {
      var front', todo' := OneTurn(w, front, todo, now, does);
      k := EndsAfter(TurnOf(w, now, does), front', todo', now, does);
      k := k + 1;
    }
  }

  lemma {:induction false} NeverEnds(w: Walker, front: seq<Alarm>, todo: seq<Alarm>, now: U32, does: Id -> Reaction, k: nat)
    requires Amid(w, front, todo, does) && !NoneStopsNext(todo, now, does)
    ensures Turns(w, now, does, k).at != AtHead
    decreases k
  {
    AmidIsOn(w, front, todo, does);
    if k > 0 {
      var front', todo' := OneTurn(w, front, todo, now, does);
      if Strays(TurnOf(w, now, does), does) {
        OffForEver(TurnOf(w, now, does), now, does, k - 1);
      } else {
        NeverEnds(TurnOf(w, now, does), front', todo', now, does, k - 1);
      }
    }
  }

  /** With callbacks that start only alarms not on the list, a tick ends if and only if no
      callback it makes stops the alarm behind its own; it then leaves what WalkOf says. */
  lemma WalkEndsIff(list: seq<Alarm>, now: U32, does: Id -> Reaction)
    requires Unique(list) && NoRestart(list, does)
    ensures WalkEnds(list, now, does) <==> NoneStopsNext(list, now, does)
    ensures WalkEnds(list, now, does) ==>
              exists k: nat :: Turns(Starting(list), now, does, k) == Walker(WalkOf([], list, now, does), AtHead)
  {
    assert [] + list == list;
    assert Amid(Starting(list), [], list, does);
    if NoneStopsNext(list, now, does) {
      var k := EndsAfter(Starting(list), [], list, now, does);
    } else {
      forall k: nat
        ensures Turns(Starting(list), now, does, k).at != AtHead
      {
        NeverEnds(Starting(list), [], list, now, does, k);
      }
    }
  }

  /** A walk that goes as callers must keep it stops no alarm behind the one called. */
  lemma {:induction false} GoesOn(front: seq<Alarm>, todo: seq<Alarm>, now: U32, does: Id -> Reaction)
    requires Goes(front, todo, now, does)
    ensures NoneStopsNext(todo, now, does)
    decreases |todo|
  {
    if todo != [] {
      var a, r := Cleared(todo[0], now), does(todo[0].id);
      if Expired(a, now) {
        GoesOn(DoOps(front, r.ops, now) + Called(a, now, r), Drop(todo[1..], r.ops), now, does);
      } else {
        GoesOn(front + [a], todo[1..], now, does);
      }
    }
  }

  /** Two alarms, the first of which stops the second when it is called: the tick never ends. */
  lemma TickHangs(p: Id, q: Id, now: U32, later: U32, period: U32)
    requires p != q
    ensures !WalkEnds([Alarm(p, now, false), Alarm(q, later, false)], now, (id: Id) => Reaction([OpStop(q)], period))
  {
    var list, does := [Alarm(p, now, false), Alarm(q, later, false)], (id: Id) => Reaction([OpStop(q)], period);
    assert list[1..][0].id == q && does(p).ops[0] == OpStop(q);
    assert !Passes(list[1..], does(p).ops);
    WalkEndsIff(list, now, does);
  }
}
