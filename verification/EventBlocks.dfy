/** Event control blocks: a wait list as a bitmap, and a queue as a ring of message pointers. */
module EventBlocks {
  import opened PrioBitmap
  import opened KernelSpec

  /** OS_Q: buf is the array from OSQStart to OSQEnd, out and inp index OSQOut and OSQIn. */
  datatype Ring = Ring(buf: seq<Msg>, out: nat, inp: nat, entries: nat) {
    predicate Ok() {
      && entries <= |buf|
      && (|buf| > 0 ==> out < |buf| && inp < |buf| && inp == Wrap(out + entries))
    }

    function Wrap(i: nat): nat {
      if i < |buf| then i else i - |buf|
    }

    function Contents(): (q: seq<Msg>)
      requires Ok()
      ensures |q| == entries
    {
      seq(entries, i requires 0 <= i < entries => buf[Wrap(out + i)])
    }

    /** *OSQOut++, wrapping at OSQEnd. */
    function Pop(): Ring
      requires Ok() && entries > 0
    {
      this.(out := if out + 1 == |buf| then 0 else out + 1, entries := entries - 1)
    }

    /** *OSQIn++ = m, wrapping at OSQEnd. */
    function Push(m: Msg): Ring
      requires Ok() && entries < |buf|
    {
      this.(buf := buf[inp := m], inp := if inp + 1 == |buf| then 0 else inp + 1, entries := entries + 1)
    }
  }

  lemma PopTakesFirst(r: Ring)
    requires r.Ok() && r.entries > 0
    ensures r.Pop().Ok() && r.buf[r.out] == r.Contents()[0] && r.Pop().Contents() == r.Contents()[1..]
  {
    assert r.Contents()[0] == r.buf[r.Wrap(r.out)];
    forall i | 0 <= i < r.entries - 1
      ensures r.Pop().Contents()[i] == r.Contents()[1..][i]
    {
      assert r.Pop().Wrap(r.Pop().out + i) == r.Wrap(r.out + (i + 1));
    }
  }

  lemma PushAppends(r: Ring, m: Msg)
    requires r.Ok() && r.entries < |r.buf|
    ensures r.Push(m).Ok() && r.Push(m).Contents() == r.Contents() + [m]
  {
    forall i | 0 <= i < r.entries + 1
      ensures r.Push(m).Contents()[i] == (r.Contents() + [m])[i]
    {
      var at := r.Wrap(r.out + i);
      assert r.Push(m).Wrap(r.Push(m).out + i) == at;
      if i < r.entries {
        assert at != r.inp;
        assert r.Push(m).buf[at] == r.buf[at] == r.Contents()[i];
      } else {
        assert at == r.inp;
      }
    }
  }

  datatype Ecb = Ecb(kind: Kind, cnt: nat, ptr: Msg, q: Ring, grp: bv8, tbl: seq<bv8>) {
    /** size is OS_EVENT_TBL_SIZE. */
    ghost predicate Ok(size: nat) {
      q.Ok() && |tbl| == size && Agree(grp, tbl)
    }

    ghost function View(): Event
      requires q.Ok()
    {
      Event(kind, cnt, ptr, q.Contents(), |q.buf|, Members(tbl))
    }
  }

  ghost predicate EcbsOk(ecbs: seq<Ecb>, size: nat) {
    forall e {:trigger ecbs[e].Ok(size)} :: 0 <= e < |ecbs| ==> ecbs[e].Ok(size)
  }

  ghost function EventsOf(ecbs: seq<Ecb>, size: nat): seq<Event>
    requires EcbsOk(ecbs, size)
  {
    seq(|ecbs|, e requires 0 <= e < |ecbs| => (assert ecbs[e].Ok(size); ecbs[e].View()))
  }

  lemma UpdateEcb(ecbs: seq<Ecb>, size: nat, e: nat, b: Ecb)
    requires EcbsOk(ecbs, size) && e < |ecbs| && b.Ok(size)
    ensures EcbsOk(ecbs[e := b], size)
    ensures EventsOf(ecbs[e := b], size) == EventsOf(ecbs, size)[e := b.View()]
  {
    var ecbs' := ecbs[e := b];
    forall i | 0 <= i < |ecbs'|
      ensures ecbs'[i].Ok(size)
    {
      if i != e {
        assert ecbs[i].Ok(size);
      }
    }
  }

  lemma AppendEcb(ecbs: seq<Ecb>, size: nat, b: Ecb)
    requires EcbsOk(ecbs, size) && b.Ok(size)
    ensures EcbsOk(ecbs + [b], size)
    ensures EventsOf(ecbs + [b], size) == EventsOf(ecbs, size) + [b.View()]
  {
    var ecbs' := ecbs + [b];
    forall i | 0 <= i < |ecbs'|
      ensures ecbs'[i].Ok(size)
    {
      if i < |ecbs| {
        assert ecbs[i].Ok(size);
      }
    }
  }

  /** The wait-list statements of one block. */
  function Enlist(b: Ecb, y: nat, bitX: bv8, bitY: bv8): Ecb
    requires y < |b.tbl|
  {
    b.(tbl := WithBit(b.tbl, y, bitX), grp := b.grp | bitY)
  }

  function Delist(b: Ecb, y: nat, bitX: bv8, bitY: bv8): Ecb
    requires y < |b.tbl|
  {
    var tbl := WithoutBit(b.tbl, y, bitX);
    b.(tbl := tbl, grp := GroupAfter(b.grp, tbl, y, bitY))
  }

  lemma EnlistAdds(b: Ecb, size: nat, y: nat, x: nat)
    requires b.Ok(size) && y < size && x < 8
    ensures Enlist(b, y, Bit(x), Bit(y)).Ok(size)
    ensures Enlist(b, y, Bit(x), Bit(y)).View() == b.View().(waiters := b.View().waiters + {8 * y + x})
  {
    InsertAddsOne(b.grp, b.tbl, y, x);
  }

  lemma DelistDrops(b: Ecb, size: nat, y: nat, x: nat)
    requires b.Ok(size) && y < size && x < 8
    ensures Delist(b, y, Bit(x), Bit(y)).Ok(size)
    ensures Delist(b, y, Bit(x), Bit(y)).View() == b.View().(waiters := b.View().waiters - {8 * y + x})
  {
    RemoveDropsOne(b.grp, b.tbl, y, x);
  }

  // ---------- the loops over event arrays ----------

  function Add1(events: seq<Event>, t: Prio, e: EventId): seq<Event>
    requires e < |events|
  {
    events[e := events[e].(waiters := events[e].waiters + {t})]
  }

  function Drop1(events: seq<Event>, t: Prio, e: EventId): seq<Event>
    requires e < |events|
  {
    events[e := events[e].(waiters := events[e].waiters - {t})]
  }

  /** The loop of OS_EventTaskWaitMulti, one event after the other. */
  function AddEach(events: seq<Event>, t: Prio, es: seq<EventId>): (r: seq<Event>)
    requires InRange(|events|, es)
    ensures |r| == |events|
  {
    if es == [] then events else Add1(AddEach(events, t, es[..|es| - 1]), t, es[|es| - 1])
  }

  /** The loop of OS_EventTaskRemoveMulti. */
  function DropEach(events: seq<Event>, t: Prio, es: seq<EventId>): (r: seq<Event>)
    requires InRange(|events|, es)
    ensures |r| == |events|
  {
    if es == [] then events else Drop1(DropEach(events, t, es[..|es| - 1]), t, es[|es| - 1])
  }

  /** Visiting the events one by one, repeats and all, is joining or leaving each listed one. */
  lemma {:induction false} AddEachIsAddWaiter(events: seq<Event>, t: Prio, es: seq<EventId>)
    requires InRange(|events|, es)
    ensures AddEach(events, t, es) == AddWaiter(events, t, es)
  {
    if es != [] {
      var front, e := es[..|es| - 1], es[|es| - 1];
      AddEachIsAddWaiter(events, t, front);
      forall i | 0 <= i < |events|
        ensures AddEach(events, t, es)[i] == AddWaiter(events, t, es)[i]
      {
        assert es == front + [e];
        assert i in es <==> i in front || i == e;
        assert (events[i].waiters + {t}) + {t} == events[i].waiters + {t};
      }
    }
  }

  lemma {:induction false} DropEachIsDropWaiter(events: seq<Event>, t: Prio, es: seq<EventId>)
    requires InRange(|events|, es)
    ensures DropEach(events, t, es) == DropWaiter(events, t, es)
  {
    if es != [] {
      var front, e := es[..|es| - 1], es[|es| - 1];
      DropEachIsDropWaiter(events, t, front);
      forall i | 0 <= i < |events|
        ensures DropEach(events, t, es)[i] == DropWaiter(events, t, es)[i]
      {
        assert es == front + [e];
        assert i in es <==> i in front || i == e;
        assert (events[i].waiters - {t}) - {t} == events[i].waiters - {t};
      }
    }
  }

  lemma DropOne(events: seq<Event>, t: Prio, e: EventId)
    requires e < |events|
    ensures Drop1(events, t, e) == DropWaiter(events, t, [e])
  {
  }

  /** Leaving one event and then the listed ones. */
  lemma DropMore(events: seq<Event>, t: Prio, e: EventId, fs: seq<EventId>)
    requires e < |events| && InRange(|events|, fs)
    ensures DropEach(Drop1(events, t, e), t, fs) == DropWaiter(events, t, [e] + fs)
  {
    DropEachIsDropWaiter(Drop1(events, t, e), t, fs);
    var a, b := DropWaiter(Drop1(events, t, e), t, fs), DropWaiter(events, t, [e] + fs);
    forall i | 0 <= i < |events|
      ensures a[i] == b[i]
    {
      assert i in [e] + fs <==> i == e || i in fs;
      assert (events[i].waiters - {t}) - {t} == events[i].waiters - {t};
    }
  }
}
