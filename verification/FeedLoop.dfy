/** The feed and drain loop of the query firmware (network_tasks.c) against a device that runs
    in parallel.  The device is any machine that only takes words out of its input FIFO, only
    puts words into its output FIFO, outputs finitely many words, and outputs none once it
    reports DONE; which of its moves happen before each register access is given by an
    arbitrary function, so every contract below holds for every device and every timing. */
module FeedLoop {
  import opened Machine

  const HW_STALL_MAX_CYCLES := 5000000
  const WORD := 4

  // ---------- words and bytes ----------

  function ReadLe32(s: seq<Byte>, i: nat): U32
    requires i + WORD <= |s|
  {
    s[i] as int + 0x100 * s[i + 1] as int + 0x1_0000 * s[i + 2] as int + 0x100_0000 * s[i + 3] as int
  }

  function BytesOf(w: U32): (b: seq<Byte>)
    ensures |b| == WORD
  {
    [w % 0x100, w / 0x100 % 0x100, w / 0x1_0000 % 0x100, w / 0x100_0000]
  }

  lemma WordBytes(w: U32)
    ensures ReadLe32(BytesOf(w), 0) == w
  {
    var a, b := w / 0x100, w / 0x1_0000;
    assert b == a / 0x100 && w / 0x100_0000 == b / 0x100;
    assert w == w % 0x100 + 0x100 * a && a == a % 0x100 + 0x100 * b && b == b % 0x100 + 0x100 * (b / 0x100);
  }

  lemma ReadSide(a: seq<Byte>, b: seq<Byte>, i: nat)
    ensures i + WORD <= |a| ==> ReadLe32(a + b, i) == ReadLe32(a, i)
    ensures |b| >= WORD ==> ReadLe32(a + b, |a|) == ReadLe32(b, 0)
  {
  }

  /** The first n words of a memory. */
  function Words(s: seq<Byte>, n: nat): (r: seq<U32>)
    requires WORD * n <= |s|
    ensures |r| == n
  {
    if n == 0 then [] else Words(s, n - 1) + [ReadLe32(s, WORD * (n - 1))]
  }

  function Bytes(ws: seq<U32>): (b: seq<Byte>)
    ensures |b| == WORD * |ws|
  {
    if ws == [] then [] else Bytes(ws[..|ws| - 1]) + BytesOf(ws[|ws| - 1])
  }

  /** Words that fit a byte limit, counting a last partial one in. */
  function Room(limit: int): nat {
    if limit <= 0 then 0 else (limit + WORD - 1) / WORD
  }

  // ---------- the device ----------

  /** What the device does before a register access. */
  datatype Move = Move(take: nat, give: seq<U32>, done: bool)

  /** What the STATUS register shows after a move; polled says that one of the two waiting loops
      read it then, sent counts the words written before it, late the moves since the end of
      input was signalled. */
  datatype Status = Status(turn: nat, polled: bool, inFull: bool, outEmpty: bool, done: bool, sent: nat, late: nat)

  /** The statuses after all moves so far. */
  datatype History = Start | Then(before: History, last: Status)

  /** What a status tells about the device. */
  predicate Shows(e: Status, inSize: nat, moves: (nat, nat) -> Move) {
    && (e.inFull && inSize > 0 ==> moves(e.turn, e.late).take == 0)
    && (moves(e.turn, e.late).done ==> e.done)
  }

  /** What it has to do with the one before: a device that is done puts nothing more out. */
  predicate Succeeds(p: Status, e: Status) {
    && p.sent <= e.sent && p.late <= e.late && (e.late > 0 ==> e.late == p.late + 1)
    && (p.done ==> e.done && (p.outEmpty ==> e.outEmpty))
  }

  predicate Faithful(h: History, inSize: nat, moves: (nat, nat) -> Move) {
    match h
    case Start => true
    case Then(before, e) =>
      Faithful(before, inSize, moves) && Shows(e, inSize, moves) && (before.Then? ==> Succeeds(before.last, e))
  }

  /** How often the feeding loop polled the input FIFO full since the sent-th word was written. */
  function Fulls(h: History, sent: nat): nat {
    match h
    case Start => 0
    case Then(before, e) => Fulls(before, sent) + (if Full(e) && e.sent == sent then 1 else 0)
  }

  predicate Full(e: Status) {
    e.polled && e.inFull && e.late == 0
  }

  /** How often, after the end of input, the output FIFO was seen empty and the next poll of the
      waiting loop did not see the device empty and done. */
  function Unfinished(h: History): nat {
    match h
    case Start => 0
    case Then(before, e) => Unfinished(before) + (if before.Then? && Late(before.last, e) then 1 else 0)
  }

  predicate Late(p: Status, e: Status) {
    e.polled && p.outEmpty && e.late > 1 && !(e.outEmpty && e.done)
  }

  /** No poll counts for words still to be written, and none for the waiting loop before the end
      of input. */
  lemma {:induction false} NoneYet(h: History, inSize: nat, moves: (nat, nat) -> Move, n: nat)
    requires Faithful(h, inSize, moves)
    ensures (h.Then? ==> h.last.sent < n) ==> Fulls(h, n) == 0
    ensures (h.Then? ==> h.last.late == 0) ==> Unfinished(h) == 0
  {
    if h.Then? {
      NoneYet(h.before, inSize, moves, n);
    }
  }

  class Device {
    const inSize: nat
    const outSize: nat
    /** Its moves: number so far, and number since the end of input. */
    const moves: (nat, nat) -> Move
    var turn: nat
    var late: nat
    /** How many words it may still output. */
    var budget: nat
    var inFifo: seq<U32>
    var outFifo: seq<U32>
    var done: bool
    var eof: bool
    /** Everything ever written to it, taken in by it, output by it and read from it. */
    ghost var sent: seq<U32>
    ghost var taken: seq<U32>
    ghost var produced: seq<U32>
    ghost var popped: seq<U32>
    /** The status after each of its moves. */
    ghost var history: History

    ghost predicate Valid()
      reads this
    {
      && sent == taken + inFifo && |inFifo| <= inSize
      && produced == popped + outFifo && |outFifo| <= outSize
      && Faithful(history, inSize, moves) && (history.Then? ==> LastShows(history.last)) && (late > 0 ==> eof)
    }

    /** The last status is that of now, but for words written or read since. */
    ghost predicate LastShows(last: Status)
      reads this
    {
      last.sent <= |sent| && last.late == late && last.done == done && (last.outEmpty ==> outFifo == [])
    }

    /** Cleared, and the loops have not polled it. */
    ghost predicate Fresh()
      reads this
    {
      sent == [] && popped == [] && !eof && Fulls(history, 0) == 0
    }

    /** How often the feeding loop polled in vain for room for the next word. */
    ghost function NoRoom(): nat
      reads this
    {
      Fulls(history, |sent|)
    }

    /** How often the waiting loop polled in vain for the end. */
    ghost function NoEnd(): nat
      reads this
    {
      Unfinished(history)
    }

    /** A device just cleared. */
    constructor (inSize: nat, outSize: nat, budget: nat, moves: (nat, nat) -> Move)
      ensures Valid() && Fresh() && !done && history == Start
      ensures this.inSize == inSize && this.outSize == outSize && this.budget == budget && this.moves == moves
    {
      this.inSize, this.outSize, this.budget, this.moves := inSize, outSize, budget, moves;
      turn, late, inFifo, outFifo, done, eof := 0, 0, [], [], false, false;
      sent, taken, produced, popped, history := [], [], [], [], Start;
    }

    method TakeIn(take: nat)
      requires sent == taken + inFifo
      modifies this`inFifo, this`taken
      ensures sent == taken + inFifo && |inFifo| <= |old(inFifo)|
      ensures |inFifo| == 0 || take == 0 || |inFifo| < |old(inFifo)|
    {
      var n := if take <= |inFifo| then take else |inFifo|;
      taken, inFifo := taken + inFifo[..n], inFifo[n..];
    }

    method GiveOut(give: seq<U32>, last: bool)
      requires produced == popped + outFifo && |outFifo| <= outSize
      modifies this`outFifo, this`produced, this`budget, this`done
      ensures produced == popped + outFifo && |outFifo| <= outSize
      ensures old(outFifo) <= outFifo && old(produced) <= produced
      ensures |produced| + budget == |old(produced)| + old(budget)
      ensures old(done) ==> produced == old(produced) && outFifo == old(outFifo)
      ensures done == (old(done) || last)
    {
      if !done {
        var more := First(First(give, outSize - |outFifo|), budget);
        outFifo, budget, done := outFifo + more, budget - |more|, last;
        produced := produced + more;
      }
    }

    /** The device's own moves: it drains its input and fills its output, as far as the FIFOs
        allow; once done it outputs nothing more. */
    method Turn(ghost polled: bool)
      requires Valid()
      modifies this
      ensures Valid() && sent == old(sent) && popped == old(popped) && eof == old(eof)
      ensures |inFifo| <= |old(inFifo)| && old(outFifo) <= outFifo && old(produced) <= produced
      ensures |produced| + budget == |old(produced)| + old(budget)
      ensures old(done) ==> done && produced == old(produced)
      ensures late == if eof then old(late) + 1 else old(late)
      ensures history == Then(old(history), Status(old(turn), polled, |inFifo| >= inSize, outFifo == [], done, |sent|, late))
      ensures !polled ==> NoRoom() == old(NoRoom()) && NoEnd() == old(NoEnd())
    {
      if eof {
        late := late + 1;
      }
      var m := moves(turn, late);
      turn := turn + 1;
      TakeIn(m.take);
      GiveOut(m.give, m.done);
      history := Then(history, Status(turn - 1, polled, |inFifo| >= inSize, outFifo == [], done, |sent|, late));
    }

    /** The STATUS register: input full, output empty, done. */
    method ReadStatus(ghost polled: bool) returns (inFull: bool, outEmpty: bool, isDone: bool)
      requires Valid()
      modifies this
      ensures Valid() && sent == old(sent) && popped == old(popped) && eof == old(eof)
      ensures |produced| + budget == |old(produced)| + old(budget)
      ensures inFull == (|inFifo| >= inSize) && outEmpty == (outFifo == []) && isDone == done
      ensures outEmpty ==> produced == popped
      ensures late == if eof then old(late) + 1 else old(late)
      ensures history == Then(old(history), Status(old(turn), polled, inFull, outEmpty, isDone, |sent|, late))
      ensures !polled ==> NoRoom() == old(NoRoom()) && NoEnd() == old(NoEnd())
    {
      Turn(polled);
      inFull, outEmpty, isDone := |inFifo| >= inSize, outFifo == [], done;
    }

    /** Writing a word: the input FIFO must have room. */
    method WriteWord(w: U32)
      requires Valid() && |inFifo| < inSize
      modifies this
      ensures Valid() && sent == old(sent) + [w] && popped == old(popped) && eof == old(eof)
      ensures |produced| + budget == |old(produced)| + old(budget)
      ensures NoRoom() == 0 && NoEnd() == old(NoEnd()) && late >= old(late)
    {
      Turn(false);
      NoneYet(history, inSize, moves, |sent| + 1);
      inFifo := inFifo + [w];
      sent := sent + [w];
    }

    /** Pulsing the read and reading the data word: the output FIFO must hold one. */
    method ReadWord() returns (w: U32)
      requires Valid() && outFifo != []
      modifies this
      ensures Valid() && sent == old(sent) && popped == old(popped) + [w] && eof == old(eof)
      ensures |produced| + budget == |old(produced)| + old(budget)
      ensures NoRoom() == old(NoRoom()) && NoEnd() == old(NoEnd()) && late >= old(late)
    {
      Turn(false);
      w := outFifo[0];
      outFifo := outFifo[1..];
      popped := popped + [w];
    }

    method SignalEof()
      requires Valid()
      modifies this
      ensures Valid() && sent == old(sent) && popped == old(popped) && eof
      ensures |produced| + budget == |old(produced)| + old(budget)
      ensures NoRoom() == old(NoRoom()) && NoEnd() == old(NoEnd()) && late >= old(late)
    {
      Turn(false);
      eof := true;
    }

    /** OSTimeDlyHMSM: time passes for the device. */
    method Delay()
      requires Valid()
      modifies this
      ensures Valid() && sent == old(sent) && popped == old(popped) && eof == old(eof)
      ensures |produced| + budget == |old(produced)| + old(budget)
      ensures NoRoom() == old(NoRoom()) && NoEnd() == old(NoEnd()) && late >= old(late)
    {
      Turn(false);
    }
  }

  // ---------- the software ----------

  /** The capture buffer holds the first words read from the device, as many as the limit has
      room for, in order. */
  ghost predicate Captured(bytes: seq<Byte>, limit: int, popped: seq<U32>) {
    bytes == Bytes(First(popped, Room(limit)))
  }

  lemma OneMoreCaptured(bytes: seq<Byte>, limit: int, popped: seq<U32>, w: U32)
    requires Captured(bytes, limit, popped)
    ensures |bytes| < limit ==> Captured(bytes + BytesOf(w), limit, popped + [w]) && |bytes| + WORD <= WORD * Room(limit)
    ensures |bytes| >= limit ==> Captured(bytes, limit, popped + [w])
  {
    var more := popped + [w];
    if |bytes| < limit {
      assert |popped| < Room(limit);
      assert First(more, Room(limit)) == more && more[..|popped|] == popped;
    } else {
      assert First(more, Room(limit)) == First(popped, Room(limit));
    }
  }

  /** One word read from the device goes into the capture while the limit is not reached. */
  method Keep(word: U32, buffer: array<Byte>, limit: int, captured: nat, ghost popped: seq<U32>) returns (size: nat)
    requires WORD * Room(limit) <= buffer.Length && captured <= buffer.Length && Captured(buffer[..captured], limit, popped)
    modifies buffer
    ensures size <= buffer.Length && Captured(buffer[..size], limit, popped + [word])
  {
    size := captured;
    OneMoreCaptured(buffer[..size], limit, popped, word);
    if size < limit {
      var b := BytesOf(word);
      buffer[size], buffer[size + 1], buffer[size + 2], buffer[size + 3] := b[0], b[1], b[2], b[3];
      assert buffer[..size + WORD] == old(buffer[..captured]) + b;
      size := size + WORD;
    }
  }

  /** drain_output_words: reads until the FIFO is seen empty, and keeps what fits. */
  method Drain(dev: Device, buffer: array<Byte>, limit: int, captured: nat) returns (size: nat)
    requires dev.Valid() && WORD * Room(limit) <= buffer.Length && captured <= buffer.Length
    requires Captured(buffer[..captured], limit, dev.popped)
    modifies dev, buffer
    ensures dev.Valid() && dev.sent == old(dev.sent) && old(dev.popped) <= dev.popped == dev.produced
    ensures |dev.produced| + dev.budget == old(|dev.produced| + dev.budget)
    ensures dev.eof == old(dev.eof) && (if dev.eof then dev.late > old(dev.late) else dev.late >= old(dev.late))
    ensures dev.NoRoom() == old(dev.NoRoom()) && dev.NoEnd() == old(dev.NoEnd()) && dev.history.Then? && dev.history.last.outEmpty
    ensures size <= buffer.Length && Captured(buffer[..size], limit, dev.popped)
  {
    size := captured;
    var full, empty, done := dev.ReadStatus(false);
    while !empty
      invariant dev.Valid() && dev.sent == old(dev.sent) && old(dev.popped) <= dev.popped
      invariant |dev.produced| + dev.budget == old(|dev.produced| + dev.budget)
      invariant dev.eof == old(dev.eof) && (if dev.eof then dev.late > old(dev.late) else dev.late >= old(dev.late))
      invariant dev.NoRoom() == old(dev.NoRoom()) && dev.NoEnd() == old(dev.NoEnd())
      invariant dev.history.Then? && empty == dev.history.last.outEmpty == (dev.outFifo == [])
      invariant size <= buffer.Length && Captured(buffer[..size], limit, dev.popped)
      decreases |dev.outFifo| + dev.budget
    {
      ghost var popped := dev.popped;
      var word := dev.ReadWord();
      size := Keep(word, buffer, limit, size, popped);
      full, empty, done := dev.ReadStatus(false);
    }
  }

  class Source {
    const memory: seq<Byte>
    var offset: nat

    constructor (memory: seq<Byte>)
      ensures this.memory == memory && offset == 0
    {
      this.memory, offset := memory, 0;
    }

    /** source_read_word on a memory source: four more bytes, or none. */
    method ReadWord() returns (ok: bool, raw: seq<Byte>)
      requires offset <= |memory|
      modifies this`offset
      ensures offset <= |memory|
      ensures ok == (old(offset) + WORD <= |memory|)
      ensures ok ==> offset == old(offset) + WORD && raw == memory[old(offset)..offset]
      ensures !ok ==> offset == old(offset)
    {
      if offset + WORD > |memory| {
        return false, [];
      }
      raw := memory[offset..offset + WORD];
      offset := offset + WORD;
      ok := true;
    }
  }

  /** The words sent so far are the source's, in order. */
  ghost predicate SentSource(dev: Device, memory: seq<Byte>, bytesSent: nat)
    reads dev
  {
    bytesSent % WORD == 0 && bytesSent <= |memory| && dev.sent == Words(memory, bytesSent / WORD)
  }

  /** The feeding loop's poll: is the input FIFO full? */
  method PollForRoom(dev: Device) returns (full: bool)
    requires dev.Valid() && !dev.eof
    modifies dev
    ensures dev.Valid() && !dev.eof && dev.sent == old(dev.sent) && dev.popped == old(dev.popped)
    ensures full == (|dev.inFifo| >= dev.inSize)
    ensures dev.NoRoom() == old(dev.NoRoom()) + (if full then 1 else 0) && dev.NoEnd() == old(dev.NoEnd())
  {
    var inFull, _, _ := dev.ReadStatus(true);
    full := inFull;
  }

  /** The waiting loop's poll: is the device empty and done? */
  method PollForEnd(dev: Device) returns (finished: bool)
    requires dev.Valid() && dev.eof && dev.late > 0 && dev.history.Then? && dev.history.last.outEmpty
    modifies dev
    ensures dev.Valid() && dev.eof && dev.sent == old(dev.sent) && dev.popped == old(dev.popped)
    ensures finished ==> dev.done && dev.popped == dev.produced
    ensures dev.NoRoom() == old(dev.NoRoom()) && dev.NoEnd() == old(dev.NoEnd()) + (if finished then 0 else 1)
  {
    var _, empty, done := dev.ReadStatus(true);
    finished := empty && done;
  }

  /** The feeding loop, up to the end-of-input signal: r is 1, or the value the whole call
      returns early. */
  method Feed(source: Source, total: U32, dev: Device, buffer: array<Byte>, limit: int)
    returns (r: int, size: nat, bytesSent: nat)
    requires total <= WRAP - WORD && source.offset == 0
    requires dev.Valid() && dev.Fresh() && WORD * Room(limit) <= buffer.Length
    modifies source, dev, buffer
    ensures dev.Valid() && SentSource(dev, source.memory, bytesSent)
    ensures size <= buffer.Length && Captured(buffer[..size], limit, dev.popped)
    ensures r in {-1, 0, 1}
    ensures r == 1 <==> total <= bytesSent
    ensures r == 1 ==> bytesSent < total + WORD
    ensures r == -1 ==> bytesSent + WORD > |source.memory|
    ensures !dev.eof && dev.NoEnd() == 0
    ensures dev.NoRoom() <= HW_STALL_MAX_CYCLES + 1 && (r == 0 <==> dev.NoRoom() == HW_STALL_MAX_CYCLES + 1)
  {
    NoneYet(dev.history, dev.inSize, dev.moves, 0);
    bytesSent, size := 0, 0;
    var stall := 0;
    while bytesSent < total
      invariant 0 <= bytesSent < total + WORD && source.offset == bytesSent && 0 <= stall <= HW_STALL_MAX_CYCLES
      invariant dev.Valid() && SentSource(dev, source.memory, bytesSent)
      invariant size <= buffer.Length && Captured(buffer[..size], limit, dev.popped)
      invariant !dev.eof && dev.NoRoom() == stall && dev.NoEnd() == 0
      decreases total - bytesSent, HW_STALL_MAX_CYCLES - stall
    {
      var full := PollForRoom(dev);
      if full {
        size := Drain(dev, buffer, limit, size);
        dev.Delay();
        stall := stall + 1;
        if stall > HW_STALL_MAX_CYCLES {
          return 0, size, bytesSent;
        }
        continue;
      }
      var ok := SendOne(source, dev, bytesSent);
      if !ok {
        return -1, size, bytesSent;
      }
      bytesSent, stall := bytesSent + WORD, 0;
      size := Drain(dev, buffer, limit, size);
    }
    r := 1;
  }

  /** The next word of the source goes out. */
  method SendOne(source: Source, dev: Device, bytesSent: nat) returns (ok: bool)
    requires dev.Valid() && |dev.inFifo| < dev.inSize && source.offset == bytesSent && SentSource(dev, source.memory, bytesSent)
    modifies source, dev
    ensures dev.Valid() && dev.popped == old(dev.popped) && ok == (bytesSent + WORD <= |source.memory|)
    ensures dev.eof == old(dev.eof) && dev.NoEnd() == old(dev.NoEnd()) && dev.NoRoom() == if ok then 0 else old(dev.NoRoom())
    ensures !ok ==> dev.sent == old(dev.sent)
    ensures ok ==> source.offset == bytesSent + WORD && SentSource(dev, source.memory, bytesSent + WORD)
  {
    var raw;
    ok, raw := source.ReadWord();
    if ok {
      ReadSlice(source.memory, bytesSent);
      dev.WriteWord(ReadLe32(raw, 0));
    }
  }

  lemma ReadSlice(s: seq<Byte>, i: nat)
    requires i + WORD <= |s|
    ensures ReadLe32(s[i..i + WORD], 0) == ReadLe32(s, i)
  {
  }

  /** The loop that waits for the device to finish. */
  method AwaitDone(dev: Device, buffer: array<Byte>, limit: int, captured: nat) returns (r: int, size: nat)
    requires dev.Valid() && dev.eof && dev.NoEnd() == 0
    requires WORD * Room(limit) <= buffer.Length && captured <= buffer.Length
    requires Captured(buffer[..captured], limit, dev.popped)
    modifies dev, buffer
    ensures dev.Valid() && dev.sent == old(dev.sent)
    ensures size <= buffer.Length && Captured(buffer[..size], limit, dev.popped)
    ensures r in {0, 1}
    ensures r == 1 ==> dev.done && dev.popped == dev.produced
    ensures dev.NoRoom() == old(dev.NoRoom())
    ensures dev.NoEnd() <= HW_STALL_MAX_CYCLES && (r == 0 <==> dev.NoEnd() == HW_STALL_MAX_CYCLES)
  {
    size := captured;
    var stall := 0;
    while stall < HW_STALL_MAX_CYCLES
      invariant dev.Valid() && dev.eof && dev.sent == old(dev.sent)
      invariant size <= buffer.Length && Captured(buffer[..size], limit, dev.popped)
      invariant 0 <= stall <= HW_STALL_MAX_CYCLES && dev.NoRoom() == old(dev.NoRoom()) && dev.NoEnd() == stall
    {
      size := Drain(dev, buffer, limit, size);
      var finished := PollForEnd(dev);
      if finished {
        return 1, size;
      }
      dev.Delay();
      stall := stall + 1;
    }
    r := 0;
  }

  /** feed_source_to_hardware.  It always returns.  The words sent are the source's, in order;
      the capture holds the first words the device output; when 1 is returned after waiting,
      no word the device ever outputs has been missed; and 0 is returned exactly when the loops
      polled once more than HW_STALL_MAX_CYCLES times for room since the last word went out, or
      HW_STALL_MAX_CYCLES times for the end after the end of input, each time in vain. */
  method FeedSourceToHardware(source: Source, total: U32, wait: bool, dev: Device, buffer: array<Byte>, limit: int)
    returns (r: int, size: nat, ghost bytesSent: nat)
    requires total <= WRAP - WORD && source.offset == 0
    requires dev.Valid() && dev.Fresh() && WORD * Room(limit) <= buffer.Length
    modifies source, dev, buffer
    ensures dev.Valid() && SentSource(dev, source.memory, bytesSent)
    ensures size <= buffer.Length && Captured(buffer[..size], limit, dev.popped)
    ensures r in {-1, 0, 1}
    ensures r == 1 ==> total <= bytesSent < total + WORD
    ensures r == -1 ==> bytesSent < total && bytesSent + WORD > |source.memory|
    ensures r == 1 && wait ==> dev.done && dev.popped == dev.produced
    ensures dev.NoRoom() <= HW_STALL_MAX_CYCLES + 1 && dev.NoEnd() <= HW_STALL_MAX_CYCLES
    ensures r == 0 && bytesSent < total <==> dev.NoRoom() == HW_STALL_MAX_CYCLES + 1
    ensures r == 0 && total <= bytesSent <==> dev.NoEnd() == HW_STALL_MAX_CYCLES
    ensures r == 0 && total <= bytesSent ==> wait
  {
    r, size, bytesSent := Feed(source, total, dev, buffer, limit);
    if r != 1 {
      return;
    }
    dev.SignalEof();
    if !wait {
      return;
    }
    r, size := AwaitDone(dev, buffer, limit, size);
  }

  // ---------- when the call succeeds ----------

  /** A device that takes at least one word in every move and reports DONE within n moves of the
      end of input. */
  ghost predicate Prompt(dev: Device, n: nat) {
    && dev.inSize > 0
    && forall t: nat, late: nat :: dev.moves(t, late).take > 0 && (late >= n ==> dev.moves(t, late).done)
  }

  lemma {:induction false} PromptIsNeverFull(dev: Device, n: nat, h: History, sent: nat)
    requires Faithful(h, dev.inSize, dev.moves) && Prompt(dev, n)
    ensures Fulls(h, sent) == 0
  {
    if h.Then? {
      PromptIsNeverFull(dev, n, h.before, sent);
    }
  }

  /** Each poll in vain came at least one move later, and all of them before it had to be done. */
  lemma {:induction false} PromptFinishes(dev: Device, n: nat, h: History)
    requires Faithful(h, dev.inSize, dev.moves) && Prompt(dev, n)
    ensures Unfinished(h) <= n && (h.Then? ==> Unfinished(h) <= h.last.late)
  {
    if h.Then? {
      PromptFinishes(dev, n, h.before);
    }
  }

  /** Fed to a prompt device from a memory that holds the words asked for, the call returns 1,
      and the device has been sent exactly these words. */
  method FeedPromptDevice(source: Source, words: nat, wait: bool, dev: Device, buffer: array<Byte>, limit: int, ghost n: nat)
    returns (r: int, size: nat)
    requires WORD * words <= WRAP - WORD && source.offset == 0 && WORD * words <= |source.memory|
    requires dev.Valid() && dev.Fresh() && WORD * Room(limit) <= buffer.Length
    requires Prompt(dev, n) && n < HW_STALL_MAX_CYCLES
    modifies source, dev, buffer
    ensures r == 1 && dev.sent == Words(source.memory, words)
    ensures size <= buffer.Length && Captured(buffer[..size], limit, dev.popped)
    ensures wait ==> dev.done && dev.popped == dev.produced
  {
    ghost var bytesSent;
    r, size, bytesSent := FeedSourceToHardware(source, WORD * words, wait, dev, buffer, limit);
    PromptIsNeverFull(dev, n, dev.history, |dev.sent|);
    PromptFinishes(dev, n, dev.history);
  }

  /** Once the device is done, all it ever output is what had been read when it was seen empty:
      no later turn adds a word. */
  method NothingAfterDone(dev: Device, turns: nat)
    requires dev.Valid() && dev.done && dev.popped == dev.produced
    modifies dev
    ensures dev.produced == old(dev.produced) && dev.popped == dev.produced && dev.outFifo == []
  {
    var i := 0;
    while i < turns
      invariant dev.Valid() && dev.done && dev.produced == old(dev.produced) && dev.popped == dev.produced
    {
      dev.Turn(false);
      i := i + 1;
    }
  }

  // ---------- what the capture limit means ----------

  /** Limits that are whole numbers of words capture exactly that many; any other limit lets one
      word more in, and the capture then exceeds the limit. */
  lemma CaptureExceedsLimitIff(limit: nat, popped: seq<U32>)
    requires |popped| > limit / WORD
    ensures |Bytes(First(popped, Room(limit)))| > limit <==> limit % WORD != 0
    ensures limit % WORD == 0 ==> Room(limit) == limit / WORD
  {
  }

  /** Reading the captured bytes as little-endian words gives back the device's words. */
  lemma {:induction false} CaptureReadsBack(ws: seq<U32>, k: nat)
    requires k < |ws|
    ensures ReadLe32(Bytes(ws), WORD * k) == ws[k]
  {
    var n := |ws| - 1;
    ReadSide(Bytes(ws[..n]), BytesOf(ws[n]), WORD * k);
    if k < n {
      CaptureReadsBack(ws[..n], k);
    } else {
      WordBytes(ws[n]);
    }
  }
}
