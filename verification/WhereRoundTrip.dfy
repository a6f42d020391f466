/** Printed WHERE clauses, embedded in SQL text, come back from extraction and compilation as
    the conditions they were printed from. */
module WhereRoundTrip {
  import opened Machine
  import opened Options
  import opened SqlText
  import opened WhereCompiler

  // ---------- printing ----------

  datatype Literal = InQuotes(c: char) | Plain(c: char)

  /** A condition with the numbers of blanks its author put around the operator and, between
      conditions, around the AND. */
  datatype Term = Term(column: nat, op: string, literal: Literal, beforeOp: nat, afterOp: nat, beforeAnd: nat, afterAnd: nat)

  function LiteralText(l: Literal): string {
    match l
    case InQuotes(c) => ['\'', c, '\'']
    case Plain(c) => [c]
  }

  function TermText(t: Term, name: char): string {
    [name] + (Blanks(t.beforeOp) + (t.op + (Blanks(t.afterOp) + LiteralText(t.literal))))
  }

  predicate NameOk(c: char) {
    NameChar(c) && !IsSpace(c)
  }

  /** Up to three operator characters, whether or not they make one of the operators. */
  predicate OpText(op: string) {
    1 <= |op| <= 3 && forall k :: 0 <= k < |op| ==> OpChar(op[k])
  }

  /** Columns have one-character names; the condition names the first column of that name in
      any case.  A literal is any quoted byte but NUL, or a bare letter or digit. */
  predicate Printable(t: Term, cols: seq<string>) {
    && t.column < |cols| && |cols[t.column]| == 1 && NameOk(cols[t.column][0])
    && FindColumn(cols, cols[t.column]) == Some(t.column)
    && OpText(t.op) && t.literal.c != NUL && t.literal.c as int < 256
    && (t.literal.Plain? ==> IsLetter(t.literal.c) || IsDigit(t.literal.c))
  }

  predicate AllPrintable(ts: seq<Term>, cols: seq<string>) {
    forall k :: 0 <= k < |ts| ==> Printable(ts[k], cols)
  }

  function JoinedText(t: Term, cols: seq<string>): string
    requires Printable(t, cols)
  {
    Blanks(t.beforeAnd + 1) + ("AND" + (Blanks(t.afterAnd + 1) + TermText(t, cols[t.column][0])))
  }

  function TailText(ts: seq<Term>, cols: seq<string>): string
    requires AllPrintable(ts, cols)
  {
    if ts == [] then "" else JoinedText(ts[0], cols) + TailText(ts[1..], cols)
  }

  function ClauseText(ts: seq<Term>, cols: seq<string>): string
    requires AllPrintable(ts, cols) && ts != []
  {
    TermText(ts[0], cols[ts[0].column][0]) + TailText(ts[1..], cols)
  }

  function InstrOf(t: Term): Instr {
    Instr(t.column, t.literal.c as int, OpCode(t.op))
  }

  function Instrs(ts: seq<Term>): seq<Instr> {
    seq(|ts|, i requires 0 <= i < |ts| => InstrOf(ts[i]))
  }

  // ---------- reading a printed piece at a place of a text ----------

  predicate Reads(s: string, i: nat, w: string) {
    i + |w| <= |s| && s[i..i + |w|] == w
  }

  lemma ReadsAt(s: string, i: nat, w: string)
    requires Reads(s, i, w)
    ensures forall k: nat :: k < |w| ==> At(s, i + k) == w[k]
  {
    forall k: nat | k < |w| ensures At(s, i + k) == w[k] {
      assert s[i..i + |w|][k] == s[i + k];
    }
  }

  lemma ReadsSplit(s: string, i: nat, a: string, b: string)
    requires Reads(s, i, a + b)
    ensures Reads(s, i, a) && Reads(s, i + |a|, b)
  {
    assert s[i..i + |a|] == s[i..i + |a + b|][..|a|] == a;
    assert s[i + |a|..i + |a| + |b|] == s[i..i + |a + b|][|a|..] == b;
  }

  lemma {:induction false} SkipsBlanks(s: string, i: nat, n: nat)
    requires Reads(s, i, Blanks(n)) && At(s, i + n) != ' '
    ensures SkipSpaces(s, i) == i + n
    decreases n
  {
    if n != 0 {
      assert At(s, i) == ' ' by {
        ReadsAt(s, i, Blanks(n));
        assert At(s, i + 0) == ' ';
      }
      assert Blanks(n) == Blanks(1) + Blanks(n - 1);
      ReadsSplit(s, i, Blanks(1), Blanks(n - 1));
      SkipsBlanks(s, i + 1, n - 1);
    }
  }

  lemma OpReads(s: string, i: nat, op: string)
    requires Reads(s, i, op) && OpText(op) && !OpChar(At(s, i + |op|))
    ensures OpEnd(s, i, 3) == i + |op| && Span(s, i, OpEnd(s, i, 3)) == op && OpChar(At(s, i))
  {
    OpReadsOn(s, i, op, 3);
    ReadsAt(s, i, op);
    assert At(s, i + 0) == op[0];
  }

  lemma {:induction false} OpReadsOn(s: string, i: nat, op: string, max: nat)
    requires Reads(s, i, op) && |op| <= max && !OpChar(At(s, i + |op|)) && forall k :: 0 <= k < |op| ==> OpChar(op[k])
    ensures OpEnd(s, i, max) == i + |op|
    decreases max
  {
    if op != "" {
      ReadsAt(s, i, op);
      assert At(s, i + 0) == op[0];
      assert op == [op[0]] + op[1..];
      ReadsSplit(s, i, [op[0]], op[1..]);
      OpReadsOn(s, i + 1, op[1..], max - 1);
    }
  }

  predicate Ends(c: char) {
    c == ' ' || c == NUL
  }

  lemma LiteralReads(s: string, i: nat, l: Literal, atoi: Atoi)
    requires Reads(s, i, LiteralText(l)) && Ends(At(s, i + |LiteralText(l)|))
    requires l.Plain? ==> IsLetter(l.c) || IsDigit(l.c)
    ensures Value(s, i, atoi) == l.c as int && ValueEnd(s, i) == i + |LiteralText(l)|
    ensures At(s, i) != ' ' && !OpChar(At(s, i))
  {
    ReadsAt(s, i, LiteralText(l));
    assert At(s, i + 0) == LiteralText(l)[0];
    if l.InQuotes? {
      assert At(s, i + 1) == l.c && At(s, i + 2) == '\'';
    } else {
      assert ToSpace(s, i + 1) == i + 1;
    }
  }

  /** The pieces of a printed condition, each at its place. */
  lemma TermSplits(s: string, i: nat, t: Term, name: char) returns (opAt: nat, opEnd: nat, litAt: nat)
    requires Reads(s, i, TermText(t, name))
    ensures opAt == i + 1 + t.beforeOp && opEnd == opAt + |t.op| && litAt == opEnd + t.afterOp
    ensures litAt + |LiteralText(t.literal)| == i + |TermText(t, name)|
    ensures Reads(s, i, [name]) && Reads(s, i + 1, Blanks(t.beforeOp)) && Reads(s, opAt, t.op)
    ensures Reads(s, opEnd, Blanks(t.afterOp)) && Reads(s, litAt, LiteralText(t.literal))
  {
    opAt, opEnd, litAt := FiveParts(s, i, [name], Blanks(t.beforeOp), t.op, Blanks(t.afterOp), LiteralText(t.literal));
  }

  lemma FiveParts(s: string, i: nat, a: string, b: string, c: string, d: string, e: string)
    returns (j: nat, k: nat, l: nat)
    requires Reads(s, i, a + (b + (c + (d + e))))
    ensures j == i + |a| + |b| && k == j + |c| && l == k + |d|
    ensures Reads(s, i, a) && Reads(s, i + |a|, b) && Reads(s, j, c) && Reads(s, k, d) && Reads(s, l, e)
  {
    j, k, l := i + |a| + |b|, i + |a| + |b| + |c|, i + |a| + |b| + |c| + |d|;
    ReadsSplit(s, i, a, b + (c + (d + e)));
    ReadsSplit(s, i + |a|, b, c + (d + e));
    ReadsSplit(s, j, c, d + e);
    ReadsSplit(s, k, d, e);
  }

  /** A printed condition parses to itself. */
  lemma TermReads(s: string, i: nat, t: Term, name: char, atoi: Atoi)
    requires Reads(s, i, TermText(t, name)) && Ends(At(s, i + |TermText(t, name)|))
    requires NameOk(name) && OpText(t.op) && (t.literal.Plain? ==> IsLetter(t.literal.c) || IsDigit(t.literal.c))
    ensures ParseCond(s, i, atoi) == Cond([name], t.op, t.literal.c as int, i + |TermText(t, name)|)
    ensures At(s, i) == name && (At(s, i + 1) == ' ' || OpChar(At(s, i + 1)))
  {
    var opAt, opEnd, litAt := TermSplits(s, i, t, name);
    LiteralReads(s, litAt, t.literal, atoi);
    AfterBlanks(s, opEnd, t.afterOp);
    SkipsBlanks(s, opEnd, t.afterOp);
    OpReads(s, opAt, t.op);
    AfterBlanks(s, i + 1, t.beforeOp);
    SkipsBlanks(s, i + 1, t.beforeOp);
    NameReads(s, i, name);
    CondIs(s, i, atoi, i + 1, opAt, opEnd, litAt);
  }

  lemma CondIs(s: string, i: nat, atoi: Atoi, nameEnd: nat, opAt: nat, opEnd: nat, litAt: nat)
    requires NameEnd(s, i, NAME_MAX) == nameEnd && SkipSpaces(s, nameEnd) == opAt
    requires OpEnd(s, opAt, 3) == opEnd && SkipSpaces(s, opEnd) == litAt
    ensures ParseCond(s, i, atoi) == Cond(Span(s, i, nameEnd), Span(s, opAt, opEnd), Value(s, litAt, atoi), ValueEnd(s, litAt))
  {
  }

  lemma AfterBlanks(s: string, i: nat, n: nat)
    requires Reads(s, i, Blanks(n))
    ensures At(s, i) == if n == 0 then At(s, i + n) else ' '
  {
    ReadsAt(s, i, Blanks(n));
    assert n > 0 ==> At(s, i + 0) == ' ';
  }

  lemma NameReads(s: string, i: nat, name: char)
    requires Reads(s, i, [name]) && NameOk(name) && !NameChar(At(s, i + 1))
    ensures At(s, i) == name && NameEnd(s, i, NAME_MAX) == i + 1 && Span(s, i, i + 1) == [name]
  {
    ReadsAt(s, i, [name]);
    assert At(s, i + 0) == name;
    assert NameEnd(s, i + 1, NAME_MAX - 1) == i + 1;
  }

  // ---------- one pass of the compiler over a printed condition ----------

  predicate PassIs(s: string, i: nat, cols: seq<string>, atoi: Atoi, t: Term, end: nat) {
    OnePass(s, i, cols, atoi) == Condition(InstrOf(t), end)
  }

  lemma FirstPass(s: string, i: nat, t: Term, cols: seq<string>, atoi: Atoi)
    requires Printable(t, cols) && Reads(s, i, TermText(t, cols[t.column][0]))
    requires Ends(At(s, i + |TermText(t, cols[t.column][0])|))
    ensures PassIs(s, i, cols, atoi, t, i + |TermText(t, cols[t.column][0])|)
  {
    var name := cols[t.column][0];
    TermReads(s, i, t, name, atoi);
    assert [name] == cols[t.column];
    assert !AndAt(s, i);
    PassWithoutAnd(s, i, cols, atoi, t.column);
  }

  lemma PassWithoutAnd(s: string, i: nat, cols: seq<string>, atoi: Atoi, column: nat)
    requires At(s, i) != ' ' && At(s, i) != NUL && !AndAt(s, i)
    requires FindColumn(cols, ParseCond(s, i, atoi).name) == Some(column)
    ensures var c := ParseCond(s, i, atoi);
            OnePass(s, i, cols, atoi) == Condition(Instr(column, c.value, OpCode(c.op)), c.end)
  {
    assert SkipSpaces(s, i) == i;
  }

  lemma AndReads(s: string, i: nat)
    requires Reads(s, i, "AND") && At(s, i + 3) == ' '
    ensures AndAt(s, i) && At(s, i) == 'A'
  {
    ReadsAt(s, i, "AND");
    assert At(s, i + 0) == 'A' && At(s, i + 1) == 'N' && At(s, i + 2) == 'D';
  }

  lemma AndPlaces(s: string, i: nat, t: Term, cols: seq<string>) returns (at: nat, start: nat)
    requires Printable(t, cols) && Reads(s, i, JoinedText(t, cols))
    ensures at == i + t.beforeAnd + 1 && start == at + 4 + t.afterAnd
    ensures Reads(s, i, Blanks(t.beforeAnd + 1)) && Reads(s, at, "AND") && Reads(s, at + 3, Blanks(t.afterAnd + 1))
    ensures Reads(s, start, TermText(t, cols[t.column][0]))
    ensures start + |TermText(t, cols[t.column][0])| == i + |JoinedText(t, cols)|
  {
    at, start := FourParts(s, i, Blanks(t.beforeAnd + 1), "AND", Blanks(t.afterAnd + 1), TermText(t, cols[t.column][0]));
  }

  lemma FourParts(s: string, i: nat, a: string, b: string, c: string, d: string) returns (j: nat, k: nat)
    requires Reads(s, i, a + (b + (c + d)))
    ensures j == i + |a| && k == j + |b| + |c|
    ensures Reads(s, i, a) && Reads(s, j, b) && Reads(s, j + |b|, c) && Reads(s, k, d)
  {
    j, k := i + |a|, i + |a| + |b| + |c|;
    ReadsSplit(s, i, a, b + (c + d));
    ReadsSplit(s, j, b, c + d);
    ReadsSplit(s, j + |b|, c, d);
  }

  /** The AND before a condition, and where the condition itself starts. */
  lemma AndSplits(s: string, i: nat, t: Term, cols: seq<string>) returns (at: nat, start: nat)
    requires Printable(t, cols) && Reads(s, i, JoinedText(t, cols))
    ensures At(s, i) == ' ' && SkipSpaces(s, i) == at && At(s, at) != NUL && AndAt(s, at)
    ensures Reads(s, start, TermText(t, cols[t.column][0]))
    ensures start + |TermText(t, cols[t.column][0])| == i + |JoinedText(t, cols)|
    ensures start == at + 4 + t.afterAnd && Reads(s, at + 3, Blanks(t.afterAnd + 1))
  {
    at, start := AndPlaces(s, i, t, cols);
    AfterBlanks(s, at + 3, t.afterAnd + 1);
    AndReads(s, at);
    AfterBlanks(s, i, t.beforeAnd + 1);
    SkipsBlanks(s, i, t.beforeAnd + 1);
  }

  lemma NextPassReads(s: string, i: nat, t: Term, cols: seq<string>, atoi: Atoi)
    requires Printable(t, cols) && Reads(s, i, JoinedText(t, cols)) && Ends(At(s, i + |JoinedText(t, cols)|))
    ensures PassIs(s, i, cols, atoi, t, i + |JoinedText(t, cols)|)
  {
    var at, start := AndSplits(s, i, t, cols);
    TermReads(s, start, t, cols[t.column][0], atoi);
    SkipsAfterAnd(s, at, t.afterAnd);
    assert [cols[t.column][0]] == cols[t.column];
    PassWithAnd(s, i, cols, atoi, at, start, t.column);
  }

  lemma PassWithAnd(s: string, i: nat, cols: seq<string>, atoi: Atoi, at: nat, start: nat, column: nat)
    requires At(s, i) == ' ' && SkipSpaces(s, i) == at && At(s, at) != NUL && AndAt(s, at) && SkipSpaces(s, at + 4) == start
    requires FindColumn(cols, ParseCond(s, start, atoi).name) == Some(column)
    ensures var c := ParseCond(s, start, atoi);
            OnePass(s, i, cols, atoi) == Condition(Instr(column, c.value, OpCode(c.op)), c.end)
  {
  }

  lemma SkipsAfterAnd(s: string, at: nat, n: nat)
    requires Reads(s, at + 3, Blanks(n + 1)) && At(s, at + 4 + n) != ' '
    ensures SkipSpaces(s, at + 4) == at + 4 + n
  {
    SkipsBlanks(s, at + 3, n + 1);
    AfterBlanks(s, at + 3, n + 1);
  }

  // ---------- whole clauses ----------

  lemma TailSplits(ts: seq<Term>, cols: seq<string>, s: string, i: nat)
    requires ts != [] && AllPrintable(ts, cols) && Reads(s, i, TailText(ts, cols))
    ensures Reads(s, i, JoinedText(ts[0], cols)) && Reads(s, i + |JoinedText(ts[0], cols)|, TailText(ts[1..], cols))
    ensures |TailText(ts, cols)| == |JoinedText(ts[0], cols)| + |TailText(ts[1..], cols)|
  {
    ReadsSplit(s, i, JoinedText(ts[0], cols), TailText(ts[1..], cols));
  }

  lemma TailStarts(ts: seq<Term>, cols: seq<string>, s: string, i: nat)
    requires AllPrintable(ts, cols) && Reads(s, i, TailText(ts, cols)) && At(s, i + |TailText(ts, cols)|) == NUL
    ensures Ends(At(s, i))
  {
    if ts != [] {
      TailSplits(ts, cols, s, i);
      JoinedStarts(s, i, ts[0], cols);
    }
  }

  lemma JoinedStarts(s: string, i: nat, t: Term, cols: seq<string>)
    requires Printable(t, cols) && Reads(s, i, JoinedText(t, cols))
    ensures At(s, i) == ' '
  {
    var _, _ := AndPlaces(s, i, t, cols);
    AfterBlanks(s, i, t.beforeAnd + 1);
  }

  /** The passes from a place on read these conditions, one each, and then the end. */
  ghost predicate Follows(pass: nat -> Pass, i: nat, ts: seq<Term>)
    decreases |ts|
  {
    if ts == [] then pass(i) == Done
    else pass(i).Condition? && pass(i).i == InstrOf(ts[0]) && Follows(pass, pass(i).next, ts[1..])
  }

  /** What the loop does with these conditions when count have gone out before: all of them,
      or as many as the limit leaves room for and then a refusal. */
  function Accepted(ts: seq<Term>, count: nat): Outcome
    requires count <= MAX_CONDITIONS
  {
    if count + |ts| <= MAX_CONDITIONS then Outcome(Instrs(ts), true)
    else Outcome(Instrs(ts[..MAX_CONDITIONS - count]), false)
  }

  lemma {:induction false} LoopFollows(pass: nat -> Pass, len: nat, columns: nat, i: nat, ts: seq<Term>, count: nat)
    requires Fair(pass, len, columns) && Follows(pass, i, ts) && count <= MAX_CONDITIONS
    ensures Loop(pass, len, columns, i, count) == Accepted(ts, count)
    decreases |ts|
  {
    if ts == [] {
      assert Instrs(ts) == [];
    } else if count < MAX_CONDITIONS {
      LoopFollows(pass, len, columns, pass(i).next, ts[1..], count + 1);
      OneMoreAccepted(ts, count);
    } else {
      assert Instrs(ts[..0]) == [];
    }
  }

  lemma OneMoreAccepted(ts: seq<Term>, count: nat)
    requires ts != [] && count < MAX_CONDITIONS
    ensures Accepted(ts, count) == Prepend([InstrOf(ts[0])], Accepted(ts[1..], count + 1))
  {
    if count + |ts| <= MAX_CONDITIONS {
      assert Instrs(ts) == [InstrOf(ts[0])] + Instrs(ts[1..]);
    } else {
      var n := MAX_CONDITIONS - count;
      assert Instrs(ts[..n]) == [InstrOf(ts[0])] + Instrs(ts[1..][..n - 1]);
    }
  }

  /** These are the compiler's passes over this text. */
  ghost predicate PassesHere(pass: nat -> Pass, s: string, cols: seq<string>, atoi: Atoi) {
    PassesOf(pass, s, cols, atoi, |s| + 1)
  }

  lemma EndsHere(s: string, i: nat, cols: seq<string>, atoi: Atoi, pass: nat -> Pass)
    requires PassesHere(pass, s, cols, atoi) && i <= |s| && At(s, i) == NUL
    ensures pass(i) == Done
  {
    PassAt(pass, s, cols, atoi, |s| + 1, i);
  }

  lemma JoinedPass(s: string, i: nat, t: Term, cols: seq<string>, atoi: Atoi, pass: nat -> Pass)
    requires PassesHere(pass, s, cols, atoi)
    requires Printable(t, cols) && Reads(s, i, JoinedText(t, cols)) && Ends(At(s, i + |JoinedText(t, cols)|))
    ensures pass(i) == Condition(InstrOf(t), i + |JoinedText(t, cols)|)
  {
    PassAt(pass, s, cols, atoi, |s| + 1, i);
    NextPassReads(s, i, t, cols, atoi);
  }

  lemma {:induction false} TailFollows(s: string, i: nat, ts: seq<Term>, cols: seq<string>, atoi: Atoi, pass: nat -> Pass)
    requires PassesHere(pass, s, cols, atoi)
    requires AllPrintable(ts, cols) && Reads(s, i, TailText(ts, cols)) && At(s, i + |TailText(ts, cols)|) == NUL
    ensures Follows(pass, i, ts)
    decreases |ts|
  {
    if ts == [] {
      EndsHere(s, i, cols, atoi, pass);
    } else {
      var next := i + |JoinedText(ts[0], cols)|;
      TailSplits(ts, cols, s, i);
      TailStarts(ts[1..], cols, s, next);
      JoinedPass(s, i, ts[0], cols, atoi, pass);
      TailFollows(s, next, ts[1..], cols, atoi, pass);
      FollowsOn(pass, i, ts, next);
    }
  }

  lemma FollowsOn(pass: nat -> Pass, i: nat, ts: seq<Term>, next: nat)
    requires ts != [] && pass(i) == Condition(InstrOf(ts[0]), next) && Follows(pass, next, ts[1..])
    ensures Follows(pass, i, ts)
  {
  }

  lemma ClauseFollows(s: string, ts: seq<Term>, cols: seq<string>, atoi: Atoi, pass: nat -> Pass)
    requires PassesHere(pass, s, cols, atoi) && ts != [] && AllPrintable(ts, cols)
    requires Reads(s, 0, ClauseText(ts, cols)) && At(s, |ClauseText(ts, cols)|) == NUL
    ensures Follows(pass, 0, ts)
  {
    var first := TermText(ts[0], cols[ts[0].column][0]);
    ClauseSplits(s, ts, cols);
    TailStarts(ts[1..], cols, s, |first|);
    StartPass(s, ts[0], cols, atoi, pass);
    TailFollows(s, |first|, ts[1..], cols, atoi, pass);
    FollowsOn(pass, 0, ts, |first|);
  }

  lemma ClauseSplits(s: string, ts: seq<Term>, cols: seq<string>)
    requires ts != [] && AllPrintable(ts, cols) && Reads(s, 0, ClauseText(ts, cols))
    ensures var first := TermText(ts[0], cols[ts[0].column][0]);
            && Reads(s, 0, first) && Reads(s, |first|, TailText(ts[1..], cols))
            && |ClauseText(ts, cols)| == |first| + |TailText(ts[1..], cols)|
  {
    ReadsSplit(s, 0, TermText(ts[0], cols[ts[0].column][0]), TailText(ts[1..], cols));
  }

  lemma StartPass(s: string, t: Term, cols: seq<string>, atoi: Atoi, pass: nat -> Pass)
    requires PassesHere(pass, s, cols, atoi) && Printable(t, cols)
    requires Reads(s, 0, TermText(t, cols[t.column][0])) && Ends(At(s, |TermText(t, cols[t.column][0])|))
    ensures pass(0) == Condition(InstrOf(t), |TermText(t, cols[t.column][0])|)
  {
    PassAt(pass, s, cols, atoi, |s| + 1, 0);
    FirstPass(s, 0, t, cols, atoi);
  }

  /** The zero-padded field a clause is stored in. */
  function Padded(clause: string): string
    requires |clause| <= FIELD_SIZE
  {
    clause + seq(FIELD_SIZE - |clause|, i => NUL)
  }

  /** Printed conditions compile to their instructions, in order; the clause is accepted
      exactly when there are at most four of them, and of more the first four are sent. */
  lemma ClauseCompiles(ts: seq<Term>, cols: seq<string>, atoi: Atoi)
    requires ts != [] && AllPrintable(ts, cols) && |ClauseText(ts, cols)| < FIELD_SIZE
    ensures Compile(Padded(ClauseText(ts, cols)), cols, atoi) == Accepted(ts, 0)
  {
    var s := Padded(ClauseText(ts, cols));
    AllPasses(s, cols, atoi, |s| + 1);
    ClauseFollows(s, ts, cols, atoi, Passes(s, cols, atoi));
    LoopFollows(Passes(s, cols, atoi), |s|, |cols|, 0, ts, 0);
  }

  /** The words the hardware receives decode to the conditions' columns, values and operators:
      what the hardware then compares is what was meant, exactly for the seven operators. */
  lemma WordsDecode(ts: seq<Term>, cols: seq<string>, k: nat)
    requires AllPrintable(ts, cols) && |cols| <= 64 && k < |ts|
    ensures Decode(WordOf(Instrs(ts)[k])) == Some(InstrOf(ts[k]))
    ensures RelationOf(InstrOf(ts[k]).op) == Meaning(ts[k].op) <==> ts[k].op in OPERATORS
  {
    WordDecodes(InstrOf(ts[k]));
    OpCodeMeansIff(ts[k].op);
  }

  /** The failing family in a whole clause: a condition printed with "<>", or any other operator
      text without a code, is accepted and compiles to the instruction of the same condition
      with "=". */
  lemma OtherOperatorsCompileAsEqual(t: Term, cols: seq<string>, atoi: Atoi)
    requires Printable(t, cols) && t.op !in OPERATORS && |ClauseText([t], cols)| < FIELD_SIZE
    ensures |ClauseText([t.(op := "=")], cols)| < FIELD_SIZE
    ensures Compile(Padded(ClauseText([t], cols)), cols, atoi) == Outcome([Instr(t.column, t.literal.c as int, 0)], true)
    ensures Compile(Padded(ClauseText([t], cols)), cols, atoi) == Compile(Padded(ClauseText([t.(op := "=")], cols)), cols, atoi)
  {
    var e := t.(op := "=");
    assert Printable(e, cols);
    ClauseCompiles([t], cols, atoi);
    assert |TermText(e, cols[t.column][0])| <= |TermText(t, cols[t.column][0])|;
    ClauseCompiles([e], cols, atoi);
    OpCodeMeansIff(t.op);
    assert Instrs([t]) == [InstrOf(t)] && Instrs([e]) == [InstrOf(e)];
  }

  /** SQL's "<>", which asks for the opposite, is one of them. */
  lemma NotEqualIsNotAnOperator()
    ensures OpText("<>") && "<>" !in OPERATORS && Meaning("<>") == Some(NotEqual) && RelationOf(OpCode("<>")) == Some(Equal)
  {
    OpCodeMeansIff("<>");
  }
}
