/** Compiling the WHERE clause and the row limit of a request into packed 32-bit instructions
    (compile_and_send_instructions in network_tasks.c). */
module WhereCompiler {
  import opened Options
  import opened SqlText

  const MAX_CONDITIONS := 4
  const NAME_MAX := 63
  const FIELD_SIZE := 256

  // ---------- scanning: each function maps a place in the text to the place where it stops ----------

  predicate OpChar(c: char) {
    c == '=' || c == '<' || c == '>' || c == '!'
  }

  predicate NameChar(c: char) {
    c != ' ' && !OpChar(c) && c != NUL
  }

  function SkipSpaces(s: string, i: nat): (j: nat)
    ensures j >= i && At(s, j) != ' '
    decreases |s| - i
  {
    if At(s, i) == ' ' then SkipSpaces(s, i + 1) else i
  }

  function ToSpace(s: string, i: nat): (j: nat)
    ensures j >= i
    decreases |s| - i
  {
    if At(s, i) == ' ' || At(s, i) == NUL then i else ToSpace(s, i + 1)
  }

  function NameEnd(s: string, i: nat, max: nat): (j: nat)
    ensures i <= j <= i + max && (j <= |s| || j == i)
    decreases max + |s|
  {
    if max == 0 || !NameChar(At(s, i)) then i else NameEnd(s, i + 1, max - 1)
  }

  function OpEnd(s: string, i: nat, max: nat): (j: nat)
    ensures i <= j <= i + max && (j <= |s| || j == i)
    decreases max + |s|
  {
    if max == 0 || !OpChar(At(s, i)) then i else OpEnd(s, i + 1, max - 1)
  }

  function Span(s: string, i: nat, j: nat): string {
    if i <= j <= |s| then s[i..j] else ""
  }

  predicate AndAt(s: string, i: nat) {
    Lower(At(s, i)) == 'a' && Lower(At(s, i + 1)) == 'n' && Lower(At(s, i + 2)) == 'd' && At(s, i + 3) == ' '
  }

  predicate Quoted(s: string, i: nat) {
    At(s, i) == '\''
  }

  predicate OneDigit(s: string, i: nat) {
    IsDigit(At(s, i)) && (At(s, i + 1) == ' ' || At(s, i + 1) == NUL)
  }

  /** The C library's conversion of the number at a place of a text. */
  type Atoi = (string, nat) -> int

  function Value(s: string, i: nat, atoi: Atoi): int {
    if Quoted(s, i) then At(s, i + 1) as int
    else if IsLetter(At(s, i)) || OneDigit(s, i) then At(s, i) as int
    else atoi(s, i)
  }

  function ValueEnd(s: string, i: nat): (j: nat)
    ensures j >= i
  {
    if Quoted(s, i) then (if At(s, i + 2) == '\'' then i + 3 else i + 2)
    else if IsLetter(At(s, i)) then ToSpace(s, i)
    else if OneDigit(s, i) then i + 1
    else ToSpace(s, i)
  }

  /** The condition starting at a place: where its operator and literal start, and its end. */
  datatype Cond = Cond(name: string, op: string, value: int, end: nat)

  function ParseCond(s: string, i: nat, atoi: Atoi): (c: Cond)
    ensures c.end >= i
  {
    var nameEnd := NameEnd(s, i, NAME_MAX);
    var opStart := SkipSpaces(s, nameEnd);
    var opEnd := OpEnd(s, opStart, 3);
    var start := SkipSpaces(s, opEnd);
    Cond(Span(s, i, nameEnd), Span(s, opStart, opEnd), Value(s, start, atoi), ValueEnd(s, start))
  }

  /** A condition takes at least one character unless the text starts with a blank or its end. */
  lemma CondConsumes(s: string, i: nat, atoi: Atoi)
    ensures At(s, i) != ' ' && At(s, i) != NUL ==> ParseCond(s, i, atoi).end > i
  {
  }

  // ---------- columns, operators, instructions ----------

  /** First column with that name, in any case. */
  function FindColumn(cols: seq<string>, name: string): (r: Option<nat>)
    ensures r.Some? ==> r.value < |cols|
  {
    FindColumnFrom(cols, name, 0)
  }

  function FindColumnFrom(cols: seq<string>, name: string, i: nat): (r: Option<nat>)
    ensures r.Some? ==> r.value < |cols|
    decreases |cols| - i
  {
    if i >= |cols| then None else if SameLetters(cols[i], name) then Some(i) else FindColumnFrom(cols, name, i + 1)
  }

  predicate FirstColumn(cols: seq<string>, name: string, i: nat, r: Option<nat>) {
    if r.None? then forall j :: i <= j < |cols| ==> !SameLetters(cols[j], name)
    else i <= r.value < |cols| && SameLetters(cols[r.value], name) && forall j :: i <= j < r.value ==> !SameLetters(cols[j], name)
  }

  lemma {:induction false} FindColumnIsFirst(cols: seq<string>, name: string, i: nat)
    ensures FirstColumn(cols, name, i, FindColumnFrom(cols, name, i))
    decreases |cols| - i
  {
    if i < |cols| && !SameLetters(cols[i], name) {
      FindColumnIsFirst(cols, name, i + 1);
    }
  }

  /** Any operator text but these seven counts as "=". */
  function OpCode(op: string): (code: nat)
    ensures code <= 5
  {
    if op == "=" || op == "==" then 0
    else if op == "!=" then 1
    else if op == "<" then 2
    else if op == "<=" then 3
    else if op == ">" then 4
    else if op == ">=" then 5
    else 0
  }

  datatype Relation = Equal | NotEqual | Less | AtMost | Greater | AtLeast

  /** The comparison the hardware makes for a code. */
  function RelationOf(code: nat): Option<Relation> {
    match code
    case 0 => Some(Equal)
    case 1 => Some(NotEqual)
    case 2 => Some(Less)
    case 3 => Some(AtMost)
    case 4 => Some(Greater)
    case 5 => Some(AtLeast)
    case _ => None
  }

  /** What the author of a WHERE clause means; "<>" is SQL's own text for "not equal". */
  function Meaning(op: string): Option<Relation> {
    if op in {"=", "=="} then Some(Equal)
    else if op in {"!=", "<>"} then Some(NotEqual)
    else if op == "<" then Some(Less)
    else if op == "<=" then Some(AtMost)
    else if op == ">" then Some(Greater)
    else if op == ">=" then Some(AtLeast)
    else None
  }

  const OPERATORS: seq<string> := ["=", "==", "!=", "<", "<=", ">", ">="]

  /** The code sent stands for what was meant exactly for these seven texts; "<>" and every
      text without a meaning become "=". */
  lemma OpCodeMeansIff(op: string)
    ensures RelationOf(OpCode(op)) == Meaning(op) <==> op in OPERATORS
    ensures op !in OPERATORS ==> OpCode(op) == 0 && Meaning(op) != Some(Equal)
  {
    assert OPERATORS[0] == "=" && OPERATORS[1] == "==" && OPERATORS[2] == "!=" && OPERATORS[3] == "<";
    assert OPERATORS[4] == "<=" && OPERATORS[5] == ">" && OPERATORS[6] == ">=";
    assert |op| == 2 ==> op == [op[0], op[1]];
  }

  /** A condition in the hardware's terms. */
  datatype Instr = Instr(column: nat, value: int, op: nat)

  /** The packed word; the fields do not overlap, so the C code's bitwise or is a sum. */
  function WordOf(i: Instr): nat {
    0x1000_0000 + i.column % 64 * 2048 + i.value % 256 * 8 + i.op % 8
  }

  function LimitWord(limit: nat): nat {
    0x2000_0000 + limit % 256
  }

  /** How the hardware takes a condition word apart. */
  function Decode(word: nat): Option<Instr> {
    if word / 0x1000_0000 == 1 then Some(Instr(word / 2048 % 64, word / 8 % 256, word % 8)) else None
  }

  lemma WordDecodes(i: Instr)
    requires i.column < 64 && i.op < 8
    ensures Decode(WordOf(i)) == Some(i.(value := i.value % 256))
  {
    var v := i.value % 256;
    InRange(i.column, i.op);
    Fields(i.column, v, i.op);
    assert WordOf(i) == Packed(i.column, v, i.op);
  }

  function Packed(column: nat, v: nat, op: nat): nat {
    0x1000_0000 + 2048 * column + 8 * v + op
  }

  lemma InRange(column: nat, op: nat)
    requires column < 64 && op < 8
    ensures column % 64 == column && op % 8 == op
  {
  }

  lemma Fields(column: nat, v: nat, op: nat)
    requires column < 64 && v < 256 && op < 8
    ensures Packed(column, v, op) / 0x1000_0000 == 1 && Packed(column, v, op) % 8 == op
    ensures Packed(column, v, op) / 2048 % 64 == column && Packed(column, v, op) / 8 % 256 == v
  {
    var w := Packed(column, v, op);
    assert w == 2048 * (0x2_0000 + column) + (8 * v + op) && w == 8 * (0x200_0000 + 256 * column + v) + op;
    assert w / 2048 == 0x2_0000 + column && w / 8 == 0x200_0000 + 256 * column + v;
    assert 0x2_0000 + column == 64 * 2048 + column;
    assert 0x200_0000 + 256 * column + v == 256 * (0x2_0000 + column) + v;
  }

  /** A request limit survives the 8-bit field exactly when it is below 256; the largest limit
      the firmware admits for row queries, 256, arrives as 0. */
  lemma LimitSurvivesIffBelow256(limit: nat)
    ensures LimitWord(limit) / 0x1000_0000 == 2
    ensures LimitWord(limit) % 256 == limit <==> limit < 256
    ensures LimitWord(256) % 256 == 0
  {
  }

  // ---------- the compiler as a function ----------

  /** The conditions sent, and whether the clause was accepted to its end. */
  datatype Outcome = Outcome(sent: seq<Instr>, ok: bool)

  function Prepend(sent: seq<Instr>, o: Outcome): Outcome {
    Outcome(sent + o.sent, o.ok)
  }

  function AfterAnd(s: string, i: nat): (j: nat)
    ensures j >= i
  {
    if AndAt(s, i) then SkipSpaces(s, i + 4) else i
  }

  /** One pass of the loop: nothing left, an unknown column, or a condition. */
  datatype Pass = Done | BadColumn | Condition(i: Instr, next: nat)

  function OnePass(s: string, i: nat, cols: seq<string>, atoi: Atoi): (r: Pass)
    ensures r.Condition? ==> i < r.next && i < |s| && r.i.column < |cols| && r.i.op <= 5
  {
    var at := SkipSpaces(s, i);
    if At(s, i) == NUL || At(s, at) == NUL then Done
    else
      CondConsumes(s, at, atoi);
      var c := ParseCond(s, AfterAnd(s, at), atoi);
      var column := FindColumn(cols, c.name);
      if column.None? then BadColumn else Condition(Instr(column.value, c.value, OpCode(c.op)), c.end)
  }

  /** Each pass consumes at least one character and sends only what the hardware understands:
      a column of the schema and one of the six operators. */
  ghost predicate Fair(pass: nat -> Pass, len: nat, columns: nat) {
    forall j: nat :: pass(j).Condition? ==> j < pass(j).next && j < len && pass(j).i.column < columns && pass(j).i.op <= 5
  }

  /** The loop over the passes; count instructions have gone out before. */
  function Loop(pass: nat -> Pass, len: nat, ghost columns: nat, i: nat, count: nat): Outcome
    requires Fair(pass, len, columns)
    decreases len - i
  {
    match pass(i)
    case Done => Outcome([], true)
    case BadColumn => Outcome([], false)
    case Condition(instr, next) =>
      if count >= MAX_CONDITIONS then Outcome([], false)
      else Prepend([instr], Loop(pass, len, columns, next, count + 1))
  }

  function Passes(s: string, cols: seq<string>, atoi: Atoi): (pass: nat -> Pass)
    ensures Fair(pass, |s|, |cols|)
  {
    (j: nat) => OnePass(s, j, cols, atoi)
  }

  function Compile(s: string, cols: seq<string>, atoi: Atoi): Outcome {
    Loop(Passes(s, cols, atoi), |s|, |cols|, 0, 0)
  }

  predicate Sound(sent: seq<Instr>, columns: nat) {
    forall k :: 0 <= k < |sent| ==> sent[k].column < columns && sent[k].op <= 5
  }

  lemma {:induction false} LoopIsSound(pass: nat -> Pass, len: nat, columns: nat, i: nat, count: nat)
    requires Fair(pass, len, columns) && count <= MAX_CONDITIONS
    ensures var sent := Loop(pass, len, columns, i, count).sent; |sent| <= MAX_CONDITIONS - count && Sound(sent, columns)
    decreases len - i
  {
    if pass(i).Condition? && count < MAX_CONDITIONS {
      LoopIsSound(pass, len, columns, pass(i).next, count + 1);
    }
  }

  /** For every clause the compiler comes to an end, at most four conditions go out, and each
      names a column of the schema and one of the six operators. */
  lemma SentIsSound(s: string, cols: seq<string>, atoi: Atoi)
    ensures var sent := Compile(s, cols, atoi).sent; |sent| <= MAX_CONDITIONS && Sound(sent, |cols|)
  {
    LoopIsSound(Passes(s, cols, atoi), |s|, |cols|, 0, 0);
  }

  // ---------- the code ----------

  /** The request's zero-padded field; clauses are shorter than it by at least two. */
  predicate Field(f: string) {
    |f| == FIELD_SIZE && f[FIELD_SIZE - 2] == NUL && f[FIELD_SIZE - 1] == NUL
  }

  method SkipSpacesFrom(f: string, ptr: nat) returns (p: nat)
    requires Field(f) && ptr < FIELD_SIZE
    ensures p < FIELD_SIZE && p == SkipSpaces(f, ptr)
  {
    p := ptr;
    while f[p] == ' '
      invariant p < FIELD_SIZE && SkipSpaces(f, ptr) == SkipSpaces(f, p)
      decreases FIELD_SIZE - p
    {
      p := p + 1;
    }
  }

  method ToSpaceFrom(f: string, ptr: nat) returns (p: nat)
    requires Field(f) && ptr < FIELD_SIZE
    ensures p < FIELD_SIZE && p == ToSpace(f, ptr)
  {
    p := ptr;
    while f[p] != ' ' && f[p] != NUL
      invariant p < FIELD_SIZE && ToSpace(f, ptr) == ToSpace(f, p)
      decreases FIELD_SIZE - p
    {
      p := p + 1;
    }
  }

  method CopyName(f: string, ptr: nat) returns (name: string, p: nat)
    requires Field(f) && ptr < FIELD_SIZE
    ensures p < FIELD_SIZE && p == NameEnd(f, ptr, NAME_MAX) && name == Span(f, ptr, p)
  {
    name, p := "", ptr;
    while f[p] != ' ' && f[p] != '=' && f[p] != '<' && f[p] != '>' && f[p] != '!' && f[p] != NUL && |name| < NAME_MAX
      invariant ptr <= p < FIELD_SIZE && |name| <= NAME_MAX && name == f[ptr..p]
      invariant NameEnd(f, ptr, NAME_MAX) == NameEnd(f, p, NAME_MAX - |name|)
      decreases FIELD_SIZE - p
    {
      name, p := name + [f[p]], p + 1;
    }
  }

  method CopyOp(f: string, ptr: nat) returns (op: string, p: nat)
    requires Field(f) && ptr < FIELD_SIZE
    ensures p < FIELD_SIZE && p == OpEnd(f, ptr, 3) && op == Span(f, ptr, p)
  {
    op, p := "", ptr;
    while (f[p] == '=' || f[p] == '<' || f[p] == '>' || f[p] == '!') && |op| < 3
      invariant ptr <= p < FIELD_SIZE && |op| <= 3 && op == f[ptr..p]
      invariant OpEnd(f, ptr, 3) == OpEnd(f, p, 3 - |op|)
      decreases FIELD_SIZE - p
    {
      op, p := op + [f[p]], p + 1;
    }
  }

  method ReadValue(f: string, ptr: nat, atoi: Atoi) returns (value: int, p: nat)
    requires Field(f) && ptr < FIELD_SIZE
    ensures p < FIELD_SIZE && value == Value(f, ptr, atoi) && p == ValueEnd(f, ptr)
  {
    p := ptr;
    if f[p] == '\'' {
      p := p + 1;
      value := f[p] as int;
      p := p + 1;
      if f[p] == '\'' {
        p := p + 1;
      }
    } else if !IsDigit(f[p]) && f[p] != '-' && f[p] != '+' && IsLetter(f[p]) {
      value := f[p] as int;
      p := ToSpaceFrom(f, p);
    } else if IsDigit(f[p]) && (f[p + 1] == ' ' || f[p + 1] == NUL) {
      value := f[p] as int;
      p := p + 1;
    } else {
      value := atoi(f, p);
      p := ToSpaceFrom(f, p);
    }
  }

  /** find_column_index. */
  method ColumnIndex(cols: seq<string>, name: string) returns (r: Option<nat>)
    ensures r == FindColumn(cols, name)
  {
    var i := 0;
    while i < |cols|
      invariant 0 <= i <= |cols|
      invariant FindColumn(cols, name) == FindColumnFrom(cols, name, i)
    {
      if SameLetters(cols[i], name) {
        return Some(i);
      }
      i := i + 1;
    }
    return None;
  }

  /** One condition, from its name on. */
  method ReadCond(f: string, ptr: nat, atoi: Atoi) returns (name: string, op: string, value: int, p: nat)
    requires Field(f) && ptr < FIELD_SIZE
    ensures p < FIELD_SIZE && Cond(name, op, value, p) == ParseCond(f, ptr, atoi)
  {
    name, p := CopyName(f, ptr);
    p := SkipSpacesFrom(f, p);
    op, p := CopyOp(f, p);
    p := SkipSpacesFrom(f, p);
    value, p := ReadValue(f, p, atoi);
  }

  /** The passes of this field, for places below n. */
  ghost predicate PassesOf(pass: nat -> Pass, f: string, cols: seq<string>, atoi: Atoi, n: nat) {
    n == 0 || (PassesOf(pass, f, cols, atoi, n - 1) && pass(n - 1) == OnePass(f, n - 1, cols, atoi))
  }

  lemma {:induction false} PassAt(pass: nat -> Pass, f: string, cols: seq<string>, atoi: Atoi, n: nat, i: nat)
    requires PassesOf(pass, f, cols, atoi, n) && i < n
    ensures pass(i) == OnePass(f, i, cols, atoi)
  {
    if i < n - 1 {
      PassAt(pass, f, cols, atoi, n - 1, i);
    }
  }

  lemma {:induction false} AllPasses(f: string, cols: seq<string>, atoi: Atoi, n: nat)
    ensures PassesOf(Passes(f, cols, atoi), f, cols, atoi, n)
  {
    if n != 0 {
      AllPasses(f, cols, atoi, n - 1);
    }
  }

  /** The body of the loop up to the point where an instruction is sent. */
  method RunPass(f: string, ptr: nat, cols: seq<string>, atoi: Atoi) returns (pass: Pass)
    requires Field(f) && ptr < FIELD_SIZE && f[ptr] != NUL
    ensures pass == OnePass(f, ptr, cols, atoi) && (pass.Condition? ==> pass.next < FIELD_SIZE)
  {
    var p := SkipSpacesFrom(f, ptr);
    if f[p] == NUL {
      return Done;
    }
    if AndAt(f, p) {
      p := SkipSpacesFrom(f, p + 4);
    }
    var name, op, value;
    name, op, value, p := ReadCond(f, p, atoi);
    var column := ColumnIndex(cols, name);
    if column.None? {
      return BadColumn;
    }
    pass := Condition(Instr(column.value, value, OpCode(op)), p);
  }

  method NextPass(f: string, ptr: nat, cols: seq<string>, atoi: Atoi, ghost pass: nat -> Pass) returns (r: Pass)
    requires Field(f) && ptr < FIELD_SIZE && PassesOf(pass, f, cols, atoi, FIELD_SIZE)
    ensures r == pass(ptr) && (r.Condition? ==> r.next < FIELD_SIZE)
    ensures f[ptr] == NUL ==> r == Done
  {
    PassAt(pass, f, cols, atoi, FIELD_SIZE, ptr);
    if f[ptr] == NUL {
      r := Done;
    } else {
      r := RunPass(f, ptr, cols, atoi);
    }
  }

  /** The loop: sent lists the instructions in order. */
  method SendAll(f: string, cols: seq<string>, atoi: Atoi, ghost pass: nat -> Pass) returns (sent: seq<Instr>, ok: bool)
    requires Field(f) && PassesOf(pass, f, cols, atoi, FIELD_SIZE) && Fair(pass, FIELD_SIZE, |cols|)
    ensures Outcome(sent, ok) == Loop(pass, FIELD_SIZE, |cols|, 0, 0)
  {
    sent := [];
    var ptr := 0;
    ghost var whole := Loop(pass, FIELD_SIZE, |cols|, 0, 0);
    while true
      invariant ptr < FIELD_SIZE && whole == Prepend(sent, Loop(pass, FIELD_SIZE, |cols|, ptr, |sent|))
      decreases FIELD_SIZE - ptr
    {
      LoopStep(pass, FIELD_SIZE, |cols|, ptr, sent);
      var next := NextPass(f, ptr, cols, atoi, pass);
      if next.Done? {
        return sent, true;
      }
      if next.BadColumn? || |sent| >= MAX_CONDITIONS {
        return sent, false;
      }
      ptr := next.next;
      sent := sent + [next.i];
    }
  }

  lemma LoopStep(pass: nat -> Pass, len: nat, columns: nat, i: nat, sent: seq<Instr>)
    requires Fair(pass, len, columns)
    ensures var whole, p := Prepend(sent, Loop(pass, len, columns, i, |sent|)), pass(i);
            if p.Condition? && |sent| < MAX_CONDITIONS then
              i < p.next && whole == Prepend(sent + [p.i], Loop(pass, len, columns, p.next, |sent + [p.i]|))
            else whole == Outcome(sent, p.Done?)
  {
    if pass(i).Condition? && |sent| < MAX_CONDITIONS {
      var tail := Loop(pass, len, columns, pass(i).next, |sent| + 1);
      assert sent + ([pass(i).i] + tail.sent) == sent + [pass(i).i] + tail.sent;
    }
  }

  /** The WHERE part of compile_and_send_instructions. */
  method CompileWhere(f: string, cols: seq<string>, atoi: Atoi) returns (sent: seq<Instr>, ok: bool)
    requires Field(f)
    ensures Outcome(sent, ok) == Compile(f, cols, atoi)
  {
    AllPasses(f, cols, atoi, FIELD_SIZE);
    sent, ok := SendAll(f, cols, atoi, Passes(f, cols, atoi));
  }
}
