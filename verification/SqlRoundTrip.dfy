/** From SQL text to instructions: a clause printed into SELECT .. FROM .. WHERE .. text is cut
    out and compiled back to its conditions. */
module SqlRoundTrip {
  import opened Machine
  import opened Options
  import opened SqlText
  import opened WhereCompiler
  import opened WhereRoundTrip

  // ---------- no keyword starts inside a printed clause ----------

  predicate AfterFirst(c: char) {
    Lower(c) == 'i' || Lower(c) == 'r'
  }

  predicate FirstOne(c: char) {
    Lower(c) == 'l' || Lower(c) == 'o' || Lower(c) == 'g'
  }

  /** No neighbours that could be the first two letters of LIMIT, ORDER or GROUP. */
  predicate Apart(w: string) {
    forall k :: 0 <= k < |w| - 1 ==> !(FirstOne(w[k]) && AfterFirst(w[k + 1]))
  }

  /** A text that can be joined on either side: it neither ends like the start of one of the
      keywords nor starts like its second letter. */
  predicate Loose(w: string) {
    Apart(w) && (w != [] ==> !AfterFirst(w[0]))
  }

  lemma ApartJoins(a: string, b: string)
    requires Apart(a) && Loose(b)
    ensures Apart(a + b) && (Loose(a) ==> Loose(a + b))
  {
    var w := a + b;
    forall k | 0 <= k < |w| - 1 ensures !(FirstOne(w[k]) && AfterFirst(w[k + 1])) {
      if k < |a| - 1 {
        assert w[k] == a[k] && w[k + 1] == a[k + 1];
      } else if k == |a| - 1 {
        assert w[k + 1] == b[0];
      } else {
        assert w[k] == b[k - |a|] && w[k + 1] == b[k + 1 - |a|];
      }
    }
  }

  lemma OpIsLoose(op: string)
    requires OpText(op)
    ensures Loose(op)
  {
  }

  lemma TermIsApart(t: Term, name: char)
    requires OpText(t.op)
    ensures Apart(TermText(t, name))
  {
    var lit := LiteralText(t.literal);
    var rest := t.op + (Blanks(t.afterOp) + lit);
    OpIsLoose(t.op);
    LiteralApart(t, lit);
    LooseStart(t, rest);
    ApartJoins([name], Blanks(t.beforeOp) + rest);
  }

  /** The literal is preceded by an operator or a blank, so it cannot complete a pair. */
  lemma LiteralApart(t: Term, lit: string)
    requires lit == LiteralText(t.literal) && OpText(t.op)
    ensures Apart(t.op + (Blanks(t.afterOp) + lit))
  {
    var w := t.op + (Blanks(t.afterOp) + lit);
    var m := |t.op| + t.afterOp;
    forall k | 0 <= k < |w| - 1 ensures !(FirstOne(w[k]) && AfterFirst(w[k + 1])) {
      if k < |t.op| {
        assert w[k] == t.op[k];
      } else if k < m {
        assert w[k] == ' ';
      } else {
        assert w[k] == lit[k - m] && w[k + 1] == lit[k + 1 - m];
      }
    }
  }

  lemma LooseStart(t: Term, rest: string)
    requires OpText(t.op) && rest == t.op + (Blanks(t.afterOp) + LiteralText(t.literal)) && Apart(rest)
    ensures Loose(Blanks(t.beforeOp) + rest)
  {
    OpIsLoose(t.op);
    assert rest[0] == t.op[0];
    ApartJoins(Blanks(t.beforeOp), rest);
  }

  lemma JoinedIsLoose(t: Term, cols: seq<string>)
    requires Printable(t, cols)
    ensures Loose(JoinedText(t, cols))
  {
    var text := TermText(t, cols[t.column][0]);
    TermIsApart(t, cols[t.column][0]);
    BlankFirst(t.afterAnd, text);
    ApartJoins("AND", Blanks(t.afterAnd + 1) + text);
    ApartJoins(Blanks(t.beforeAnd + 1), "AND" + (Blanks(t.afterAnd + 1) + text));
  }

  lemma BlankFirst(n: nat, w: string)
    requires Apart(w)
    ensures Loose(Blanks(n + 1) + w)
  {
    var b := Blanks(n + 1);
    forall k | 0 <= k < |b + w| - 1 ensures !(FirstOne((b + w)[k]) && AfterFirst((b + w)[k + 1])) {
      if k > n {
        assert (b + w)[k] == w[k - n - 1] && (b + w)[k + 1] == w[k - n];
      }
    }
  }

  lemma {:induction false} TailIsLoose(ts: seq<Term>, cols: seq<string>)
    requires AllPrintable(ts, cols)
    ensures Loose(TailText(ts, cols))
  {
    if ts != [] {
      JoinedIsLoose(ts[0], cols);
      TailIsLoose(ts[1..], cols);
      ApartJoins(JoinedText(ts[0], cols), TailText(ts[1..], cols));
    }
  }

  lemma ClauseIsApart(ts: seq<Term>, cols: seq<string>)
    requires ts != [] && AllPrintable(ts, cols)
    ensures Apart(ClauseText(ts, cols))
  {
    TermIsApart(ts[0], cols[ts[0].column][0]);
    TailIsLoose(ts[1..], cols);
    ApartJoins(TermText(ts[0], cols[ts[0].column][0]), TailText(ts[1..], cols));
  }

  // ---------- ends of a printed clause ----------

  predicate BothEndsStay(w: string) {
    w != [] && !IsSpace(w[0]) && !EndTrimmed(w[|w| - 1])
  }

  lemma TermEnds(t: Term, cols: seq<string>)
    requires Printable(t, cols)
    ensures BothEndsStay(TermText(t, cols[t.column][0]))
  {
    var text := TermText(t, cols[t.column][0]);
    var lit := LiteralText(t.literal);
    assert text[|text| - 1] == lit[|lit| - 1];
  }

  lemma {:induction false} TailEnds(ts: seq<Term>, cols: seq<string>)
    requires AllPrintable(ts, cols)
    ensures ts != [] ==> TailText(ts, cols) != [] && !EndTrimmed(TailText(ts, cols)[|TailText(ts, cols)| - 1])
  {
    if ts != [] {
      TermEnds(ts[0], cols);
      TailEnds(ts[1..], cols);
      var text := TermText(ts[0], cols[ts[0].column][0]);
      var w := JoinedText(ts[0], cols);
      assert w[|w| - 1] == text[|text| - 1];
    }
  }

  lemma ClauseEnds(ts: seq<Term>, cols: seq<string>)
    requires ts != [] && AllPrintable(ts, cols)
    ensures BothEndsStay(ClauseText(ts, cols))
  {
    TermEnds(ts[0], cols);
    TailEnds(ts[1..], cols);
  }

  // ---------- the clause inside the SQL text ----------

  /** What ends a clause besides the end of the text. */
  predicate Ender(keyword: string) {
    keyword == "LIMIT" || keyword == "ORDER" || keyword == "GROUP"
  }

  /** Everything before the WHERE, with none of the keywords as a token of its own. */
  predicate HeadOk(head: string) {
    && NoKeyword(head, "WHERE", 0, |head|) && NoKeyword(head, "LIMIT", 0, |head|)
    && NoKeyword(head, "ORDER", 0, |head|) && NoKeyword(head, "GROUP", 0, |head|)
  }

  /** Nothing after the clause, or one of the other clauses. */
  predicate TailOk(tail: string) {
    tail == "" || (tail[0] == ' ' && (KeywordAt(tail, 1, "LIMIT") || KeywordAt(tail, 1, "ORDER") || KeywordAt(tail, 1, "GROUP")))
  }

  function Sql(head: string, clause: string, tail: string): string {
    head + (" WHERE " + (clause + tail))
  }

  predicate CanHold(head: string, clause: string, tail: string) {
    HeadOk(head) && TailOk(tail) && Apart(clause) && BothEndsStay(clause)
  }

  /** The characters of the text, place by place. */
  lemma Places(head: string, clause: string, tail: string, j: nat)
    requires j < |Sql(head, clause, tail)|
    ensures var c, h := Sql(head, clause, tail)[j], |head|;
            c == if j < h then head[j] else if j < h + 7 then " WHERE "[j - h]
                 else if j < h + 7 + |clause| then clause[j - h - 7] else tail[j - h - 7 - |clause|]
  {
  }

  lemma KeywordLetters(s: string, j: nat, keyword: string, d: nat)
    requires KeywordAt(s, j, keyword) && d < |keyword|
    ensures j + d < |s| && Lower(s[j + d]) == Lower(keyword[d])
  {
    assert s[j..j + |keyword|][d] == s[j + d];
  }

  /** A keyword that stood in the head of the text would stand in the head alone. */
  lemma KeywordInHead(head: string, rest: string, keyword: string, j: nat)
    requires KeywordAt(head + rest, j, keyword) && j + |keyword| <= |head| && keyword != ""
    ensures KeywordAt(head, j, keyword)
  {
    assert (head + rest)[j..j + |keyword|] == head[j..j + |keyword|];
  }

  /** A keyword that stands in the rest of the text stands there in the whole text. */
  lemma KeywordInRest(head: string, rest: string, keyword: string, j: nat)
    requires KeywordAt(rest, j, keyword) && j > 0
    ensures KeywordAt(head + rest, |head| + j, keyword)
  {
    assert (head + rest)[|head| + j..|head| + j + |keyword|] == rest[j..j + |keyword|];
    assert (head + rest)[|head| + j - 1] == rest[j - 1];
  }

  lemma NotInHead(head: string, clause: string, tail: string, keyword: string, j: nat)
    requires HeadOk(head) && (keyword == "WHERE" || Ender(keyword)) && j <= |head|
    ensures !KeywordAt(Sql(head, clause, tail), j, keyword)
  {
    var sql := Sql(head, clause, tail);
    if KeywordAt(sql, j, keyword) {
      if j + |keyword| <= |head| {
        KeywordInHead(head, " WHERE " + (clause + tail), keyword, j);
      } else {
        Places(head, clause, tail, |head|);
        KeywordLetters(sql, j, keyword, |head| - j);
      }
    }
  }

  lemma WhereFound(head: string, clause: string, tail: string)
    requires CanHold(head, clause, tail)
    ensures Find(Sql(head, clause, tail), "WHERE") == Some(|head| + 1)
  {
    var sql, rest := Sql(head, clause, tail), " WHERE " + (clause + tail);
    assert rest[1..6] == "WHERE" && At(rest, 6) == ' ';
    assert KeywordAt(rest, 1, "WHERE");
    KeywordInRest(head, rest, "WHERE", 1);
    forall j: nat | j < |head| + 1 ensures !KeywordAt(sql, j, "WHERE") {
      NotInHead(head, clause, tail, "WHERE", j);
    }
    FirstIsUnique(sql, "WHERE", Some(|head| + 1));
  }

  lemma NotInClause(head: string, clause: string, tail: string, keyword: string, j: nat)
    requires CanHold(head, clause, tail) && Ender(keyword) && |head| < j <= |head| + 7 + |clause|
    ensures !KeywordAt(Sql(head, clause, tail), j, keyword)
  {
    var sql, c := Sql(head, clause, tail), |head| + 7;
    if j + 1 < |sql| {
      Places(head, clause, tail, j);
      Places(head, clause, tail, j + 1);
      assert c <= j < c + |clause| - 1 ==> !(FirstOne(clause[j - c]) && AfterFirst(clause[j - c + 1]));
      assert !(FirstOne(sql[j]) && AfterFirst(sql[j + 1]));
    }
    if KeywordAt(sql, j, keyword) {
      KeywordLetters(sql, j, keyword, 1);
      KeywordLetters(sql, j, keyword, 0);
    }
  }

  lemma EndersAfter(head: string, clause: string, tail: string, keyword: string)
    requires CanHold(head, clause, tail) && Ender(keyword)
    ensures NoKeyword(Sql(head, clause, tail), keyword, 0, |head| + 8 + |clause|)
  {
    forall j: nat | j < |head| + 8 + |clause| ensures !KeywordAt(Sql(head, clause, tail), j, keyword) {
      if j <= |head| {
        NotInHead(head, clause, tail, keyword, j);
      } else {
        NotInClause(head, clause, tail, keyword, j);
      }
    }
  }

  /** Where the search for one of the enders can succeed. */
  lemma EnderFound(head: string, clause: string, tail: string, keyword: string)
    requires CanHold(head, clause, tail) && Ender(keyword)
    ensures var r, at := Find(Sql(head, clause, tail), keyword), |head| + 8 + |clause|;
            && (tail == "" ==> r == None)
            && (r.Some? ==> r.value >= at)
            && (tail != "" && KeywordAt(tail, 1, keyword) ==> r == Some(at))
  {
    var sql, at := Sql(head, clause, tail), |head| + 8 + |clause|;
    EndersAfter(head, clause, tail, keyword);
    FindIsFirst(sql, keyword, 0);
    var r := Find(sql, keyword);
    if tail != "" && KeywordAt(tail, 1, keyword) {
      var front := head + (" WHERE " + clause);
      assert sql == front + tail;
      KeywordInRest(front, tail, keyword, 1);
      FirstIsUnique(sql, keyword, Some(at));
    }
  }

  lemma ClauseEndFound(head: string, clause: string, tail: string)
    requires CanHold(head, clause, tail)
    ensures ClauseEnd(Sql(head, clause, tail), |head| + 1) == |head| + 7 + |clause| + (if tail == "" then 0 else 1)
  {
    EnderFound(head, clause, tail, "LIMIT");
    EnderFound(head, clause, tail, "ORDER");
    EnderFound(head, clause, tail, "GROUP");
  }

  lemma BetweenKeywords(head: string, clause: string, tail: string, post: string)
    requires if tail == "" then post == "" else tail[0] == ' ' && post == " "
    ensures var from := |head| + 6;
            Sql(head, clause, tail)[from..from + 1 + |clause| + |post|] == " " + clause + post
  {
    var sql, from, w := Sql(head, clause, tail), |head| + 6, " " + clause + post;
    forall j | 0 <= j < |w| ensures sql[from + j] == w[j] {
      Places(head, clause, tail, from + j);
    }
  }

  /** The clause is cut out exactly. */
  lemma ClauseIsExtracted(head: string, clause: string, tail: string)
    requires CanHold(head, clause, tail) && |clause| < WHERE_SIZE - 1
    ensures WhereClause(Sql(head, clause, tail)) == clause
  {
    var sql := Sql(head, clause, tail);
    var post := if tail == "" then "" else " ";
    WhereFound(head, clause, tail);
    ClauseEndFound(head, clause, tail);
    WhereClauseIs(sql, |head| + 1, |head| + 7 + |clause| + |post|);
    BetweenKeywords(head, clause, tail, post);
    TrimmedIs(clause, post);
  }

  lemma WhereClauseIs(sql: string, at: nat, end: nat)
    requires Find(sql, "WHERE") == Some(at) && ClauseEnd(sql, at) == end && at + 5 < end <= |sql|
    ensures WhereClause(sql) == Trimmed(sql[at + 5..end], WHERE_SIZE)
  {
  }

  lemma TrimmedIs(clause: string, post: string)
    requires BothEndsStay(clause) && |clause| < WHERE_SIZE - 1 && (post == "" || post == " ")
    ensures Trimmed(" " + clause + post, WHERE_SIZE) == clause
  {
    TrimsBlanks(" ", clause, post);
  }

  // ---------- the round trip ----------

  /** Conditions printed into SQL text of at most 255 characters are extracted and compiled to
      one instruction each, in order, if there are at most four (of more, the first four go out
      and the clause is refused); the words decode to the conditions' columns, values and
      operators, with what was meant for exactly the seven operator texts. */
  lemma QueryRoundTrips(head: string, ts: seq<Term>, tail: string, cols: seq<string>, atoi: Atoi)
    requires ts != [] && |cols| <= 64 && AllPrintable(ts, cols)
    requires HeadOk(head) && TailOk(tail) && |Sql(head, ClauseText(ts, cols), tail)| <= 255
    ensures var clause := WhereClause(Sql(head, ClauseText(ts, cols), tail));
            |clause| <= 250 && Compile(Padded(clause), cols, atoi) == Accepted(ts, 0)
    ensures forall k :: 0 <= k < |ts| ==>
              && Decode(WordOf(Instrs(ts)[k])) == Some(InstrOf(ts[k]))
              && (RelationOf(InstrOf(ts[k]).op) == Meaning(ts[k].op) <==> ts[k].op in OPERATORS)
  {
    var text := ClauseText(ts, cols);
    ClauseIsApart(ts, cols);
    ClauseEnds(ts, cols);
    ClauseIsExtracted(head, text, tail);
    ClauseIsShort(Sql(head, text, tail));
    ClauseCompiles(ts, cols, atoi);
    forall k | 0 <= k < |ts|
      ensures Decode(WordOf(Instrs(ts)[k])) == Some(InstrOf(ts[k]))
      ensures RelationOf(InstrOf(ts[k]).op) == Meaning(ts[k].op) <==> ts[k].op in OPERATORS
    {
      WordsDecode(ts, cols, k);
    }
  }
}
