/** Cutting the WHERE clause out of the SQL text of a request (network_tasks.c).  A text is the
    characters before its terminating NUL. */
module SqlText {
  import opened Options

  const NUL := '\0'

  predicate IsSpace(c: char) {
    c == ' ' || 9 <= c as int <= 13
  }

  predicate Boundary(c: char) {
    c == NUL || IsSpace(c) || c == ',' || c == '(' || c == ')'
  }

  predicate IsLetter(c: char) {
    'a' <= c <= 'z' || 'A' <= c <= 'Z'
  }

  predicate IsDigit(c: char) {
    '0' <= c <= '9'
  }

  function Lower(c: char): char {
    if 'A' <= c <= 'Z' then (c as int + 32) as char else c
  }

  predicate SameLetters(s: string, t: string) {
    |s| == |t| && forall i :: 0 <= i < |s| ==> Lower(s[i]) == Lower(t[i])
  }

  /** The character a C pointer sees: NUL at the end. */
  function At(s: string, i: nat): char {
    if i < |s| then s[i] else NUL
  }

  // ---------- keywords ----------

  /** A keyword as a token of its own, in any case. */
  predicate KeywordAt(sql: string, i: nat, keyword: string) {
    && i + |keyword| <= |sql| && SameLetters(sql[i..i + |keyword|], keyword)
    && Boundary(if i == 0 then ' ' else sql[i - 1]) && Boundary(At(sql, i + |keyword|))
  }

  predicate NoKeyword(sql: string, keyword: string, from: nat, to: nat) {
    forall i: nat :: from <= i < to ==> !KeywordAt(sql, i, keyword)
  }

  /** First place the keyword stands. */
  predicate FirstKeyword(sql: string, keyword: string, r: Option<nat>) {
    if r.None? then NoKeyword(sql, keyword, 0, |sql|)
    else KeywordAt(sql, r.value, keyword) && r.value < |sql| && NoKeyword(sql, keyword, 0, r.value)
  }

  function FindFrom(sql: string, keyword: string, i: nat): Option<nat>
    decreases |sql| - i
  {
    if i >= |sql| then None
    else if KeywordAt(sql, i, keyword) then Some(i)
    else FindFrom(sql, keyword, i + 1)
  }

  function Find(sql: string, keyword: string): Option<nat> {
    FindFrom(sql, keyword, 0)
  }

  lemma {:induction false} FindIsFirst(sql: string, keyword: string, i: nat)
    requires NoKeyword(sql, keyword, 0, i)
    ensures FirstKeyword(sql, keyword, FindFrom(sql, keyword, i))
    decreases |sql| - i
  {
    if i < |sql| && !KeywordAt(sql, i, keyword) {
      FindIsFirst(sql, keyword, i + 1);
    }
  }

  lemma FirstIsUnique(sql: string, keyword: string, r: Option<nat>)
    requires FirstKeyword(sql, keyword, r)
    ensures Find(sql, keyword) == r
  {
    FindIsFirst(sql, keyword, 0);
    var f := Find(sql, keyword);
    assert f.Some? ==> KeywordAt(sql, f.value, keyword);
  }

  /** find_sql_keyword. */
  method FindSqlKeyword(sql: string, keyword: string) returns (r: Option<nat>)
    ensures r == Find(sql, keyword)
  {
    var cursor := 0;
    while cursor < |sql|
      invariant 0 <= cursor <= |sql| && NoKeyword(sql, keyword, 0, cursor)
    {
      var before := if cursor == 0 then ' ' else sql[cursor - 1];
      var after := At(sql, cursor + |keyword|);
      if Boundary(before) {
        var same := SameAt(sql, cursor, keyword);
        if same && Boundary(after) {
          FirstIsUnique(sql, keyword, Some(cursor));
          return Some(cursor);
        }
      }
      cursor := cursor + 1;
    }
    FirstIsUnique(sql, keyword, None);
    return None;
  }

  /** ascii_strncasecmp_local against a keyword; the text's terminator never matches. */
  method SameAt(sql: string, at: nat, keyword: string) returns (same: bool)
    ensures same <==> at + |keyword| <= |sql| && SameLetters(sql[at..at + |keyword|], keyword)
  {
    var i := 0;
    while i < |keyword|
      invariant 0 <= i <= |keyword| && (i > 0 ==> at + i <= |sql|)
      invariant forall j :: 0 <= j < i ==> Lower(sql[at + j]) == Lower(keyword[j])
    {
      if at + i >= |sql| || Lower(sql[at + i]) != Lower(keyword[i]) {
        if at + |keyword| <= |sql| {
          assert sql[at..at + |keyword|][i] == sql[at + i];
        }
        return false;
      }
      i := i + 1;
    }
    return at + |keyword| <= |sql|;
  }

  // ---------- trimming ----------

  predicate EndTrimmed(c: char) {
    c == NUL || c == ' ' || c == '\r' || c == '\n' || c == '\t'
  }

  function TrimFront(s: string): string {
    if s != [] && IsSpace(s[0]) then TrimFront(s[1..]) else s
  }

  function TrimEnd(s: string): string {
    if s != [] && EndTrimmed(s[|s| - 1]) then TrimEnd(s[..|s| - 1]) else s
  }

  /** What trim_copy leaves in a buffer of the given size, without the terminator. */
  function Trimmed(src: string, size: nat): string
    requires size > 0
  {
    var t := TrimEnd(TrimFront(src));
    if |t| >= size - 1 then t[..size - 1] else t
  }

  method SkipFront(src: string) returns (start: nat)
    ensures start <= |src| && src[start..] == TrimFront(src)
  {
    start := 0;
    while start < |src| && IsSpace(src[start])
      invariant 0 <= start <= |src|
      invariant TrimFront(src) == TrimFront(src[start..])
    {
      assert src[start..][1..] == src[start + 1..];
      start := start + 1;
    }
  }

  method SkipEnd(src: string) returns (end: nat)
    ensures end <= |src| && src[..end] == TrimEnd(src)
  {
    end := |src|;
    assert src[..end] == src;
    while end > 0 && EndTrimmed(src[end - 1])
      invariant 0 <= end <= |src|
      invariant TrimEnd(src) == TrimEnd(src[..end])
    {
      assert src[..end][..end - 1] == src[..end - 1];
      end := end - 1;
    }
  }

  /** trim_copy. */
  method TrimCopy(src: string, size: nat) returns (dst: string)
    requires size > 0
    ensures dst == Trimmed(src, size)
  {
    var start := SkipFront(src);
    var rest := src[start..];
    var len := SkipEnd(rest);
    var copied := len;
    if copied >= size - 1 {
      copied := size - 1;
    }
    assert rest[..len][..copied] == rest[..copied];
    dst := rest[..copied];
  }

  lemma TrimsBlanks(pre: string, body: string, post: string)
    requires forall c :: c in pre ==> IsSpace(c)
    requires forall c :: c in post ==> EndTrimmed(c)
    requires body != [] && !IsSpace(body[0]) && !EndTrimmed(body[|body| - 1])
    ensures TrimEnd(TrimFront(pre + body + post)) == body
  {
    TrimsFront(pre, body + post);
    assert pre + body + post == pre + (body + post);
    TrimsEnd(body, post);
  }

  lemma {:induction false} TrimsFront(pre: string, body: string)
    requires (forall c :: c in pre ==> IsSpace(c)) && body != [] && !IsSpace(body[0])
    ensures TrimFront(pre + body) == body
  {
    if pre == [] {
      assert pre + body == body;
    } else {
      assert pre[0] in pre && (pre + body)[1..] == pre[1..] + body;
      TrimsFront(pre[1..], body);
    }
  }

  lemma {:induction false} TrimsEnd(body: string, post: string)
    requires (forall c :: c in post ==> EndTrimmed(c)) && body != [] && !EndTrimmed(body[|body| - 1])
    ensures TrimEnd(body + post) == body
  {
    if post == [] {
      assert body + post == body;
    } else {
      var n := |post| - 1;
      assert post[n] in post && (body + post)[..|body + post| - 1] == body + post[..n];
      TrimsEnd(body, post[..n]);
    }
  }

  // ---------- the WHERE clause ----------

  const WHERE_SIZE := 256

  function Later(pos: Option<nat>, than: nat): Option<nat> {
    if pos.Some? && pos.value > than then pos else None
  }

  function Earlier(end: nat, pos: Option<nat>): nat {
    if pos.Some? && pos.value < end then pos.value else end
  }

  /** Where the clause of a WHERE at this place ends. */
  function ClauseEnd(sql: string, at: nat): nat {
    EndOf(|sql|, at, Find(sql, "LIMIT"), Find(sql, "ORDER"), Find(sql, "GROUP"))
  }

  function EndOf(len: nat, at: nat, limit: Option<nat>, order: Option<nat>, group: Option<nat>): nat {
    Earlier(Earlier(Earlier(len, Later(limit, at)), Later(order, at)), Later(group, at))
  }

  /** The where_clause field extract_sql_fragments fills in. */
  function WhereClause(sql: string): string {
    match Find(sql, "WHERE")
    case None => ""
    case Some(at) => Between(sql, at + 5, ClauseEnd(sql, at))
  }

  function Between(sql: string, from: nat, end: nat): string {
    if from < end <= |sql| then Trimmed(sql[from..end], WHERE_SIZE) else ""
  }

  lemma FoundInside(sql: string, keyword: string)
    ensures Find(sql, keyword).Some? ==> Find(sql, keyword).value + |keyword| <= |sql|
  {
    FindIsFirst(sql, keyword, 0);
  }

  /** earliest_sql_clause_end, with the candidates that lie behind the WHERE. */
  method EarliestEnd(len: nat, at: nat, limit: Option<nat>, order: Option<nat>, group: Option<nat>) returns (end: nat)
    ensures end == EndOf(len, at, limit, order, group) <= len
  {
    end := len;
    if limit.Some? && limit.value > at && limit.value < end {
      end := limit.value;
    }
    if order.Some? && order.value > at && order.value < end {
      end := order.value;
    }
    if group.Some? && group.value > at && group.value < end {
      end := group.value;
    }
  }

  method ExtractWhere(sql: string) returns (clause: string)
    ensures clause == WhereClause(sql)
  {
    var wherePos := FindSqlKeyword(sql, "WHERE");
    var limitPos := FindSqlKeyword(sql, "LIMIT");
    var orderPos := FindSqlKeyword(sql, "ORDER");
    var groupPos := FindSqlKeyword(sql, "GROUP");
    if wherePos.None? {
      return "";
    }
    var end := EarliestEnd(|sql|, wherePos.value, limitPos, orderPos, groupPos);
    FoundInside(sql, "WHERE");
    if end > wherePos.value + 5 {
      clause := TrimCopy(sql[wherePos.value + 5..end], WHERE_SIZE);
    } else {
      clause := "";
    }
  }

  /** The clause is never so long that the compiler could run past the zero padding of its
      256-byte field: SQL texts have at most 255 characters. */
  lemma ClauseIsShort(sql: string)
    requires |sql| <= 255
    ensures |WhereClause(sql)| <= 250
  {
    var w := Find(sql, "WHERE");
    FoundInside(sql, "WHERE");
    if w.Some? {
      BetweenIsShort(sql, w.value + 5, ClauseEnd(sql, w.value));
    }
  }

  lemma BetweenIsShort(sql: string, from: nat, end: nat)
    ensures |Between(sql, from, end)| <= |sql| - from || Between(sql, from, end) == ""
  {
    if from < end <= |sql| {
      TrimShortens(sql[from..end]);
    }
  }

  lemma {:induction false} FrontShortens(s: string)
    ensures |TrimFront(s)| <= |s|
  {
    if s != [] && IsSpace(s[0]) {
      FrontShortens(s[1..]);
    }
  }

  lemma {:induction false} EndShortens(s: string)
    ensures |TrimEnd(s)| <= |s|
  {
    if s != [] && EndTrimmed(s[|s| - 1]) {
      EndShortens(s[..|s| - 1]);
    }
  }

  lemma TrimShortens(s: string)
    ensures |TrimEnd(TrimFront(s))| <= |s|
  {
    FrontShortens(s);
    EndShortens(TrimFront(s));
  }
}
