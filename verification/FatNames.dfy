/** The 8.3 names the reader looks for (to83 and to83_alias_guess in sd_driver.c). */
module FatNames {
  import opened Machine

  function ToUpper(c: char): char {
    if 'a' <= c <= 'z' then (c as int - 32) as char else c
  }

  function Upper(s: string): (r: string)
    ensures |r| == |s| && forall k :: 0 <= k < |s| ==> r[k] == ToUpper(s[k])
  {
    seq(|s|, k requires 0 <= k < |s| => ToUpper(s[k]))
  }

  function Clip(s: string, n: nat): (r: string)
    ensures |r| <= n && |r| <= |s|
  {
    if |s| <= n then s else s[..n]
  }

  /** A name field: the text in capitals, cut or filled with blanks to n characters. */
  function FieldOf(s: string, n: nat): (r: string)
    ensures |r| == n
  {
    Upper(Clip(s, n)) + Blanks(n - |Clip(s, n)|)
  }

  /** The last dot splits base and extension. */
  function BaseLen(name: string): (n: nat)
    ensures n <= |name|
    ensures n < |name| ==> name[n] == '.'
    ensures forall k :: n < k < |name| ==> name[k] != '.'
    ensures n == |name| ==> forall k :: 0 <= k < |name| ==> name[k] != '.'
  {
    LastDot(name, |name|)
  }

  function LastDot(name: string, i: nat): (n: nat)
    requires i <= |name| && forall k :: i <= k < |name| ==> name[k] != '.'
    ensures n <= |name|
    ensures n < |name| ==> name[n] == '.'
    ensures forall k :: n < k < |name| ==> name[k] != '.'
    ensures n == |name| ==> forall k :: 0 <= k < |name| ==> name[k] != '.'
  {
    if i == 0 then |name| else if name[i - 1] == '.' then i - 1 else LastDot(name, i - 1)
  }

  function Base(name: string): string {
    name[..BaseLen(name)]
  }

  function Extension(name: string): string {
    if BaseLen(name) < |name| then name[BaseLen(name) + 1..] else ""
  }

  function Name83(name: string): string {
    FieldOf(Base(name), 8) + FieldOf(Extension(name), 3)
  }

  function AliasGuess(name: string): string {
    FieldOf(Base(name), 6) + "~1" + FieldOf(Extension(name), 3)
  }

  // ---------- the code ----------

  method FindDot(name: string) returns (n: nat)
    ensures n == BaseLen(name)
  {
    n := |name|;
    var i := 0;
    while i < |name|
      invariant 0 <= i <= |name|
      invariant n == |name| || (n < i && name[n] == '.')
      invariant forall k :: 0 <= k < i && (n == |name| || n < k) ==> name[k] != '.'
    {
      if name[i] == '.' {
        n := i;
      }
      i := i + 1;
    }
  }

  /** Writes a text in capitals over the blanks of a field. */
  method PutUpper(s: string, max: nat, out: array<char>, at: nat)
    requires at + max <= out.Length && forall k :: at <= k < at + max ==> out[k] == ' '
    modifies out
    ensures out[at..at + max] == FieldOf(s, max)
    ensures out[..at] == old(out[..at]) && out[at + max..] == old(out[at + max..])
  {
    var len := |s|;
    if len > max {
      len := max;
    }
    var i := 0;
    while i < len
      invariant 0 <= i <= len
      invariant forall k :: 0 <= k < i ==> out[at + k] == ToUpper(s[k])
      invariant forall k :: at + i <= k < at + max ==> out[k] == ' '
      invariant out[..at] == old(out[..at]) && out[at + max..] == old(out[at + max..])
    {
      out[at + i] := ToUpper(s[i]);
      i := i + 1;
    }
    forall k | 0 <= k < max ensures out[at..at + max][k] == FieldOf(s, max)[k] {
      assert out[at..at + max][k] == out[at + k];
    }
  }

  method To83(name: string, out: array<char>)
    requires out.Length == 11
    modifies out
    ensures out[..] == Name83(name)
  {
    forall k | 0 <= k < 11 {
      out[k] := ' ';
    }
    var dot := FindDot(name);
    PutUpper(name[..dot], 8, out, 0);
    assert out[8..] == Blanks(3);
    if dot < |name| {
      PutUpper(name[dot + 1..], 3, out, 8);
    }
    assert out[..] == out[..8] + out[8..];
    assert out[8..] == out[8..11];
  }

  method To83AliasGuess(name: string, out: array<char>)
    requires out.Length == 11
    modifies out
    ensures out[..] == AliasGuess(name)
  {
    forall k | 0 <= k < 11 {
      out[k] := ' ';
    }
    var dot := FindDot(name);
    PutUpper(name[..dot], 6, out, 0);
    ghost var base := out[..6];
    assert out[6..] == Blanks(5);
    out[6], out[7] := '~', '1';
    assert out[..8] == base + "~1" && out[8..] == Blanks(3);
    if dot < |name| {
      PutUpper(name[dot + 1..], 3, out, 8);
    }
    assert out[..] == out[..8] + out[8..];
    assert out[8..] == out[8..11];
  }

  // ---------- what the names mean ----------

  /** The first n characters agree in any case, blanks filling the shorter one up. */
  predicate SameText(a: string, b: string, n: nat) {
    forall k :: 0 <= k < n ==> ToUpper(CharOr(a, k)) == ToUpper(CharOr(b, k))
  }

  function CharOr(s: string, k: nat): char {
    if k < |s| then s[k] else ' '
  }

  lemma FieldsAgreeIff(a: string, b: string, n: nat)
    ensures FieldOf(a, n) == FieldOf(b, n) <==> SameText(a, b, n)
  {
    assert forall k :: 0 <= k < n ==> FieldOf(a, n)[k] == ToUpper(CharOr(a, k));
    assert forall k :: 0 <= k < n ==> FieldOf(b, n)[k] == ToUpper(CharOr(b, k));
  }

  function NoBlanks(s: string): string {
    if s == "" then "" else (if s[0] == ' ' then "" else [s[0]]) + NoBlanks(s[1..])
  }

  function NoLeadingDots(s: string): string {
    if s != "" && s[0] == '.' then NoLeadingDots(s[1..]) else s
  }

  function ToDot(s: string): string {
    if s == "" || s[0] == '.' then "" else [s[0]] + ToDot(s[1..])
  }

  function Stripped(name: string): string {
    NoLeadingDots(NoBlanks(name))
  }

  /** The characters of a short name: capitals, digits, some marks, and all above 127. */
  predicate Legal(c: char) {
    'A' <= c <= 'Z' || '0' <= c <= '9' || c as int > 127
    || c in {'$', '%', '\'', '-', '_', '@', '~', '`', '!', '(', ')', '{', '}', '^', '#', '&'}
  }

  predicate Kept(c: char) {
    Legal(ToUpper(c))
  }

  /** Every other character but blanks and dots becomes an underscore. */
  function Replaced(s: string): (r: string)
    ensures |r| == |s|
  {
    seq(|s|, k requires 0 <= k < |s| => if s[k] == ' ' || s[k] == '.' || Kept(s[k]) then s[k] else '_')
  }

  /** The first numeric-tail name the rules of the FAT specification give a long name:
      characters a short name cannot have are replaced, blanks and leading dots dropped, the base
      is at most the six characters before the first dot, the extension at most the three behind
      the last, and blanks fill the fields up. */
  function NumericTail(name: string): string {
    var rest := Stripped(Replaced(name));
    var base := Upper(Clip(ToDot(rest), 6));
    base + "~1" + Blanks(6 - |base|) + FieldOf(Extension(rest), 3)
  }

  /** Six characters or more, and a short name can have the first six. */
  predicate PlainBase(base: string) {
    |base| >= 6 && forall k :: 0 <= k < 6 ==> Kept(base[k])
  }

  /** A short name can have the first three characters, and only blanks follow a blank there. */
  predicate PlainExtension(ext: string) {
    BlanksBehind(ext) && forall k :: 0 <= k < 3 && k < |ext| ==> ext[k] == ' ' || Kept(ext[k])
  }

  predicate BlanksBehind(ext: string) {
    forall i, j :: 0 <= i < 3 && i < j < |ext| && ext[i] == ' ' ==> ext[j] == ' '
  }

  /** The first six characters are neither blanks nor dots. */
  predicate SolidBase(base: string) {
    |base| >= 6 && forall k :: 0 <= k < 6 ==> base[k] != ' ' && base[k] != '.'
  }

  lemma {:induction false} NoBlanksConcat(a: string, b: string)
    ensures NoBlanks(a + b) == NoBlanks(a) + NoBlanks(b)
  {
    if a == "" {
      assert a + b == b;
    } else {
      assert (a + b)[1..] == a[1..] + b;
      NoBlanksConcat(a[1..], b);
    }
  }

  /** What is left has no blanks, and no dots if there were none. */
  lemma {:induction false} NoBlanksLeft(s: string)
    ensures ' ' !in NoBlanks(s) && ('.' !in s ==> '.' !in NoBlanks(s))
    ensures ' ' !in s ==> NoBlanks(s) == s
    ensures NoBlanks(s) == "" <==> forall k :: 0 <= k < |s| ==> s[k] == ' '
  {
    if s != "" {
      NoBlanksLeft(s[1..]);
      assert s == [s[0]] + s[1..];
    }
  }

  lemma {:induction false} ToDotIsPrefix(s: string)
    ensures ToDot(s) <= s && '.' !in ToDot(s)
  {
    if s != "" && s[0] != '.' {
      ToDotIsPrefix(s[1..]);
    }
  }

  lemma {:induction false} ToDotConcat(a: string, b: string)
    requires '.' !in a
    ensures ToDot(a + b) == a + ToDot(b)
  {
    if a == "" {
      assert a + b == b;
    } else {
      assert (a + b)[1..] == a[1..] + b;
      ToDotConcat(a[1..], b);
    }
  }

  lemma {:induction false} LeadingDotsConcat(s: string)
    ensures ' ' !in s ==> ' ' !in NoLeadingDots(s)
  {
    if s != "" && s[0] == '.' {
      LeadingDotsConcat(s[1..]);
    }
  }

  lemma ExtensionBehind(x: string, y: string)
    requires '.' !in y
    ensures Extension(x + "." + y) == y
  {
    var w, n := x + "." + y, BaseLen(x + "." + y);
    assert w[|x|] == '.';
    assert forall k :: |x| < k < |w| ==> w[k] == y[k - |x| - 1];
    assert n == |x|;
  }

  lemma NoExtension(x: string)
    requires '.' !in x
    ensures Extension(x) == ""
  {
  }

  /** With a solid base, stripping leaves the first six characters and strips the extension. */
  lemma StrippedPlain(name: string)
    requires SolidBase(Base(name))
    ensures Clip(ToDot(Stripped(name)), 6) == Clip(Base(name), 6)
    ensures Extension(Stripped(name)) == NoBlanks(Extension(name))
  {
    var six, rest := name[..6], name[6..];
    assert Base(name)[..6] == six && name == six + rest;
    assert ' ' !in six && '.' !in six;
    NoBlanksConcat(six, rest);
    NoBlanksLeft(six);
    ToDotConcat(six, NoBlanks(rest));
    assert Stripped(name) == NoBlanks(name) == six + NoBlanks(rest);
    StrippedExtension(name);
  }

  lemma StrippedExtension(name: string)
    ensures Extension(NoBlanks(name)) == NoBlanks(Extension(name))
  {
    var base, ext := Base(name), Extension(name);
    NoBlanksLeft(ext);
    if BaseLen(name) < |name| {
      assert name == base + ("." + ext) && '.' !in ext;
      DotStays(base, ext);
      ExtensionBehind(NoBlanks(base), NoBlanks(ext));
    } else {
      NoBlanksLeft(name);
      NoExtension(NoBlanks(name));
    }
  }

  lemma DotStays(base: string, ext: string)
    ensures NoBlanks(base + ("." + ext)) == NoBlanks(base) + "." + NoBlanks(ext)
  {
    NoBlanksConcat(base, "." + ext);
    NoBlanksConcat(".", ext);
    assert NoBlanks(".") == "." + NoBlanks("");
  }

  lemma {:induction false} FirstBlank(s: string) returns (i: nat)
    requires ' ' in s
    ensures i < |s| && s[i] == ' ' && ' ' !in s[..i]
  {
    if s[0] == ' ' {
      i := 0;
    } else {
      i := FirstBlank(s[1..]);
      assert s[..i + 1] == [s[0]] + s[1..][..i];
      i := i + 1;
    }
  }

  /** What dropping blanks leaves in front of the first blank, and behind it. */
  lemma AtFirstBlank(ext: string, i: nat)
    requires i < |ext| && ext[i] == ' ' && ' ' !in ext[..i]
    ensures NoBlanks(ext) == ext[..i] + NoBlanks(ext[i..])
    ensures NoBlanks(ext[i..]) == "" <==> forall k :: 0 <= k < |ext[i..]| ==> ext[i..][k] == ' '
    ensures ' ' !in NoBlanks(ext[i..])
  {
    assert ext == ext[..i] + ext[i..];
    NoBlanksConcat(ext[..i], ext[i..]);
    NoBlanksLeft(ext[..i]);
    NoBlanksLeft(ext[i..]);
  }

  lemma EarlyBlank(ext: string) returns (i: nat)
    requires ' ' in Clip(ext, 3)
    ensures i < 3 && i < |ext| && ext[i] == ' ' && ' ' !in ext[..i]
  {
    i := FirstBlank(Clip(ext, 3));
    assert ext[..i] == Clip(ext, 3)[..i];
  }

  /** If only blanks follow an early blank, dropping blanks leaves the first three characters. */
  lemma BlanksDrop(ext: string)
    requires BlanksBehind(ext)
    ensures SameText(NoBlanks(ext), ext, 3)
  {
    if ' ' in Clip(ext, 3) {
      var i := EarlyBlank(ext);
      AtFirstBlank(ext, i);
      forall k | 0 <= k < |ext[i..]|
        ensures ext[i..][k] == ' '
      {
        assert ext[i..][k] == ext[i + k];
      }
    } else {
      NoEarlyBlank(ext);
    }
  }

  lemma NoEarlyBlank(ext: string)
    requires ' ' !in Clip(ext, 3)
    ensures SameText(NoBlanks(ext), ext, 3)
  {
    var first := Clip(ext, 3);
    NoBlanksLeft(first);
    if |ext| > 3 {
      assert ext == first + ext[3..];
      NoBlanksConcat(first, ext[3..]);
    }
  }

  lemma BlankNotBefore(ext: string, i: nat, b: nat)
    requires i <= |ext| && b < |ext| && ext[b] == ' ' && ' ' !in ext[..i]
    ensures i <= b
  {
    assert forall k :: 0 <= k < i ==> ext[k] == ext[..i][k];
  }

  /** Otherwise something else moves up to an early blank. */
  lemma MovesUp(ext: string) returns (i: nat)
    requires !BlanksBehind(ext)
    ensures i < 3 && i < |ext| && ext[i] == ' ' && CharOr(NoBlanks(ext), i) != ' '
  {
    var b, j :| 0 <= b < 3 && b < j < |ext| && ext[b] == ' ' && ext[j] != ' ';
    assert Clip(ext, 3)[b] == ' ';
    i := EarlyBlank(ext);
    BlankNotBefore(ext, i, b);
    AtFirstBlank(ext, i);
    assert ext[i..][j - i] != ' ';
    var rest := NoBlanks(ext[i..]);
    assert rest[0] in rest && NoBlanks(ext)[i] == rest[0];
  }

  // ---------- replaced characters ----------

  lemma SameLastDot(a: string, b: string)
    requires |a| == |b| && forall k :: 0 <= k < |a| ==> (a[k] == '.' <==> b[k] == '.')
    ensures BaseLen(a) == BaseLen(b)
  {
    var n := BaseLen(a);
    assert n < |a| ==> b[n] == '.';
  }

  /** Replacing moves no dot, so base and extension are where they were. */
  lemma ReplacedParts(name: string)
    ensures Base(Replaced(name)) == Replaced(Base(name)) && Extension(Replaced(name)) == Replaced(Extension(name))
  {
    SameLastDot(name, Replaced(name));
  }

  /** A character changes, whatever the case, exactly when a short name cannot have it. */
  lemma ReplacedSameIff(s: string, n: nat)
    ensures SameText(Replaced(s), s, n) <==> forall k :: 0 <= k < n && k < |s| ==> s[k] == ' ' || s[k] == '.' || Kept(s[k])
  {
    forall k | 0 <= k < n
      ensures ToUpper(CharOr(Replaced(s), k)) == ToUpper(CharOr(s, k))
              <==> (k < |s| ==> s[k] == ' ' || s[k] == '.' || Kept(s[k]))
    {
      if k < |s| {
        OneReplaced(s[k]);
      }
    }
  }

  lemma OneReplaced(c: char)
    ensures Kept('_') && (c == '_' ==> Kept(c)) && (!Kept(c) ==> ToUpper(c) == c)
  {
  }

  lemma ExtensionSurvivesIff(ext: string)
    requires '.' !in ext
    ensures SameText(NoBlanks(Replaced(ext)), ext, 3) <==> PlainExtension(ext)
  {
    var r := Replaced(ext);
    assert forall k :: 0 <= k < |ext| ==> (r[k] == ' ' <==> ext[k] == ' ');
    if BlanksBehind(ext) {
      BlanksDrop(r);
      ReplacedSameIff(ext, 3);
    } else {
      var i := MovesUp(r);
      assert ToUpper(CharOr(NoBlanks(r), i)) != ToUpper(CharOr(ext, i));
    }
  }

  /** Nothing but blanks, dots and what a short name can have. */
  predicate Clean(s: string) {
    forall k :: 0 <= k < |s| ==> s[k] == ' ' || s[k] == '.' || Kept(s[k])
  }

  lemma {:induction false} StrippedIsClean(s: string)
    requires Clean(s)
    ensures Clean(NoBlanks(s)) && Clean(NoLeadingDots(s))
  {
    if s != "" {
      StrippedIsClean(s[1..]);
    }
  }

  lemma ReplacedIsClean(s: string)
    ensures Clean(Replaced(s)) && Clean(Stripped(Replaced(s)))
  {
    OneReplaced('_');
    StrippedIsClean(Replaced(s));
    StrippedIsClean(NoBlanks(Replaced(s)));
  }

  // ---------- the guess ----------

  /** The guess is the first numeric-tail name exactly for a plain base and a plain extension.
      Shorter bases get their blanks before the tail instead of after it, and blanks, dots and
      characters a short name cannot have are kept. */
  lemma GuessIsShortNameIff(name: string)
    ensures AliasGuess(name) == NumericTail(name) <==> PlainBase(Base(name)) && PlainExtension(Extension(name))
  {
    if PlainBase(Base(name)) {
      PlainParts(name);
      NoDotBehind(name);
      ExtensionSurvivesIff(Extension(name));
      FieldsAgreeIff(NoBlanks(Replaced(Extension(name))), Extension(name), 3);
      SameTail(name, Stripped(Replaced(name)));
    } else if AliasGuess(name) == NumericTail(name) {
      GuessedBaseIsPlain(name);
    }
  }

  lemma NoDotBehind(name: string)
    ensures '.' !in Extension(name)
  {
  }

  /** With a plain base, the rules leave its first six characters. */
  lemma PlainParts(name: string)
    requires PlainBase(Base(name))
    ensures var rest := Stripped(Replaced(name));
            Clip(ToDot(rest), 6) == Clip(Base(name), 6) && Extension(rest) == NoBlanks(Replaced(Extension(name)))
  {
    var base := Base(name);
    ReplacedParts(name);
    forall k | 0 <= k < 6
      ensures Replaced(base)[k] == base[k] && base[k] != ' ' && base[k] != '.'
    {
      assert Kept(base[k]);
    }
    StrippedPlain(Replaced(name));
    assert Clip(Replaced(base), 6) == Clip(base, 6);
  }

  lemma SameTail(name: string, rest: string)
    requires PlainBase(Base(name)) && rest == Stripped(Replaced(name))
    requires Clip(ToDot(rest), 6) == Clip(Base(name), 6)
    ensures AliasGuess(name) == NumericTail(name) <==> FieldOf(Extension(name), 3) == FieldOf(Extension(rest), 3)
  {
    var front := Upper(Clip(Base(name), 6)) + "~1";
    assert Blanks(0) == "";
    assert AliasGuess(name) == front + FieldOf(Extension(name), 3);
    assert NumericTail(name) == front + FieldOf(Extension(rest), 3);
    if AliasGuess(name) == NumericTail(name) {
      assert AliasGuess(name)[8..] == FieldOf(Extension(name), 3);
      assert NumericTail(name)[8..] == FieldOf(Extension(rest), 3);
    }
  }

  lemma GuessedBaseIsPlain(name: string)
    requires AliasGuess(name) == NumericTail(name)
    ensures PlainBase(Base(name))
  {
    var rest := Stripped(Replaced(name));
    var text := Clip(ToDot(rest), 6);
    SameFront(FieldOf(Base(name), 6), Upper(text), FieldOf(Extension(name), 3), FieldOf(Extension(rest), 3));
    ReplacedIsClean(name);
    NoBlanksLeft(Replaced(name));
    LeadingDotsConcat(NoBlanks(Replaced(name)));
    ToDotIsPrefix(rest);
    TextIsKept(rest, text);
    FieldIsPlain(Base(name), text);
  }

  lemma TextIsKept(rest: string, text: string)
    requires Clean(rest) && ' ' !in rest && text <= rest && '.' !in text
    ensures forall k :: 0 <= k < |text| ==> Kept(text[k])
  {
    forall k | 0 <= k < |text|
      ensures Kept(text[k])
    {
      assert text[k] in text && rest[k] in rest && text[k] == rest[k];
    }
  }

  /** Eight characters of which the last two are the tail hold six before it. */
  lemma SameFront(field: string, base: string, x: string, y: string)
    requires |field| == 6 && |base| <= 6 && field + "~1" + x == base + "~1" + Blanks(6 - |base|) + y
    ensures field == base
  {
    var a, b := field + "~1" + x, base + "~1" + Blanks(6 - |base|) + y;
    assert a[7] == '1';
    if |base| < 6 {
      BlankBehindTail(base, y);
    }
    assert a[..6] == field && b[..6] == base;
  }

  lemma BlankBehindTail(base: string, y: string)
    requires |base| < 6
    ensures (base + "~1" + Blanks(6 - |base|) + y)[7] == ' '
  {
  }

  lemma FieldIsPlain(base: string, text: string)
    requires FieldOf(base, 6) == Upper(text) && |text| == 6 && forall k :: 0 <= k < |text| ==> Kept(text[k])
    ensures PlainBase(base)
  {
    forall k | 0 <= k < 6
      ensures k < |base| && Kept(base[k])
    {
      assert FieldOf(base, 6)[k] == Upper(text)[k] && FieldOf(base, 6)[k] == ToUpper(CharOr(base, k));
      UpperIsKept(text[k], CharOr(base, k));
    }
    assert 5 < |base| by {
      assert FieldOf(base, 6)[5] == Upper(text)[5];
      UpperIsKept(text[5], CharOr(base, 5));
    }
  }

  lemma UpperIsKept(c: char, d: char)
    requires Kept(c) && ToUpper(c) == ToUpper(d)
    ensures Kept(d) && d != ' '
  {
  }

  /** Two names are looked for under the same 8.3 name exactly when their bases agree in the
      first eight and their extensions in the first three characters, without regard to case
      and trailing blanks. */
  lemma SameNameIff(a: string, b: string)
    ensures Name83(a) == Name83(b) <==> SameText(Base(a), Base(b), 8) && SameText(Extension(a), Extension(b), 3)
  {
    FieldsAgreeIff(Base(a), Base(b), 8);
    FieldsAgreeIff(Extension(a), Extension(b), 3);
    assert Name83(a)[..8] == FieldOf(Base(a), 8) && Name83(a)[8..] == FieldOf(Extension(a), 3);
    assert Name83(b)[..8] == FieldOf(Base(b), 8) && Name83(b)[8..] == FieldOf(Extension(b), 3);
  }
}
