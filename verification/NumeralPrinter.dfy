/** The integer conversions of the HAL's boot-log printf (alt_log_printf.c): 32-bit values in
    bases 8, 10 and 16, largest place value first. */
module NumeralPrinter {
  import opened Machine

  const SIGN_BIT := 0x8000_0000

  type Base = b: nat | b == 8 || b == 10 || b == 16 witness 10

  /** A conversion: %d and %i are signed base 10, %u, %o, %x and %X unsigned in bases 10, 8 and
      16; width is -1 if absent. */
  datatype Format = Format(base: Base, signed: bool, upper: bool, leadingZero: bool, width: int)

  // ---------- digits ----------

  function DigitChar(d: nat, upper: bool): char
    requires d < 16
  {
    if d <= 9 then ('0' as int + d) as char
    else if upper then ('A' as int + d - 10) as char
    else ('a' as int + d - 10) as char
  }

  function DigitValue(c: char): nat {
    if '0' <= c <= '9' then c as int - '0' as int
    else if 'a' <= c <= 'f' then c as int - 'a' as int + 10
    else if 'A' <= c <= 'F' then c as int - 'A' as int + 10
    else 0
  }

  /** The numeral of v: the digits of v / b, then the last one. */
  function Digits(v: nat, b: Base, upper: bool): (r: string)
    ensures r != ""
  {
    if v < b then [DigitChar(v, upper)] else Digits(v / b, b, upper) + [DigitChar(v % b, upper)]
  }

  function Horner(s: string, b: Base): nat {
    if s == "" then 0 else Horner(s[..|s| - 1], b) * b + DigitValue(s[|s| - 1])
  }

  lemma {:induction false} DigitsParseBack(v: nat, b: Base, upper: bool)
    ensures Horner(Digits(v, b, upper), b) == v
  {
    var s := Digits(v, b, upper);
    if v < b {
      assert s[..0] == "";
    } else {
      DigitsParseBack(v / b, b, upper);
      assert s[..|s| - 1] == Digits(v / b, b, upper);
    }
  }

  /** No superfluous zero in front. */
  lemma {:induction false} NoExtraDigits(v: nat, b: Base, upper: bool)
    ensures v != 0 ==> Digits(v, b, upper)[0] != '0'
    ensures v == 0 ==> Digits(v, b, upper) == "0"
  {
    if v >= b {
      NoExtraDigits(v / b, b, upper);
    }
  }

  // ---------- the same digits from the largest place value down ----------

  function Power(b: Base, n: nat): (p: nat)
    ensures p >= 1
  {
    if n == 0 then 1 else b * Power(b, n - 1)
  }

  /** n digits, each the quotient by its place value. */
  function Emit(v: nat, n: nat, b: Base, upper: bool): (r: string)
    requires v < Power(b, n)
    ensures |r| == n
  {
    if n == 0 then ""
    else
      DivMod(v, Power(b, n - 1), b);
      [DigitChar(v / Power(b, n - 1), upper)] + Emit(v % Power(b, n - 1), n - 1, b, upper)
  }

  lemma DivMod(v: nat, p: nat, b: Base)
    requires p > 0 && v < b * p
    ensures 0 <= v / p < b && 0 <= v % p < p
  {
    Parts(v, p);
    var larger := if v / p >= b then v / p else b;
    Scale(b, larger, p);
  }

  lemma Scale(x: nat, y: nat, p: nat)
    requires x <= y
    ensures x * p <= y * p
  {
    assert y * p == x * p + (y - x) * p;
  }

  lemma Regroup(v: nat, b: nat, q: nat, m: nat, r: nat, a: nat, t: nat)
    requires v == b * m + r && r < b && m == q * a + t && t < q
    ensures v == b * q * a + (b * t + r) && b * t + r < b * q
  {
    assert b * (q * a + t) == b * q * a + b * t;
    Scale(t + 1, q, b);
    assert (t + 1) * b == b * t + b;
  }

  lemma Parts(v: nat, d: nat)
    requires d > 0
    ensures v == d * (v / d) + v % d && 0 <= v % d < d && 0 <= v / d
  {
  }

  /** Quotient and remainder by b * q, taken in two steps. */
  lemma TwoSteps(v: nat, b: nat, q: nat)
    requires q > 0 && b > 0
    ensures b * q > 0
    ensures v / b / q == v / (b * q) && v / b % q == v % (b * q) / b && v % (b * q) % b == v % b
  {
    Parts(v, b);
    Parts(v / b, q);
    Glue(v, b, q, v / b, v % b, v / b / q, v / b % q);
  }

  lemma Glue(v: nat, b: nat, q: nat, m: nat, r: nat, a: nat, t: nat)
    requires v == b * m + r && r < b && m == q * a + t && t < q
    ensures b * q > 0 && a == v / (b * q) && t == v % (b * q) / b && v % (b * q) % b == r
  {
    Regroup(v, b, q, m, r, a, t);
    Unique(v, b * q, a, b * t + r);
    Unique(b * t + r, b, t, r);
  }

  lemma Unique(v: nat, d: nat, a: nat, s: nat)
    requires d > 0 && v == d * a + s && s < d
    ensures v / d == a && v % d == s
  {
    var q, r := v / d, v % d;
    assert v == d * q + r;
    if q < a {
      Scale(q + 1, a, d);
    } else if q > a {
      Scale(a + 1, q, d);
    }
  }

  lemma Quotients(v: nat, b: Base, n: nat)
    requires v < Power(b, n + 1)
    ensures v / b < Power(b, n)
  {
    var q := v / b;
    Parts(v, b);
    var larger := if q >= Power(b, n) then q else Power(b, n);
    Scale(Power(b, n), larger, b);
  }

  /** Dropping the last digit of an n-digit print is dividing by the base. */
  lemma {:induction false} EmitLast(v: nat, n: nat, b: Base, upper: bool)
    requires v < Power(b, n + 1) && v / b < Power(b, n)
    ensures Emit(v, n + 1, b, upper) == Emit(v / b, n, b, upper) + [DigitChar(v % b, upper)]
    decreases n
  {
    if n == 0 {
      assert v / b == 0;
    } else {
      var p, q := Power(b, n), Power(b, n - 1);
      DivMod(v, p, b);
      TwoSteps(v, b, q);
      Quotients(v % p, b, n - 1);
      EmitLast(v % p, n - 1, b, upper);
    }
  }

  lemma BelowNext(v: nat, b: Base, p: nat)
    requires v / b < p
    ensures v < b * p
  {
    Parts(v, b);
    Scale(v / b + 1, p, b);
  }

  lemma AboveNext(v: nat, b: Base, p: nat)
    requires p <= v / b
    ensures b * p <= v
  {
    Parts(v, b);
    Scale(p, v / b, b);
  }

  /** Printing from the largest place value down gives the numeral. */
  lemma {:induction false} EmitIsDigits(v: nat, b: Base, upper: bool)
    ensures v < Power(b, |Digits(v, b, upper)|)
    ensures Emit(v, |Digits(v, b, upper)|, b, upper) == Digits(v, b, upper)
  {
    if v < b {
      assert Power(b, 1) == b * Power(b, 0);
    } else {
      EmitIsDigits(v / b, b, upper);
      EmitsOneMore(v, b, upper);
    }
  }

  lemma EmitsOneMore(v: nat, b: Base, upper: bool)
    requires v >= b && v / b < Power(b, |Digits(v / b, b, upper)|)
    requires Emit(v / b, |Digits(v / b, b, upper)|, b, upper) == Digits(v / b, b, upper)
    ensures v < Power(b, |Digits(v, b, upper)|) && Emit(v, |Digits(v, b, upper)|, b, upper) == Digits(v, b, upper)
  {
    var n := |Digits(v / b, b, upper)|;
    BelowNext(v, b, Power(b, n));
    EmitLast(v, n, b, upper);
    assert |Digits(v, b, upper)| == n + 1;
  }

  /** The largest place value does not exceed the number itself. */
  lemma {:induction false} PlaceValueFits(v: nat, b: Base, upper: bool)
    ensures v > 0 ==> Power(b, |Digits(v, b, upper)| - 1) <= v
    ensures v == 0 ==> |Digits(v, b, upper)| == 1
  {
    if v >= b {
      NotZero(v, b);
      PlaceValueFits(v / b, b, upper);
      FitsOneMore(v, b, upper);
    }
  }

  lemma FitsOneMore(v: nat, b: Base, upper: bool)
    requires v >= b && Power(b, |Digits(v / b, b, upper)| - 1) <= v / b
    ensures Power(b, |Digits(v, b, upper)| - 1) <= v
  {
    var p := Power(b, |Digits(v / b, b, upper)| - 1);
    AboveNext(v, b, p);
    OneDigitMore(v, v / b, b, upper, p);
  }

  lemma NotZero(v: nat, b: Base)
    requires v >= b
    ensures v / b > 0
  {
  }

  lemma OneDigitMore(v: nat, q: nat, b: Base, upper: bool, p: nat)
    requires v >= b && q == v / b && p == Power(b, |Digits(q, b, upper)| - 1)
    ensures Power(b, |Digits(v, b, upper)| - 1) == b * p
  {
    assert |Digits(v, b, upper)| - 1 == |Digits(q, b, upper)|;
  }

  // ---------- the printed field ----------

  function Magnitude(bits: U32, f: Format): U32 {
    if Negative(bits, f) then WRAP - bits else bits
  }

  predicate Negative(bits: U32, f: Format) {
    f.signed && bits >= SIGN_BIT
  }

  /** The value the caller passed. */
  function Meaning(bits: U32, f: Format): int {
    if Negative(bits, f) then bits - WRAP else bits
  }

  function Repeated(c: char, n: int): (r: string)
    ensures |r| == if n > 0 then n else 0
    ensures forall k :: 0 <= k < |r| ==> r[k] == c
  {
    if n <= 0 then "" else Repeated(c, n - 1) + [c]
  }

  function Printed(bits: U32, f: Format): string {
    var digits := Digits(Magnitude(bits, f), f.base, f.upper);
    var sign := if Negative(bits, f) then "-" else "";
    Lead(f.width - |digits|, sign, f.leadingZero) + digits
  }

  /** Padding and sign: zeros go behind the sign, blanks before it. */
  function Lead(room: int, sign: string, zero: bool): string {
    if zero then sign + Repeated('0', room - |sign|) else Repeated(' ', room - |sign|) + sign
  }

  /** Reading a printed field: blanks, an optional minus, digits. */
  function Parse(s: string, b: Base): int {
    if s != "" && s[0] == ' ' then Parse(s[1..], b)
    else if s != "" && s[0] == '-' then 0 - Horner(s[1..], b) as int
    else Horner(s, b)
  }

  lemma {:induction false} BlanksParse(n: int, s: string, b: Base)
    ensures Parse(Repeated(' ', n) + s, b) == Parse(s, b)
    decreases n
  {
    if n > 0 {
      assert Repeated(' ', n) + s == Repeated(' ', n - 1) + ([' '] + s);
      BlanksParse(n - 1, [' '] + s, b);
      assert ([' '] + s)[1..] == s;
    } else {
      assert Repeated(' ', n) + s == s;
    }
  }

  lemma {:induction false} ZerosParse(n: int, s: string, b: Base)
    ensures Horner(Repeated('0', n) + s, b) == Horner(s, b)
    decreases |s|, n
  {
    var z := Repeated('0', n);
    if s != "" {
      assert (z + s)[..|z + s| - 1] == z + s[..|s| - 1];
      ZerosParse(n, s[..|s| - 1], b);
    } else if n > 0 {
      assert z + s == z && z[..|z| - 1] == Repeated('0', n - 1) == Repeated('0', n - 1) + s;
      ZerosParse(n - 1, s, b);
    } else {
      assert z + s == "";
    }
  }

  lemma FirstDigit(v: nat, b: Base, upper: bool)
    ensures Digits(v, b, upper)[0] != ' ' && Digits(v, b, upper)[0] != '-'
    decreases v
  {
    if v >= b {
      FirstDigit(v / b, b, upper);
    }
  }

  /** For every 32-bit value, signed or unsigned, in all three bases, with any width and either
      padding, the printed field reads back as the value. */
  lemma PrintedParsesBack(bits: U32, f: Format)
    ensures Parse(Printed(bits, f), f.base) == Meaning(bits, f)
  {
    var v := Magnitude(bits, f);
    var digits := Digits(v, f.base, f.upper);
    DigitsParseBack(v, f.base, f.upper);
    FirstDigit(v, f.base, f.upper);
    FieldParses(f.width - |digits|, if Negative(bits, f) then "-" else "", digits, f.leadingZero, f.base);
  }

  lemma FieldParses(room: int, sign: string, digits: string, zero: bool, b: Base)
    requires (sign == "" || sign == "-") && digits != "" && digits[0] != ' ' && digits[0] != '-'
    ensures Parse(Lead(room, sign, zero) + digits, b) == if sign == "" then Horner(digits, b) as int else 0 - Horner(digits, b) as int
  {
    SignParses(sign, digits, b);
    if zero {
      ZeroFieldParses(room - |sign|, sign, digits, b);
    } else {
      BlankFieldParses(room - |sign|, sign, digits, b);
    }
  }

  lemma ZeroFieldParses(pad: int, sign: string, digits: string, b: Base)
    requires (sign == "" || sign == "-") && digits != "" && digits[0] != ' ' && digits[0] != '-'
    ensures Parse(sign + Repeated('0', pad) + digits, b) == Parse(sign + digits, b)
  {
    var body := Repeated('0', pad) + digits;
    ZerosFirst(pad, digits);
    ZerosParse(pad, digits, b);
    SignParses(sign, body, b);
    SignParses(sign, digits, b);
    assert sign + Repeated('0', pad) + digits == sign + body;
  }

  lemma ZerosFirst(pad: int, digits: string)
    requires digits != "" && digits[0] != ' ' && digits[0] != '-'
    ensures var body := Repeated('0', pad) + digits; body != "" && body[0] != ' ' && body[0] != '-'
  {
    assert (Repeated('0', pad) + digits)[0] == if pad > 0 then Repeated('0', pad)[0] else digits[0];
  }

  lemma BlankFieldParses(pad: int, sign: string, digits: string, b: Base)
    ensures Parse(Repeated(' ', pad) + sign + digits, b) == Parse(sign + digits, b)
  {
    BlanksParse(pad, sign + digits, b);
    assert Repeated(' ', pad) + sign + digits == Repeated(' ', pad) + (sign + digits);
  }

  lemma SignParses(sign: string, body: string, b: Base)
    requires (sign == "" || sign == "-") && body != "" && body[0] != ' ' && body[0] != '-'
    ensures Parse(sign + body, b) == if sign == "" then Horner(body, b) as int else 0 - Horner(body, b) as int
  {
    if sign == "" {
      assert sign + body == body;
    } else {
      assert (sign + body)[1..] == body;
    }
  }

  /** The field is as long as its width, or as its digits and sign if those are longer. */
  lemma PrintedLength(bits: U32, f: Format)
    ensures var need := |Digits(Magnitude(bits, f), f.base, f.upper)| + (if Negative(bits, f) then 1 else 0);
            |Printed(bits, f)| == if f.width > need then f.width else need
  {
  }

  // ---------- the code ----------

  /** alt_log_repchar. */
  method RepChar(c: char, r: int) returns (out: string)
    ensures out == Repeated(c, r)
  {
    out := "";
    var left := r;
    while left > 0
      invariant left <= r || left == r
      invariant r > 0 ==> 0 <= left && out == Repeated(c, r - left)
      invariant r <= 0 ==> out == "" && left == r
    {
      out := out + [c];
      left := left - 1;
    }
  }

  /** Counting the digits and building the largest place value, which never overflows. */
  method CountDigits(v: U32, b: Base) returns (p: U32, count: nat)
    ensures count == |Digits(v, b, false)| && p == Power(b, count - 1)
  {
    var x: nat := v;
    p, count := 1, 1;
    while x / b > 0
      invariant count >= 1 && p == Power(b, count - 1)
      invariant count - 1 + |Digits(x, b, false)| == |Digits(v, b, false)|
    {
      CountStep(v, x, count, p, b);
      x := x / b;
      count := count + 1;
      p := p * b;
    }
  }

  lemma CountStep(v: U32, x: nat, count: nat, p: nat, b: Base)
    requires x >= b && count >= 1 && p == Power(b, count - 1)
    requires count - 1 + |Digits(x, b, false)| == |Digits(v, b, false)|
    ensures p * b < WRAP && p * b == Power(b, count)
    ensures count + |Digits(x / b, b, false)| == |Digits(v, b, false)|
  {
    PlaceValueFits(v, b, false);
    Grows(b, count, |Digits(v, b, false)| - 1);
  }

  lemma {:induction false} Grows(b: Base, m: nat, n: nat)
    requires m <= n
    ensures Power(b, m) <= Power(b, n)
    decreases n
  {
    if m < n {
      Grows(b, m, n - 1);
      Scale(1, b, Power(b, n - 1));
    }
  }

  lemma {:induction false} CaseKeepsLength(v: nat, b: Base, upper: bool)
    ensures |Digits(v, b, upper)| == |Digits(v, b, false)|
  {
    if v >= b {
      CaseKeepsLength(v / b, b, upper);
    }
  }

  /** The digit loop. */
  method PrintDigits(value: U32, place: U32, b: Base, upper: bool) returns (out: string)
    requires place == Power(b, |Digits(value, b, upper)| - 1)
    ensures out == Digits(value, b, upper)
  {
    EmitIsDigits(value, b, upper);
    ghost var n: nat := |Digits(value, b, upper)|;
    var v: nat, p: nat := value, place;
    out := "";
    while p != 0
      invariant p == (if n == 0 then 0 else Power(b, n - 1)) && v < Power(b, n)
      invariant Digits(value, b, upper) == out + Emit(v, n, b, upper)
      decreases n
    {
      EmitStep(v, n, b, upper);
      NextPlace(p, b, n - 1);
      var c := PrintDigit(v / p, upper);
      Append(out, c, Emit(v % p, n - 1, b, upper));
      out := out + [c];
      v := v % p;
      n := n - 1;
      p := p / b;
    }
  }

  lemma Append(a: string, c: char, b: string)
    ensures a + ([c] + b) == a + [c] + b
  {
  }

  lemma EmitStep(v: nat, n: nat, b: Base, upper: bool)
    requires n > 0 && v < Power(b, n)
    ensures var p := Power(b, n - 1);
            && 0 <= v / p < b && 0 <= v % p < p
            && Emit(v, n, b, upper) == [DigitChar(v / p, upper)] + Emit(v % p, n - 1, b, upper)
  {
    DivMod(v, Power(b, n - 1), b);
  }

  method PrintDigit(value: nat, upper: bool) returns (c: char)
    requires value < 16
    ensures c == DigitChar(value, upper)
  {
    var d := '0' as int + value;
    if d > '9' as int {
      d := d + (if upper then 'A' as int else 'a' as int) - '0' as int - 10;
    }
    c := d as char;
  }

  lemma NextPlace(p: nat, b: Base, n: nat)
    requires p == Power(b, n)
    ensures p / b == if n == 0 then 0 else Power(b, n - 1)
  {
    if n > 0 {
      Unique(p, b, Power(b, n - 1), 0);
    }
  }

  /** The integer branch of alt_log_private_printf. */
  method PrintInteger(bits: U32, f: Format) returns (out: string)
    ensures out == Printed(bits, f)
  {
    var v, sign := bits, false;
    if f.signed && v >= SIGN_BIT {
      v := (WRAP - 1 - v + 1) % WRAP;
      sign := true;
    }
    assert v == Magnitude(bits, f);
    var p, digitCount := CountDigits(v, f.base);
    CaseKeepsLength(v, f.base, f.upper);
    var lead := PrintLead(f.width - digitCount, sign, f.leadingZero);
    var digits := PrintDigits(v, p, f.base, f.upper);
    out := lead + digits;
  }

  method PrintLead(room: int, sign: bool, zero: bool) returns (lead: string)
    ensures lead == Lead(room, if sign then "-" else "", zero)
  {
    var width := room;
    lead := "";
    if zero {
      if sign {
        lead := "-";
        width := width - 1;
      }
      var pad := RepChar('0', width);
      lead := lead + pad;
    } else {
      if sign {
        width := width - 1;
      }
      lead := RepChar(' ', width);
      if sign {
        lead := lead + "-";
      }
    }
  }
}
