/** Setting and getting the time of day from a tick counter (alt_settod.c, alt_gettod.c), with
    the 32-bit arithmetic of both. */
module TimeOfDay {
  import opened Machine
  import opened Options

  const HALF := 0x8000_0000
  const US := 1000000

  type S32 = x: int | -HALF <= x < HALF

  datatype Time = Time(sec: S32, usec: S32)
  datatype Zone = Zone(minutesWest: int, dstTime: int)

  /** Storing an integer in a signed 32-bit field. */
  function Signed(x: int): S32 {
    var m := x % WRAP;
    if m >= HALF then m - WRAP else m
  }

  // ---------- the two calls as functions ----------

  function TickUs(rate: U32): nat
    requires rate > 0
  {
    US / rate
  }

  /** What settimeofday stores; the product wraps at 32 bits. */
  function Reset(t: Time, nticks: U32, rate: U32): Time
    requires rate > 0
  {
    Time(Signed(t.sec - nticks / rate), Signed(t.usec - nticks * TickUs(rate) % WRAP % US))
  }

  /** Borrowing whole seconds while the microseconds are negative; the clock does not go below
      zero. */
  function Borrow(t: Time): Time
    decreases 0 - t.usec as int
  {
    if t.usec >= 0 then t
    else if t.sec <= 0 then Time(0, 0)
    else Borrow(Time(t.sec - 1, t.usec + US))
  }

  function Carry(t: Time): Time
    decreases t.usec
  {
    if t.usec < US then t else Carry(Time(Signed(t.sec + 1), t.usec - US))
  }

  /** What gettimeofday returns; here the product is taken in 64 bits. */
  function Elapsed(reset: Time, nticks: U32, rate: U32): Time
    requires rate > 0
  {
    Carry(Borrow(Time(Signed(reset.sec + nticks / rate), Signed(reset.usec + nticks * TickUs(rate) % US))))
  }

  // ---------- the code ----------

  class Clock {
    var resetTime: Time
    var zone: Zone

    constructor ()
      ensures resetTime == Time(0, 0) && zone == Zone(0, 0)
    {
      resetTime, zone := Time(0, 0), Zone(0, 0);
    }

    /** settimeofday; 0, or -1 when no system clock runs. */
    method SetTimeOfDay(t: Time, tz: Zone, nticks: U32, rate: U32) returns (r: int)
      modifies this
      ensures r == if rate == 0 then -1 else 0
      ensures rate == 0 ==> resetTime == old(resetTime) && zone == old(zone)
      ensures rate != 0 ==> resetTime == Reset(t, nticks, rate) && zone == tz
    {
      if rate != 0 {
        var sec := Signed(t.sec - nticks / rate);
        var usec := Signed(t.usec - nticks * (US / rate) % WRAP % US);
        resetTime, zone := Time(sec, usec), tz;
        return 0;
      }
      return -1;
    }

    /** gettimeofday: nothing when no system clock runs. */
    method GetTimeOfDay(nticks: U32, rate: U32) returns (r: Option<(Time, Zone)>)
      ensures r == if rate == 0 then None else Some((Elapsed(resetTime, nticks, rate), zone))
    {
      if rate == 0 {
        return None;
      }
      var t := Time(Signed(resetTime.sec + nticks / rate), Signed(resetTime.usec + nticks * (US / rate) % US));
      ghost var raw := t;
      while t.usec < 0
        invariant Borrow(raw) == Borrow(t)
        decreases 0 - t.usec as int
      {
        if t.sec <= 0 {
          t := Time(0, 0);
          break;
        } else {
          t := Time(t.sec - 1, t.usec + US);
        }
      }
      ghost var borrowed := t;
      while t.usec >= US
        invariant borrowed == Borrow(raw) && Carry(borrowed) == Carry(t)
        decreases t.usec
      {
        t := Time(Signed(t.sec + 1), t.usec - US);
      }
      return Some((t, zone));
    }
  }

  // ---------- when the round trip is exact ----------

  /** Microseconds since the epoch, and the normal form of such a number. */
  function Micros(t: Time): int {
    t.sec * US + t.usec
  }

  predicate Normal(t: Time) {
    0 <= t.usec < US
  }

  /** One borrow or one carry is enough for a sum of two remainders, and changes the time it
      stands for only where the clock would go below zero. */
  lemma NormalizesOnce(t: Time)
    requires t.sec < HALF - 1 && -US < t.usec < 2 * US
    ensures Normal(Carry(Borrow(t)))
    ensures Micros(Carry(Borrow(t))) == if t.sec <= 0 && t.usec < 0 then 0 else Micros(t)
  {
    if t.usec < 0 {
      BorrowOnce(t);
      CarryNone(Borrow(t));
    } else if t.usec < US {
      CarryNone(t);
    } else {
      CarryOnce(t);
    }
  }

  lemma BorrowOnce(t: Time)
    requires -US < t.usec < 0
    ensures Borrow(t) == if t.sec <= 0 then Time(0, 0) else Time(t.sec - 1, t.usec + US)
  {
    if t.sec > 0 {
      assert Borrow(Time(t.sec - 1, t.usec + US)) == Time(t.sec - 1, t.usec + US);
    }
  }

  lemma CarryNone(t: Time)
    requires t.usec < US
    ensures Carry(t) == t
  {
  }

  lemma CarryOnce(t: Time)
    requires t.sec < HALF - 1 && US <= t.usec < 2 * US
    ensures Carry(t) == Time(t.sec + 1, t.usec - US)
  {
    Small(t.sec + 1);
    CarryNone(Time(t.sec + 1, t.usec - US));
  }

  /** Ticks split into whole seconds and the rest, when the rate divides a million. */
  lemma TicksSplit(n: nat, rate: nat, q: nat)
    requires rate > 0 && rate * q == US
    ensures n * q / US == n / rate && n * q == n / rate * US + n * q % US
  {
    var s, r := n / rate, n % rate;
    calc {
      n * q;
      (rate * s + r) * q;
      rate * s * q + r * q;
      { assert rate * s * q == s * (rate * q); }
      s * US + r * q;
    }
    Below(r, rate, q);
  }

  lemma Below(r: nat, rate: nat, q: nat)
    requires r < rate && rate * q == US
    ensures 0 <= r * q < US
  {
    assert (rate - r) * q == US - r * q;
    assert q > 0;
    assert (rate - r) * q >= q by {
      assert (rate - r - 1) * q >= 0;
    }
  }

  /** What the 32-bit product of settimeofday loses, in microseconds. */
  function Lost(product: nat): int {
    product % US - product % WRAP % US
  }

  /** The wrap is harmless exactly when the number of lost 2^32s is a multiple of 15625. */
  lemma WrapHarmlessIff(product: nat)
    ensures Lost(product) == 0 <==> product / WRAP % 15625 == 0
  {
    var w, low := product / WRAP, product % WRAP;
    if w % 15625 == 0 {
      MultipleIsHarmless(w / 15625, low);
    }
    if Lost(product) == 0 {
      HarmlessIsMultiple(w, product / US - low / US);
    }
  }

  lemma MultipleIsHarmless(j: nat, low: nat)
    ensures (WRAP * (15625 * j) + low) % US == low % US
  {
    var x := 67108864 * j;
    assert WRAP * (15625 * j) == US * x;
    Shift(low, x);
  }

  lemma Shift(low: nat, x: nat)
    ensures (US * x + low) % US == low % US
  {
    assert (US * x + low) == US * (x + low / US) + low % US;
  }

  /** 2^32 / 64 is invertible modulo 15625. */
  lemma HarmlessIsMultiple(w: nat, m: int)
    requires WRAP * w == US * m
    ensures w % 15625 == 0
  {
    assert 67108864 * w == 15625 * m;
    assert w == 15625 * (12659 * (m - 4294 * w) - 12245 * w);
  }

  /** settimeofday(t) at tick n0 and gettimeofday k ticks later, before the counter wraps: with
      a rate that divides a million and a time that is then after the epoch and before the last
      second of the 32-bit range, the result is exactly t plus k ticks, in normal form, if and
      only if the 32-bit product lost no amount that shows in microseconds. */
  lemma RoundTripExactIff(t: Time, n0: U32, k: nat, rate: U32)
    requires rate > 0 && rate * TickUs(rate) == US && Normal(t)
    requires n0 + k < WRAP && 0 < Micros(t) + k * TickUs(rate) && t.sec + (n0 + k) / rate - n0 / rate < HALF - 1
    ensures var r := Elapsed(Reset(t, n0, rate), n0 + k, rate);
            && Normal(r)
            && (Micros(r) == Micros(t) + k * TickUs(rate) <==> n0 * TickUs(rate) / WRAP % 15625 == 0)
  {
    var q := TickUs(rate);
    var p0: nat, p1: nat := n0 * q, (n0 + k) * q;
    Distributes(n0, k, q);
    SplitExact(t, n0, n0 + k, rate, p0, p1, k * q);
  }

  lemma Distributes(a: int, b: int, q: int)
    ensures (a + b) * q == a * q + b * q
  {
  }

  /** The same with the products named, so that nothing below multiplies variables. */
  lemma SplitExact(t: Time, n0: U32, n1: U32, rate: U32, p0: nat, p1: nat, ticks: int)
    requires rate > 0 && rate * TickUs(rate) == US && Normal(t) && n0 <= n1
    requires p0 == n0 * TickUs(rate) && p1 == n1 * TickUs(rate) && p1 == p0 + ticks
    requires 0 < Micros(t) + ticks && t.sec + n1 / rate - n0 / rate < HALF - 1
    ensures var r := Elapsed(Reset(t, n0, rate), n1, rate);
            && Normal(r)
            && (Micros(r) == Micros(t) + ticks <==> p0 / WRAP % 15625 == 0)
  {
    TicksSplit(n0, rate, TickUs(rate));
    TicksSplit(n1, rate, TickUs(rate));
    Monotone(n0, n1, rate);
    WrapHarmlessIff(p0);
    ExactIff(t, n0 / rate, p0 % US, p0 % WRAP % US, n1 / rate, p1 % US, ticks);
  }

  /** The same with the ticks already split: low is what the wrapped product left of u0. */
  lemma ExactIff(t: Time, s0: nat, u0: nat, low: nat, s1: nat, u1: nat, ticks: int)
    requires Normal(t) && s0 <= s1 && t.sec + s1 - s0 < HALF - 1 && low < US && u1 < US
    requires s1 * US + u1 == s0 * US + u0 + ticks && 0 < Micros(t) + ticks
    ensures var reset := Time(Signed(t.sec - s0), Signed(t.usec - low));
            var r := Carry(Borrow(Time(Signed(reset.sec + s1), Signed(reset.usec + u1))));
            Normal(r) && (Micros(r) == Micros(t) + ticks <==> u0 - low == 0)
  {
    Combine(t, s0, low, s1, u1);
    NormalizesOnce(Time(t.sec - s0 + s1, t.usec - low + u1));
  }

  /** Before the loops, the two calls have only moved the seconds and the microseconds. */
  lemma Combine(t: Time, s0: nat, low: nat, s1: nat, u1: nat)
    requires Normal(t) && s0 <= s1 && t.sec + s1 - s0 < HALF - 1 && low < US && u1 < US
    ensures var reset := Time(Signed(t.sec - s0), Signed(t.usec - low));
            Time(Signed(reset.sec + s1), Signed(reset.usec + u1)) == Time(t.sec - s0 + s1, t.usec - low + u1)
  {
    Adds(t.sec, s0, s1);
    Adds(t.usec, low, u1);
  }

  /** Subtracting and adding in 32 bits: only the result has to fit. */
  lemma Adds(x: S32, y: nat, z: nat)
    requires -HALF <= x - y + z < HALF
    ensures Signed(Signed(x - y) + z) == x - y + z
  {
    var j := (x - y) / WRAP;
    assert x - y == WRAP * j + (x - y) % WRAP;
    Wraps(x - y + z, -j);
    Wraps(x - y + z, -j - 1);
  }

  lemma Wraps(x: int, j: int)
    requires -HALF <= x < HALF
    ensures Signed(x + WRAP * j) == x
  {
    if x >= 0 {
      Residue(x, j, x + WRAP * j);
    } else {
      Residue(x + WRAP, j - 1, x + WRAP * j);
    }
  }

  lemma Residue(low: nat, j: int, y: int)
    requires low < WRAP && y == low + WRAP * j
    ensures y % WRAP == low
  {
  }

  lemma Small(x: int)
    requires -HALF <= x < HALF
    ensures Signed(x) == x
  {
  }

  lemma Monotone(a: nat, b: nat, rate: nat)
    requires a <= b && rate > 0
    ensures a / rate <= b / rate
  {
    var x, y := a / rate, b / rate;
    var larger := if x > y then x else y + 1;
    Scale(rate, y + 1, larger);
    assert a == rate * x + a % rate && b == rate * y + b % rate;
  }

  lemma Scale(p: nat, x: nat, y: nat)
    requires x <= y
    ensures p * x <= p * y
  {
    assert p * y == p * x + p * (y - x);
  }
}
