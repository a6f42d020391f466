/** What several components share: 32-bit words, bytes, and two functions on sequences. */
module Machine {
  const WRAP := 0x1_0000_0000

  type U32 = x: nat | x < WRAP
  type Byte = x: nat | x < 256

  /** What an unsigned 32-bit variable keeps of a number. */
  function Word(x: nat): U32 {
    x % WRAP
  }

  /** At most the first n elements. */
  function First<T>(s: seq<T>, n: nat): seq<T> {
    if n <= |s| then s[..n] else s
  }

  function Blanks(n: nat): (s: string)
    ensures |s| == n && forall k :: 0 <= k < n ==> s[k] == ' '
  {
    seq(n, (k: nat) => ' ')
  }
}
