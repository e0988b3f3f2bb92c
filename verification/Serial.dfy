/** Fixed-width integers and the serial-number arithmetic built on them
    (RFC 1982 for the 16-bit sequence numbers, the same idea for the 32-bit
    RTP timestamps).  Every wrap-around of the program is written out here. */
module Serial {

  type byte = x: int | 0 <= x < 0x100
  type int16 = x: int | -0x8000 <= x < 0x8000
  type u16 = x: int | 0 <= x < 0x1_0000
  type u32 = x: int | 0 <= x < 0x1_0000_0000
  type u64 = x: int | 0 <= x < 0x1_0000_0000_0000_0000

  const TWO16 := 0x1_0000
  const TWO32 := 0x1_0000_0000
  const TWO64 := 0x1_0000_0000_0000_0000

  datatype Option<+T> = None | Some(value: T)

  function Wrap16(x: int): u16 { x % TWO16 }

  function Wrap32(x: int): u32 { x % TWO32 }

  /** Unsigned differences and sums, as the program computes them. */
  function Sub16(a: u16, b: u16): u16 { if a >= b then a - b else a - b + TWO16 }

  function Sub32(a: u32, b: u32): u32 { if a >= b then a - b else a - b + TWO32 }

  function Sub64(a: u64, b: u64): u64 { if a >= b then a - b else a - b + TWO64 }

  function Add16(a: u16, k: u16): u16 { if a + k < TWO16 then a + k else a + k - TWO16 }

  function Add32(a: u32, k: u32): u32 { if a + k < TWO32 then a + k else a + k - TWO32 }

  /** `static_cast<int16_t>(a - b) < 0`. */
  predicate SeqBefore(a: u16, b: u16) { Sub16(a, b) >= 0x8000 }

  /** `static_cast<int16_t>(a - b) > 0`. */
  predicate SeqAfter(a: u16, b: u16) { 0 < Sub16(a, b) < 0x8000 }

  /** The 32-bit comparison of video timestamps. */
  predicate TsNewer(a: u32, b: u32) { 0 < Sub32(a, b) < 0x8000_0000 }

  lemma Sub16Wrap(x: int, y: int)
    ensures Sub16(Wrap16(x), Wrap16(y)) == Wrap16(x - y)
  {
  }

  lemma Add16Wrap(x: int, k: u16)
    ensures Add16(Wrap16(x), k) == Wrap16(x + k)
  {
  }

  /** A time later than another is later by the difference, and counts wrap like the rest. */
  lemma Sub64Wrap(a: u64, b: u64, c: u32, k: u32)
    ensures Sub64(a, b) == (a - b) % TWO64 && (b <= a ==> Sub64(a, b) == a - b)
    ensures Add32(c, k) == Wrap32(c + k) == (c + k) % 0x1_0000_0000
  {
  }

  lemma Sub32Wrap(x: int, y: int)
    ensures Sub32(Wrap32(x), Wrap32(y)) == Wrap32(x - y)
  {
  }

  lemma SmallWrap(x: int)
    requires 0 <= x < TWO32
    ensures Wrap32(x) == x
  {
  }

  lemma MulMonotone(a: nat, b: nat, s: nat)
    requires a <= b
    ensures a * s <= b * s
  {
  }

  /** Within half the number space the wrapped comparison decides the order of
      the unwrapped numbers, in both directions. */
  lemma TsNewerIsGreater(x: int, y: int)
    requires -0x8000_0000 <= x - y < 0x8000_0000
    ensures TsNewer(Wrap32(x), Wrap32(y)) <==> x > y
    ensures Wrap32(x) == Wrap32(y) <==> x == y
  {
    Sub32Wrap(x, y);
  }

  lemma SeqBeforeIsLess(x: int, y: int)
    requires -0x8000 <= x - y < 0x8000
    ensures SeqBefore(Wrap16(x), Wrap16(y)) <==> x < y
    ensures Wrap16(x) == Wrap16(y) <==> x == y
  {
    Sub16Wrap(x, y);
  }

  lemma SeqAfterIsGreater(x: int, y: int)
    requires -0x8000 <= x - y < 0x8000
    ensures SeqAfter(Wrap16(x), Wrap16(y)) <==> x > y
  {
    Sub16Wrap(x, y);
  }

  /** Stepping forward brings a number one closer. */
  lemma StepCloser(to: u16, from: u16)
    requires from != to
    ensures Sub16(to, from) > 0 && Sub16(to, Add16(from, 1)) == Sub16(to, from) - 1
  {
  }

  // ---- sequences --------------------------------------------------------------

  /** Numbers that strictly increase. */
  predicate Ascending(us: seq<int>)
  {
    forall i, j :: 0 <= i < j < |us| ==> us[i] < us[j]
  }

  predicate Distinct<T(==)>(s: seq<T>)
  {
    forall i, j :: 0 <= i < j < |s| ==> s[i] != s[j]
  }

  function Join<T>(a: seq<T>, b: seq<T>): seq<T> { if a == [] then b else a + b }

  lemma Assoc<T>(a: seq<T>, b: seq<T>, c: seq<T>)
    ensures (a + b) + c == a + (b + c)
  {
  }

  lemma SliceFirst<T>(s: seq<T>, i: nat, k: nat)
    requires i < k <= |s|
    ensures [s[i]] + s[i + 1..k] == s[i..k]
  {
  }

  lemma SliceTail<T>(s: seq<T>, i: nat)
    requires i < |s|
    ensures s[i..] == [s[i]] + s[i + 1..]
  {
  }

  lemma SliceJoin<T>(s: seq<T>, i: nat, j: nat, k: nat)
    requires i <= j <= k <= |s|
    ensures s[i..j] + s[j..k] == s[i..k]
  {
  }

  lemma AppendSlice<T>(a: seq<T>, b: seq<T>, c: seq<T>, s: seq<T>, j: nat, k: nat)
    requires j < k <= |s| && b == a + [s[j]] && c == b + s[j + 1..k]
    ensures c == a + s[j..k]
  {
  }

  lemma EmptySlice<T>(a: seq<T>, s: seq<T>, j: nat)
    requires j <= |s|
    ensures a + s[j..j] == a
  {
  }

  lemma EmptyTogether<T>(s: seq<T>, t: seq<T>)
    requires forall q :: q in s <==> q in t
    ensures s == [] <==> t == []
  {
    if s != [] { assert s[0] in t; }
    if t != [] { assert t[0] in s; }
  }
}
