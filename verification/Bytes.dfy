/** Fixed-width numbers, byte strings and the few sequence facts every layer uses. */
module Bytes {

  datatype Option<+T> = None | Some(value: T)

  type byte = x: int | 0 <= x < 0x100
  type u16 = x: int | 0 <= x < 0x1_0000
  type u32 = x: int | 0 <= x < 0x1_0000_0000
  type u64 = x: int | 0 <= x < 0x1_0000_0000_0000_0000
  type i32 = x: int | -0x8000_0000 <= x < 0x8000_0000

  const TWO16 := 0x1_0000
  const TWO32 := 0x1_0000_0000
  const TWO64 := 0x1_0000_0000_0000_0000

  type Bytes = seq<byte>

  function Min(a: int, b: int): int { if a <= b then a else b }

  /** Wrapping 64-bit addition, as the counters of both sides do it. */
  function Add64(a: u64, b: u64): u64 { (a + b) % TWO64 }

  // The shifts and ors of the program combine disjoint bit ranges, so they are sums.

  function Be16(a: byte, b: byte): u16 { a * 0x100 + b }

  function Be24(a: byte, b: byte, c: byte): nat { a * 0x1_0000 + b * 0x100 + c }

  /** The last `n` digits of `v` to the base 256, highest first. */
  function PutBe(v: nat, n: nat): (r: Bytes)
    ensures |r| == n
  {
    if n == 0 then [] else PutBe(v / 0x100, n - 1) + [v % 0x100]
  }

  function PutBe16(v: u16): (r: Bytes)
    ensures |r| == 2 && Be16(r[0], r[1]) == v
  {
    assert PutBe(v / 0x100, 1) == [v / 0x100 % 0x100];
    PutBe(v, 2)
  }

  function PutBe24(v: nat): (r: Bytes)
    requires v < 0x100_0000
    ensures |r| == 3 && Be24(r[0], r[1], r[2]) == v
  {
    assert PutBe(v, 3) == PutBe16(v / 0x100) + [v % 0x100];
    PutBe(v, 3)
  }

  // Little-endian, as x86-64 keeps words in memory.

  function Le16(b: Bytes, i: nat): u16
    requires i + 2 <= |b|
  {
    Be16(b[i + 1], b[i])
  }

  function Le32(b: Bytes, i: nat): u32
    requires i + 4 <= |b|
  {
    b[i + 3] * 0x100_0000 + b[i + 2] * 0x1_0000 + Be16(b[i + 1], b[i])
  }

  function Le64(b: Bytes, i: nat): u64
    requires i + 8 <= |b|
  {
    Le32(b, i) + TWO32 * Le32(b, i + 4)
  }

  function PutLe16(v: u16): (r: Bytes)
    ensures |r| == 2 && Le16(r, 0) == v
  {
    [v % 0x100, v / 0x100]
  }

  function PutLe32(v: u32): (r: Bytes)
    ensures |r| == 4 && Le32(r, 0) == v
  {
    var lo, hi := PutLe16(v % TWO16), PutLe16(v / TWO16);
    [lo[0], lo[1], hi[0], hi[1]]
  }

  function PutLe64(v: u64): (r: Bytes)
    ensures |r| == 8 && Le64(r, 0) == v
  {
    var lo, hi := PutLe32(v % TWO32), PutLe32(v / TWO32);
    assert Le32(lo + hi, 0) == Le32(lo, 0) && Le32(lo + hi, 4) == Le32(hi, 0);
    lo + hi
  }

  /** The last min(n, |s|) elements. */
  function LastN<T>(s: seq<T>, n: nat): seq<T> {
    if |s| <= n then s else s[|s| - n..]
  }

  lemma LastNExact<T>(s: seq<T>, n: nat)
    ensures |LastN(s, n)| == Min(n, |s|) && s[|s| - |LastN(s, n)|..] == LastN(s, n)
  {
  }

  function Concat<T>(ss: seq<seq<T>>): seq<T> {
    if ss == [] then [] else ss[0] + Concat(ss[1..])
  }

  lemma AppendAssoc<T>(a: seq<T>, b: seq<T>, c: seq<T>)
    ensures (a + b) + c == a + (b + c)
  {
  }

  lemma {:induction false} ConcatAppend<T>(ss: seq<seq<T>>, ts: seq<seq<T>>)
    ensures Concat(ss + ts) == Concat(ss) + Concat(ts)
  {
    if ss == [] {
      assert ss + ts == ts;
    } else {
      assert (ss + ts)[1..] == ss[1..] + ts;
      ConcatAppend(ss[1..], ts);
    }
  }

  lemma ConcatSnoc<T>(ss: seq<seq<T>>, t: seq<T>)
    ensures Concat(ss + [t]) == Concat(ss) + t
  {
    ConcatAppend(ss, [t]);
    assert [t][1..] == [];
    assert Concat([t]) == t;
  }
}
