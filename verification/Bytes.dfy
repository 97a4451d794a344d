/** Bytes, the integers stored in them, and where a piece of a file lies.  The host is little-endian. */
module Bytes {

  type Byte = x: int | 0 <= x < 0x100
  type U16 = x: int | 0 <= x < 0x1_0000
  type U32 = x: int | 0 <= x < 0x1_0000_0000
  type U64 = x: int | 0 <= x < 0x1_0000_0000_0000_0000

  const TWO64: int := 0x1_0000_0000_0000_0000

  /** The byte order of a file, relative to nothing but itself. */
  datatype Order = Little | Big

  function Join16(low: int, high: int): int {
    low + 0x100 * high
  }

  function Join32(b0: int, b1: int, b2: int, b3: int): int {
    Join16(b0, b1) + 0x1_0000 * Join16(b2, b3)
  }

  /** A 16-bit load on the host. */
  function Load16(s: seq<Byte>, i: nat): U16
    requires i + 2 <= |s|
  {
    Join16(s[i], s[i + 1])
  }

  /** A 32-bit load on the host. */
  function Load32(s: seq<Byte>, i: nat): U32
    requires i + 4 <= |s|
  {
    Join32(s[i], s[i + 1], s[i + 2], s[i + 3])
  }

  /** `__builtin_bswap16`, `htons` and `ntohs`. */
  function Swap16(v: U16): U16 {
    Join16(v / 0x100, v % 0x100)
  }

  /** `__builtin_bswap32`. */
  function Swap32(v: U32): U32 {
    Join32(v / 0x100_0000, v / 0x1_0000 % 0x100, v / 0x100 % 0x100, v % 0x100)
  }

  function Field16(s: seq<Byte>, i: nat, swapped: bool): U16
    requires i + 2 <= |s|
  {
    if swapped then Swap16(Load16(s, i)) else Load16(s, i)
  }

  function Field32(s: seq<Byte>, i: nat, swapped: bool): U32
    requires i + 4 <= |s|
  {
    if swapped then Swap32(Load32(s, i)) else Load32(s, i)
  }

  /** The 16-bit number that two bytes in network order stand for. */
  function Net16(s: seq<Byte>, i: nat): U16
    requires i + 2 <= |s|
  {
    Join16(s[i + 1], s[i])
  }

  function Store16(v: U16, order: Order): (b: seq<Byte>)
    ensures |b| == 2
  {
    if order == Little then [v % 0x100, v / 0x100] else [v / 0x100, v % 0x100]
  }

  function Store32(v: U32, order: Order): (b: seq<Byte>)
    ensures |b| == 4
  {
    var b0, b1, b2, b3 := v % 0x100, v / 0x100 % 0x100, v / 0x1_0000 % 0x100, v / 0x100_0000;
    if order == Little then [b0, b1, b2, b3] else [b3, b2, b1, b0]
  }

  /** `part` lies in `file` at offset `i`. */
  ghost predicate At(file: seq<Byte>, i: nat, part: seq<Byte>) {
    i + |part| <= |file| && file[i..i + |part|] == part
  }

  function Zeros(n: nat): (z: seq<Byte>)
    ensures |z| == n
  {
    seq(n, _ => 0)
  }

  lemma AtMeans(file: seq<Byte>, i: nat, part: seq<Byte>)
    requires At(file, i, part)
    ensures i + |part| <= |file| && file[i..i + |part|] == part
  {
  }

  lemma AtSplit(file: seq<Byte>, i: nat, a: seq<Byte>, b: seq<Byte>)
    requires At(file, i, a + b)
    ensures At(file, i, a) && At(file, i + |a|, b)
  {
    assert file[i..i + |a|] == (a + b)[..|a|];
    assert file[i + |a|..i + |a| + |b|] == (a + b)[|a|..];
  }

  lemma SliceOfSlice(file: seq<Byte>, from: nat, to: nat, i: nat, j: nat)
    requires from <= to <= |file| && i <= j && from + j <= to
    ensures file[from..to][i..j] == file[from + i..from + j]
  {
    forall k | 0 <= k < j - i ensures file[from..to][i..j][k] == file[from + i..from + j][k] {
      assert file[from..to][i + k] == file[from + (i + k)];
    }
  }

  lemma AtIndex(file: seq<Byte>, i: nat, part: seq<Byte>, k: nat)
    requires At(file, i, part) && k < |part|
    ensures file[i + k] == part[k]
  {
    assert file[i..i + |part|][k] == part[k];
  }

  lemma BytesOfJoin16(low: Byte, high: Byte)
    ensures 0 <= Join16(low, high) < 0x1_0000
    ensures Join16(low, high) % 0x100 == low && Join16(low, high) / 0x100 == high
  {
  }

  lemma Swap16Involutive(v: U16)
    ensures Swap16(Swap16(v)) == v
  {
    BytesOfJoin16(v / 0x100, v % 0x100);
  }

  /** Loading in host order and swapping is loading in network order. */
  lemma SwapIsNet16(s: seq<Byte>, i: nat)
    requires i + 2 <= |s|
    ensures Swap16(Load16(s, i)) == Net16(s, i) && Load16(s, i) == Swap16(Net16(s, i))
  {
    BytesOfJoin16(s[i], s[i + 1]);
    BytesOfJoin16(s[i + 1], s[i]);
  }

  lemma BytesOfJoin32(b0: Byte, b1: Byte, b2: Byte, b3: Byte)
    ensures var v := Join32(b0, b1, b2, b3);
            && 0 <= v < 0x1_0000_0000
            && v % 0x100 == b0 && v / 0x100 % 0x100 == b1 && v / 0x1_0000 % 0x100 == b2 && v / 0x100_0000 == b3
  {
    var v := Join32(b0, b1, b2, b3);
    assert v / 0x100 == b1 + 0x100 * Join16(b2, b3);
    assert v / 0x1_0000 == Join16(b2, b3);
  }

  lemma BytesOfU32(v: U32)
    ensures v == Join32(v % 0x100, v / 0x100 % 0x100, v / 0x1_0000 % 0x100, v / 0x100_0000)
  {
    assert v / 0x100 / 0x100 == v / 0x1_0000;
    assert v / 0x1_0000 / 0x100 == v / 0x100_0000;
  }

  lemma Swap32Involutive(v: U32)
    ensures Swap32(Swap32(v)) == v
  {
    BytesOfU32(v);
    BytesOfJoin32(v / 0x100_0000, v / 0x1_0000 % 0x100, v / 0x100 % 0x100, v % 0x100);
  }

  /** A stored number is read back, in either byte order, once the reader knows whether to swap. */
  lemma ReadBack16(file: seq<Byte>, i: nat, v: U16, order: Order)
    requires At(file, i, Store16(v, order))
    ensures i + 2 <= |file| && Field16(file, i, order == Big) == v
  {
    AtIndex(file, i, Store16(v, order), 0);
    AtIndex(file, i, Store16(v, order), 1);
    BytesOfJoin16(file[i], file[i + 1]);
  }

  lemma ReadBack32(file: seq<Byte>, i: nat, v: U32, order: Order)
    requires At(file, i, Store32(v, order))
    ensures i + 4 <= |file| && Field32(file, i, order == Big) == v
  {
    AtIndex(file, i, Store32(v, order), 0);
    AtIndex(file, i, Store32(v, order), 1);
    AtIndex(file, i, Store32(v, order), 2);
    AtIndex(file, i, Store32(v, order), 3);
    BytesOfU32(v);
    BytesOfJoin32(file[i], file[i + 1], file[i + 2], file[i + 3]);
  }

  /** What the host reads where `v` was stored. */
  lemma HostReads32(file: seq<Byte>, i: nat, v: U32, order: Order)
    requires At(file, i, Store32(v, order))
    ensures i + 4 <= |file| && Load32(file, i) == if order == Big then Swap32(v) else v
  {
    ReadBack32(file, i, v, order);
    Swap32Involutive(Load32(file, i));
  }
}
