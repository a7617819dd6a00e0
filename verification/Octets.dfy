/** Byte strings, the fixed-size identifiers built from them, and the big-endian
    integers of the wire format. */
module Octets {

  type Byte = b: int | 0 <= b < 256
  type Bytes = seq<Byte>
  type Id = b: Bytes | |b| == 16 witness seq(16, _ => 0)
  type Digest = b: Bytes | |b| == 32 witness seq(32, _ => 0)

  /** SHA-256 is a parameter of the model: nothing is known of it but its width. */
  type Hash = Bytes -> Digest

  const TWO_32 := 0x1_0000_0000
  const TWO_63 := 0x8000_0000_0000_0000
  const TWO_64 := 0x1_0000_0000_0000_0000

  type U32 = v: int | 0 <= v < TWO_32
  type U64 = v: int | 0 <= v < TWO_64

  datatype Option<+T> = None | Some(value: T)

  function Zeros(n: nat): (z: Bytes)
    ensures |z| == n && forall i :: 0 <= i < n ==> z[i] == 0
  {
    seq(n, _ => 0)
  }

  function GetU32(b: Bytes): (v: U32)
    requires |b| == 4
  {
    var high: int := 0x100 * b[0] as int + b[1];
    var low: int := 0x100 * b[2] as int + b[3];
    0x1_0000 * high + low
  }

  function PutU32(v: U32): (b: Bytes)
    ensures |b| == 4
    ensures GetU32(b) == v
  {
    [v / 0x100_0000, v / 0x1_0000 % 0x100, v / 0x100 % 0x100, v % 0x100]
  }

  /** Four bytes are determined by the number they spell. */
  lemma GetU32Injective(a: Bytes, b: Bytes)
    requires |a| == |b| == 4 && GetU32(a) == GetU32(b)
    ensures a == b
  {
    assert 0x100 * a[0] as int + a[1] == 0x100 * b[0] as int + b[1];
    assert 0x100 * a[2] as int + a[3] == 0x100 * b[2] as int + b[3];
  }

  function PutU64(v: U64): (b: Bytes)
    ensures |b| == 8
  {
    PutU32(v / TWO_32) + PutU32(v % TWO_32)
  }

  lemma PutU64Injective(v: U64, w: U64)
    requires PutU64(v) == PutU64(w)
    ensures v == w
  {
    assert PutU64(v)[..4] == PutU32(v / TWO_32) && PutU64(v)[4..] == PutU32(v % TWO_32);
    assert PutU64(w)[..4] == PutU32(w / TWO_32) && PutU64(w)[4..] == PutU32(w % TWO_32);
  }

  /** A block of known width can be split off the front of a concatenation. */
  lemma SplitFront(a: Bytes, x: Bytes, b: Bytes, y: Bytes)
    requires a + x == b + y && |a| == |b|
    ensures a == b && x == y
  {
    assert a == (a + x)[..|a|] && b == (b + y)[..|b|];
    assert x == (a + x)[|a|..] && y == (b + y)[|b|..];
  }
}
