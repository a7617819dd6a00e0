/** CRC-32 as the packager computes it, from a table, and as section 8 of RFC 1952 defines it, bit by bit. A 32-bit
    word is the list of its bits, lowest first. */
module Crc {
  import opened Octets
  import opened Bits

  type Word = w: seq<bool> | |w| == 32 witness seq(32, _ => false)

  function WordOf(n: nat): Word { seq(32, i requires 0 <= i < 32 => Bit(n, i)) }

  /** The bits, then zeros. */
  function Pad(bits: seq<bool>): Word
    requires |bits| <= 32
  {
    bits + seq(32 - |bits|, _ => false)
  }

  function Xor(a: Word, b: Word): Word { seq(32, i requires 0 <= i < 32 => a[i] != b[i]) }

  /** `w >>> k`. */
  function ShiftRight(w: Word, k: nat): Word
    requires k <= 32
  {
    Pad(w[k..])
  }

  const POLY: nat := 0xedb8_8320

  const ONES: nat := 0xffff_ffff

  /** One division step: the lowest bit is shifted out and, if set, the polynomial is subtracted. */
  function Shift(c: Word): Word {
    if c[0] then Xor(WordOf(POLY), ShiftRight(c, 1)) else ShiftRight(c, 1)
  }

  function Shifted(c: Word, k: nat): Word
    decreases k
  {
    if k == 0 then c else Shifted(Shift(c), k - 1)
  }

  // ---- the definition: the message is a stream of bits, lowest bit of each byte first ----

  function Feed(c: Word, bit: bool): Word { Shift(c[0 := c[0] != bit]) }

  function FeedBits(c: Word, bits: seq<bool>): Word
    decreases bits
  {
    if bits == [] then c else FeedBits(Feed(c, bits[0]), bits[1..])
  }

  function ByteBits(x: Byte): seq<bool> { seq(8, i requires 0 <= i < 8 => Bit(x, i)) }

  function Register(bytes: Bytes): Word {
    if bytes == [] then WordOf(ONES)
    else FeedBits(Register(bytes[..|bytes| - 1]), ByteBits(bytes[|bytes| - 1]))
  }

  function Crc32(bytes: Bytes): (r: nat)
    ensures r < Pow2(32)
  {
    var w := Xor(Register(bytes), WordOf(ONES));
    PackBound(w, 32);
    Pack(w)
  }

  // ---- division is linear ----

  /** A part whose lowest bit is clear is merely shifted. */
  lemma ShiftXorEven(a: Word, e: Word)
    requires !e[0]
    ensures Shift(Xor(a, e)) == Xor(Shift(a), ShiftRight(e, 1))
  {
  }

  /** Bits waiting above the lowest may be mixed in early. */
  lemma FeedEarly(c: Word, bits: seq<bool>)
    requires 0 < |bits| <= 32
    ensures Shift(Xor(c, Pad(bits))) == Xor(Feed(c, bits[0]), Pad(bits[1..]))
  {
    var e := Pad([false] + bits[1..]);
    assert Xor(c, Pad(bits)) == Xor(c[0 := c[0] != bits[0]], e);
    ShiftXorEven(c[0 := c[0] != bits[0]], e);
    assert ShiftRight(e, 1) == Pad(bits[1..]);
  }

  /** Feeding bits one by one is mixing them in at once and dividing. */
  lemma {:induction false} FeedAtOnce(c: Word, bits: seq<bool>)
    requires |bits| <= 32
    ensures Shifted(Xor(c, Pad(bits)), |bits|) == FeedBits(c, bits)
    decreases bits
  {
    if bits == [] {
      assert Xor(c, Pad(bits)) == c;
    } else {
      FeedEarly(c, bits);
      FeedAtOnce(Feed(c, bits[0]), bits[1..]);
    }
  }

  /** Clear low bits let the rest move down unchanged. */
  lemma {:induction false} ShiftedXorClear(a: Word, e: Word, k: nat)
    requires k <= 32 && forall i :: 0 <= i < k ==> !e[i]
    ensures Shifted(Xor(a, e), k) == Xor(Shifted(a, k), ShiftRight(e, k))
    decreases k
  {
    if k == 0 {
      assert ShiftRight(e, 0) == e;
    } else {
      ShiftXorEven(a, e);
      ShiftedXorClear(Shift(a), ShiftRight(e, 1), k - 1);
      assert ShiftRight(ShiftRight(e, 1), k - 1) == ShiftRight(e, k);
    }
  }

  /** A word is its lowest bits mixed with the rest. */
  lemma LowAndHigh(v: Word, low: Word, high: Word, k: nat)
    requires k <= 32 && low == Pad(v[..k]) && high == Xor(v, low)
    ensures v == Xor(low, high) && ShiftRight(high, k) == ShiftRight(v, k)
    ensures forall i :: 0 <= i < k ==> !high[i]
  {
    assert forall i :: 0 <= i < k ==> low[i] == v[i];
    assert forall i :: k <= i < 32 ==> !low[i];
  }

  /** Dividing out the lowest bits: their remainder, mixed with the upper bits moved down. */
  lemma ShiftedSplit(v: Word, k: nat)
    requires k <= 32
    ensures Shifted(v, k) == Xor(Shifted(Pad(v[..k]), k), ShiftRight(v, k))
  {
    var low := Pad(v[..k]);
    var high := Xor(v, low);
    LowAndHigh(v, low, high, k);
    ShiftedXorClear(low, high, k);
  }

  // ---- the program ----

  lemma {:induction false} SmallHasNoHighBits(n: nat, w: nat, i: nat)
    requires n < Pow2(w) && w <= i
    ensures !Bit(n, i)
    decreases i
  {
    if i > 0 {
      SmallHasNoHighBits(n / 2, if w == 0 then 0 else w - 1, i - 1);
    }
  }

  lemma ByteWord(x: Byte)
    ensures WordOf(x) == Pad(ByteBits(x))
  {
    forall i | 8 <= i < 32
      ensures !Bit(x, i)
    {
      SmallHasNoHighBits(x, 8, i);
    }
  }

  /** The table index of a word: its lowest byte. */
  function LowByte(w: Word): (n: nat)
    ensures n < 256 && WordOf(n) == Pad(w[..8])
  {
    PackBound(w[..8], 8);
    var n := Pack(w[..8]);
    assert WordOf(n) == Pad(w[..8]) by {
      forall i: nat | i < 32
        ensures Bit(n, i) <==> i < 8 && w[i]
      {
        PackExact(w[..8], i);
      }
    }
    n
  }

  /** Entry `n` is the remainder of `n` after `rounds` division steps. */
  method FillTable(rounds: nat) returns (t: array<Word>)
    ensures fresh(t) && t.Length == 256
    ensures forall n :: 0 <= n < 256 ==> t[n] == Shifted(WordOf(n), rounds)
  {
    t := new Word[256](_ => WordOf(0));
    for n := 0 to 256
      invariant forall m :: 0 <= m < n ==> t[m] == Shifted(WordOf(m), rounds)
    {
      var c := Divide(WordOf(n), rounds);
      t[n] := c;
    }
  }

  /** The inner loop, run `n` times. */
  method Divide(w: Word, n: nat) returns (c: Word)
    ensures c == Shifted(w, n)
  {
    c := w;
    for k := 0 to n
      invariant Shifted(c, n - k) == Shifted(w, n)
    {
      c := if c[0] then Xor(WordOf(POLY), ShiftRight(c, 1)) else ShiftRight(c, 1);
    }
  }

  lemma MixStep(c: Word, bits: seq<bool>, v: Word, k: nat)
    requires |bits| == k <= 32 && v == Xor(c, Pad(bits))
    ensures Xor(Shifted(Pad(v[..k]), k), ShiftRight(v, k)) == FeedBits(c, bits)
    ensures ShiftRight(v, k) == ShiftRight(c, k)
  {
    FeedAtOnce(c, bits);
    ShiftedSplit(v, k);
  }

  /** One lookup is one byte of the definition. */
  lemma TableStep(c: Word, x: Byte)
    ensures Xor(Shifted(WordOf(LowByte(Xor(c, WordOf(x)))), 8), ShiftRight(c, 8)) == FeedBits(c, ByteBits(x))
  {
    var v := Xor(c, WordOf(x));
    ByteWord(x);
    MixStep(c, ByteBits(x), v, 8);
  }

  /** The table-driven loop computes the CRC that the standard defines. */
  method ComputeCrc32(bytes: Bytes) returns (r: nat)
    ensures r == Crc32(bytes)
  {
    var table := FillTable(8);
    var c: Word := WordOf(ONES);
    for i := 0 to |bytes|
      invariant c == Register(bytes[..i])
      invariant table.Length == 256 && forall n :: 0 <= n < 256 ==> table[n] == Shifted(WordOf(n), 8)
    {
      assert bytes[..i + 1][..i] == bytes[..i];
      TableStep(c, bytes[i]);
      c := Xor(table[LowByte(Xor(c, WordOf(bytes[i])))], ShiftRight(c, 8));
    }
    assert bytes[..|bytes|] == bytes;
    return Pack(Xor(c, WordOf(ONES)));
  }
}
