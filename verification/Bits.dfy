/** Numbers and their binary digits, lowest first. */
module Bits {

  predicate Bit(n: nat, k: nat) {
    if k == 0 then n % 2 == 1 else Bit(n / 2, k - 1)
  }

  /** `n | 1 << k`. */
  function SetBit(n: nat, k: nat): nat {
    if k == 0 then n - n % 2 + 1 else 2 * SetBit(n / 2, k - 1) + n % 2
  }

  lemma {:induction false} SetBitExact(n: nat, k: nat, j: nat)
    ensures Bit(SetBit(n, k), j) <==> j == k || Bit(n, j)
  {
    if k > 0 && j > 0 {
      SetBitExact(n / 2, k - 1, j - 1);
      assert SetBit(n, k) / 2 == SetBit(n / 2, k - 1);
    }
  }

  function Pow2(k: nat): nat {
    if k == 0 then 1 else 2 * Pow2(k - 1)
  }

  lemma {:induction false} SetBitBound(n: nat, k: nat, w: nat)
    requires n < Pow2(w) && k < w
    ensures SetBit(n, k) < Pow2(w)
  {
    if k > 0 {
      SetBitBound(n / 2, k - 1, w - 1);
    }
  }

  /** A number of `w` bits is determined by them. */
  lemma {:induction false} BitsDetermine(a: nat, b: nat, w: nat)
    requires a < Pow2(w) && b < Pow2(w)
    requires forall k: nat :: k < w ==> Bit(a, k) == Bit(b, k)
    ensures a == b
  {
    if w > 0 {
      assert Bit(a, 0) == Bit(b, 0);
      forall k: nat | k < w - 1
        ensures Bit(a / 2, k) == Bit(b / 2, k)
      {
        assert Bit(a, k + 1) == Bit(b, k + 1);
      }
      BitsDetermine(a / 2, b / 2, w - 1);
    }
  }

  /** The number whose bits, lowest first, are `bits`. */
  function Pack(bits: seq<bool>): nat {
    if bits == [] then 0 else (if bits[0] then 1 else 0) + 2 * Pack(bits[1..])
  }

  lemma {:induction false} PackExact(bits: seq<bool>, k: nat)
    ensures Bit(Pack(bits), k) <==> k < |bits| && bits[k]
  {
    if bits == [] {
      if k > 0 {
        PackExact(bits, k - 1);
      }
    } else if k > 0 {
      PackExact(bits[1..], k - 1);
      assert Pack(bits) / 2 == Pack(bits[1..]);
    }
  }

  lemma {:induction false} PackBound(bits: seq<bool>, w: nat)
    requires |bits| <= w
    ensures Pack(bits) < Pow2(w)
  {
    if w > 0 {
      PackBound(if bits == [] then [] else bits[1..], w - 1);
    }
  }
}
