/** Single bits of bytes, and byte strings read as one long row of bits.

    Bit `i` of a bitmap is bit `i % 8` of byte `i / 8`, least significant
    first. Both the ext2 block bitmap and the physical frame bitmap use it.
 */
module Bits {

  predicate Test(b: bv8, k: nat)
    requires k < 8
  {
    b & ((1 as bv8) << k) != 0
  }

  function Set(b: bv8, k: nat): bv8
    requires k < 8
  {
    b | ((1 as bv8) << k)
  }

  function Clear(b: bv8, k: nat): bv8
    requires k < 8
  {
    b & !((1 as bv8) << k)
  }

  lemma SetTest(b: bv8, k: nat, j: nat)
    requires k < 8 && j < 8
    ensures Test(Set(b, k), j) == (j == k || Test(b, j))
  {
    Masks(k);
    Masks(j);
  }

  lemma ClearTest(b: bv8, k: nat, j: nat)
    requires k < 8 && j < 8
    ensures Test(Clear(b, k), j) == (j != k && Test(b, j))
  {
    Masks(k);
    Masks(j);
  }

  lemma Masks(k: nat)
    requires k < 8
    ensures ((1 as bv8) << k) ==
            if k == 0 then 1 else if k == 1 then 2 else if k == 2 then 4 else if k == 3 then 8
            else if k == 4 then 16 else if k == 5 then 32 else if k == 6 then 64 else 128
  {
  }

  lemma FullByte(k: nat)
    requires k < 8
    ensures Test(0xff, k)
  {
    Masks(k);
  }

  function Pow2(k: nat): (p: nat)
    ensures p > 0
  {
    if k == 0 then 1 else 2 * Pow2(k - 1)
  }

  /** The bits of a byte are its binary digits, the lowest first. */
  lemma DigitIs(b: bv8, k: nat)
    requires k < 8
    ensures Test(b, k) <==> b as int / Pow2(k) % 2 == 1
  {
    Masks(k);
    assert Pow2(0) == 1 && Pow2(1) == 2 && Pow2(2) == 4 && Pow2(3) == 8;
    assert Pow2(4) == 16 && Pow2(5) == 32 && Pow2(6) == 64 && Pow2(7) == 128;
    Digit0(b);
    Digit1(b);
    Digit2(b);
    Digit3(b);
    HighDigits(b);
  }

  lemma Digit0(b: bv8)
    ensures b & 1 != 0 <==> b as int % 2 == 1
  {
  }

  lemma Digit1(b: bv8)
    ensures b & 2 != 0 <==> b as int / 2 % 2 == 1
  {
  }

  lemma Digit2(b: bv8)
    ensures b & 4 != 0 <==> b as int / 4 % 2 == 1
  {
  }

  lemma Digit3(b: bv8)
    ensures b & 8 != 0 <==> b as int / 8 % 2 == 1
  {
  }

  lemma HighDigits(b: bv8)
    ensures b & 16 != 0 <==> b as int / 16 % 2 == 1
    ensures b & 32 != 0 <==> b as int / 32 % 2 == 1
    ensures b & 64 != 0 <==> b as int / 64 % 2 == 1
    ensures b & 128 != 0 <==> b as int / 128 % 2 == 1
  {
  }

  /** Bit `i` of the bitmap `s`. */
  predicate Bit(s: seq<bv8>, i: nat)
    requires i < 8 * |s|
  {
    Test(s[i / 8], i % 8)
  }

  function SetBit(s: seq<bv8>, i: nat): (r: seq<bv8>)
    requires i < 8 * |s|
    ensures |r| == |s|
    ensures forall j: nat :: j < 8 * |s| ==> Bit(r, j) == (j == i || Bit(s, j))
  {
    forall j: nat | j < 8 * |s|
      ensures Bit(s[i / 8 := Set(s[i / 8], i % 8)], j) == (j == i || Bit(s, j))
    {
      SetTest(s[i / 8], i % 8, j % 8);
    }
    s[i / 8 := Set(s[i / 8], i % 8)]
  }

  function ClearBit(s: seq<bv8>, i: nat): (r: seq<bv8>)
    requires i < 8 * |s|
    ensures |r| == |s|
    ensures forall j: nat :: j < 8 * |s| ==> Bit(r, j) == (j != i && Bit(s, j))
  {
    forall j: nat | j < 8 * |s|
      ensures Bit(s[i / 8 := Clear(s[i / 8], i % 8)], j) == (j != i && Bit(s, j))
    {
      ClearTest(s[i / 8], i % 8, j % 8);
    }
    s[i / 8 := Clear(s[i / 8], i % 8)]
  }

  /** The positions whose bit is clear. */
  function ClearBits(s: seq<bv8>): set<nat> {
    set i: nat | i < 8 * |s| && !Bit(s, i)
  }

  lemma SetBitRemoves(s: seq<bv8>, i: nat)
    requires i < 8 * |s|
    ensures ClearBits(SetBit(s, i)) == ClearBits(s) - {i}
  {
  }

  lemma ClearBitAdds(s: seq<bv8>, i: nat)
    requires i < 8 * |s|
    ensures ClearBits(ClearBit(s, i)) == ClearBits(s) + {i}
  {
  }

  /** The position of a bit in the bytes: eight to a byte, the lowest first. */
  lemma BitIs(s: seq<bv8>, byte: nat, k: nat)
    requires byte < |s| && k < 8
    ensures 8 * byte + k < 8 * |s|
    ensures Bit(s, 8 * byte + k) <==> s[byte] as int / Pow2(k) % 2 == 1
    ensures 8 * byte + k in ClearBits(s) <==> s[byte] as int / Pow2(k) % 2 == 0
  {
    assert (8 * byte + k) / 8 == byte && (8 * byte + k) % 8 == k;
    DigitIs(s[byte], k);
  }

  /** A bitmap spelled out as a row of bits. */
  function Row(s: seq<bv8>): (r: seq<bool>)
    ensures |r| == 8 * |s|
    ensures forall i :: 0 <= i < |r| ==> r[i] == Bit(s, i)
  {
    seq(8 * |s|, i requires 0 <= i < 8 * |s| => Bit(s, i))
  }
}
