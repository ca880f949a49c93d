/** Bytes of a bitmap and the bits in them, as the command id allocator uses them. */
module Bits {

  /** 1 << j. */
  function Mask(j: nat): bv8
    requires j < 8
  {
    match j
    case 0 => 0x01
    case 1 => 0x02
    case 2 => 0x04
    case 3 => 0x08
    case 4 => 0x10
    case 5 => 0x20
    case 6 => 0x40
    case 7 => 0x80
  }

  predicate Bit(b: bv8, j: nat)
    requires j < 8
  {
    b & Mask(j) != 0
  }

  /** b | (1 << j). */
  function WithBit(b: bv8, j: nat): bv8
    requires j < 8
  {
    b | Mask(j)
  }

  /** b & ~(1 << j). */
  function WithoutBit(b: bv8, j: nat): bv8
    requires j < 8
  {
    b & !Mask(j)
  }

  lemma WithBitSets(b: bv8, j: nat, k: nat)
    requires j < 8 && k < 8
    ensures Bit(WithBit(b, j), k) <==> Bit(b, k) || k == j
  {
  }

  lemma WithoutBitClears(b: bv8, j: nat, k: nat)
    requires j < 8 && k < 8
    ensures Bit(WithoutBit(b, j), k) <==> Bit(b, k) && k != j
  {
  }

  /** __find_first_zero: the lowest clear bit from i on, or 8. */
  function FirstZero(b: bv8, i: nat): (j: nat)
    requires i <= 8
    ensures i <= j <= 8
    ensures j < 8 ==> !Bit(b, j)
    ensures forall k :: i <= k < j ==> Bit(b, k)
    decreases 8 - i
  {
    if i == 8 || !Bit(b, i) then i else FirstZero(b, i + 1)
  }

  lemma AllSet(b: bv8)
    ensures b == 0xFF <==> FirstZero(b, 0) == 8
    ensures b == 0xFF <==> forall k :: 0 <= k < 8 ==> Bit(b, k)
  {
    if FirstZero(b, 0) == 8 {
      assert Bit(b, 0) && Bit(b, 1) && Bit(b, 2) && Bit(b, 3);
      assert Bit(b, 4) && Bit(b, 5) && Bit(b, 6) && Bit(b, 7);
    }
  }

  /** (uint8_t)(0xff << j): the bits from j up. */
  function High(j: nat): bv8
    requires j < 8
  {
    match j
    case 0 => 0xFF
    case 1 => 0xFE
    case 2 => 0xFC
    case 3 => 0xF8
    case 4 => 0xF0
    case 5 => 0xE0
    case 6 => 0xC0
    case 7 => 0x80
  }

  lemma HighBits(j: nat, k: nat)
    requires j < 8 && k < 8
    ensures Bit(High(j), k) <==> j <= k
  {
  }

  /** Bit c of a bitmap. */
  predicate Has(bits: seq<bv8>, c: nat)
    requires c / 8 < |bits|
  {
    Bit(bits[c / 8], c % 8)
  }

  lemma SetOne(bits: seq<bv8>, i: nat, j: nat, c: nat)
    requires i < |bits| && j < 8 && c / 8 < |bits|
    ensures Has(bits[i := WithBit(bits[i], j)], c) <==> Has(bits, c) || c == i * 8 + j
  {
    if c / 8 == i {
      WithBitSets(bits[i], j, c % 8);
    }
  }

  lemma ClearOne(bits: seq<bv8>, i: nat, j: nat, c: nat)
    requires i < |bits| && j < 8 && c / 8 < |bits|
    ensures Has(bits[i := WithoutBit(bits[i], j)], c) <==> Has(bits, c) && c != i * 8 + j
  {
    if c / 8 == i {
      WithoutBitClears(bits[i], j, c % 8);
    }
  }
}
