/** Single bits of bytes, as bitmaps test, set and clear them. */
module ByteBits {
  /** 1 << bit */
  function Mask(bit: nat): bv8
    requires bit < 8
  {
    match bit
    case 0 => 1
    case 1 => 2
    case 2 => 4
    case 3 => 8
    case 4 => 16
    case 5 => 32
    case 6 => 64
    case _ => 128
  }

  predicate Has(b: bv8, bit: nat)
    requires bit < 8
  {
    b & Mask(bit) != 0
  }

  lemma MaskSet(b: bv8, bit: nat, i: nat)
    requires bit < 8 && i < 8
    ensures Has(b | Mask(bit), i) <==> i == bit || Has(b, i)
  {
  }

  lemma MaskClear(b: bv8, bit: nat, i: nat)
    requires bit < 8 && i < 8
    ensures Has(b & !Mask(bit), i) <==> i != bit && Has(b, i)
  {
  }
}
