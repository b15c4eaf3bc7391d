/** The byte-packed bitmap of `lib/misc.k.h`: `bit_test`, `bit_set`, `bit_reset`. */
module Bitmap {

  function Mask(k: nat): bv8
    requires k < 8
  {
    1 << k
  }

  predicate Test(bytes: seq<bv8>, bit: nat)
    requires bit / 8 < |bytes|
  {
    bytes[bit / 8] & Mask(bit % 8) != 0
  }

  /** The bits below `n` that are set. */
  ghost function SetBits(bytes: seq<bv8>, n: nat): set<nat>
    requires n <= 8 * |bytes|
  {
    set i: nat | i < n && Test(bytes, i)
  }

  lemma MaskLaws(b: bv8, k: nat, j: nat)
    requires k < 8 && j < 8
    ensures ((b | Mask(k)) & Mask(j) != 0) == (k == j || b & Mask(j) != 0)
    ensures ((b & !Mask(k)) & Mask(j) != 0) == (k != j && b & Mask(j) != 0)
  {
    MaskValues(k);
    MaskValues(j);
  }

  lemma MaskValues(k: nat)
    requires k < 8
    ensures Mask(k) == [1, 2, 4, 8, 16, 32, 64, 128][k]
  {}

  lemma SetLaw(before: seq<bv8>, after: seq<bv8>, bit: nat)
    requires bit / 8 < |before| && after == before[bit / 8 := before[bit / 8] | Mask(bit % 8)]
    ensures forall i: nat | i < 8 * |before| :: Test(after, i) == (i == bit || Test(before, i))
  {
    forall i: nat | i < 8 * |before|
      ensures Test(after, i) == (i == bit || Test(before, i))
    {
      MaskLaws(before[bit / 8], bit % 8, i % 8);
    }
  }

  lemma ResetLaw(before: seq<bv8>, after: seq<bv8>, bit: nat)
    requires bit / 8 < |before| && after == before[bit / 8 := before[bit / 8] & !Mask(bit % 8)]
    ensures forall i: nat | i < 8 * |before| :: Test(after, i) == (i != bit && Test(before, i))
  {
    forall i: nat | i < 8 * |before|
      ensures Test(after, i) == (i != bit && Test(before, i))
    {
      MaskLaws(before[bit / 8], bit % 8, i % 8);
    }
  }

  method BitSet(bitmap: array<bv8>, bit: nat)
    requires bit / 8 < bitmap.Length
    modifies bitmap
    ensures forall i: nat | i < 8 * bitmap.Length ::
              Test(bitmap[..], i) == (i == bit || Test(old(bitmap[..]), i))
    ensures forall n: nat | bit < n <= 8 * bitmap.Length ::
              SetBits(bitmap[..], n) == SetBits(old(bitmap[..]), n) + {bit}
  {
    bitmap[bit / 8] := bitmap[bit / 8] | Mask(bit % 8);
    ghost var before, after := old(bitmap[..]), bitmap[..];
    SetLaw(before, after, bit);
    forall n: nat | bit < n <= 8 * |before| ensures SetBits(after, n) == SetBits(before, n) + {bit} {}
  }

  method BitReset(bitmap: array<bv8>, bit: nat)
    requires bit / 8 < bitmap.Length
    modifies bitmap
    ensures forall i: nat | i < 8 * bitmap.Length ::
              Test(bitmap[..], i) == (i != bit && Test(old(bitmap[..]), i))
    ensures forall n: nat | bit < n <= 8 * bitmap.Length ::
              SetBits(bitmap[..], n) == SetBits(old(bitmap[..]), n) - {bit}
  {
    bitmap[bit / 8] := bitmap[bit / 8] & !Mask(bit % 8);
    ghost var before, after := old(bitmap[..]), bitmap[..];
    ResetLaw(before, after, bit);
    forall n: nat | bit < n <= 8 * |before| ensures SetBits(after, n) == SetBits(before, n) - {bit} {}
  }
}
