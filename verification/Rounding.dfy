/** The rounding macros of `lib/misc.k.h`. */
module Rounding {

  function DivRoundup(value: nat, div: nat): (r: nat)
    requires div > 0
  {
    (value + (div - 1)) / div
  }

  function AlignUp(value: nat, align: nat): (r: nat)
    requires align > 0
  {
    DivRoundup(value, align) * align
  }

  function AlignDown(value: nat, align: nat): (r: nat)
    requires align > 0
  {
    value / align * align
  }

  /** `DivRoundup` is the least count whose multiple covers the value, and
      `AlignUp`/`AlignDown` the nearest multiples on either side. */
  lemma RoundingIsTight(value: nat, align: nat)
    requires align > 0
    ensures value <= AlignUp(value, align) < value + align
    ensures AlignDown(value, align) <= value < AlignDown(value, align) + align
    ensures forall n: nat {:trigger n * align} :: value <= n * align <==> DivRoundup(value, align) <= n
  {
    var q := DivRoundup(value, align);
    assert q * align <= value + (align - 1) < q * align + align;
    forall n: nat ensures value <= n * align <==> q <= n {
      if q <= n {
        assert q * align <= n * align;
      } else {
        assert (n + 1) * align <= q * align;
      }
    }
    assert value / align * align == value - value % align;
  }
}
