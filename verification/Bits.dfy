/**
 64-bit words and the C operators the kernel applies to them: `&`, `|` and `& ~`,
 defined bit by bit on natural numbers, with the lemmas that turn the masks of
 the source into division and remainder.
 */
module Bits {

  type Word = x: nat | x < 0x1_0000_0000_0000_0000

  function Pow2(k: nat): (r: nat)
    ensures r >= 1
  {
    if k == 0 then 1 else 2 * Pow2(k - 1)
  }

  datatype Operator = AndOp | OrOp | AndNotOp {
    function Apply(x: bool, y: bool): bool {
      match this
      case AndOp => x && y
      case OrOp => x || y
      case AndNotOp => x && !y
    }
  }

  function Bitwise(op: Operator, a: nat, b: nat): nat
    decreases a + b
  {
    if a == 0 && b == 0 then 0
    else (if op.Apply(a % 2 == 1, b % 2 == 1) then 1 else 0) + 2 * Bitwise(op, a / 2, b / 2)
  }

  /** `a & b` */
  function And(a: nat, b: nat): nat { Bitwise(AndOp, a, b) }

  /** `a | b` */
  function Or(a: nat, b: nat): nat { Bitwise(OrOp, a, b) }

  /** `a & ~b` */
  function AndNot(a: nat, b: nat): nat { Bitwise(AndNotOp, a, b) }

  /** Bit `k` is set. */
  predicate Bit(x: nat, k: nat) { x / Pow2(k) % 2 == 1 }

  lemma NextBit(x: nat, k: nat)
    ensures Bit(x, k + 1) <==> Bit(x / 2, k)
  {
    var p := Pow2(k);
    var q, r := QuotRem(x / 2, p);
    assert x == q * (2 * p) + (2 * r + x % 2);
    DivModUnique(2 * p, q, 2 * r + x % 2);
  }

  /** The operators work on each bit by itself. */
  lemma {:induction false} BitwiseBit(op: Operator, a: nat, b: nat, k: nat)
    ensures Bit(Bitwise(op, a, b), k) <==> op.Apply(Bit(a, k), Bit(b, k))
    decreases k
  {
    Unfold(op, a, b);
    if k != 0 {
      NextBit(Bitwise(op, a, b), k - 1);
      NextBit(a, k - 1);
      NextBit(b, k - 1);
      BitwiseBit(op, a / 2, b / 2, k - 1);
    }
  }

  /** So the three C operators are conjunction, disjunction and conjunction with the complement, bit by bit. */
  lemma OperatorsAre(a: nat, b: nat, k: nat)
    ensures And(a, b) / Pow2(k) % 2 == 1 <==> a / Pow2(k) % 2 == 1 && b / Pow2(k) % 2 == 1
    ensures Or(a, b) / Pow2(k) % 2 == 1 <==> a / Pow2(k) % 2 == 1 || b / Pow2(k) % 2 == 1
    ensures AndNot(a, b) / Pow2(k) % 2 == 1 <==> a / Pow2(k) % 2 == 1 && b / Pow2(k) % 2 == 0
  {
    BitwiseBit(AndOp, a, b, k);
    BitwiseBit(OrOp, a, b, k);
    BitwiseBit(AndNotOp, a, b, k);
  }

  lemma Times(h: nat, k: nat) returns (x: nat)
    requires k > 0
    ensures x == h * Pow2(k - 1) && h * Pow2(k) == 2 * x
  {
    x := h * Pow2(k - 1);
  }

  lemma EuclidUnique(p: nat, q: int, r: nat, h: int, l: nat)
    requires r < p && l < p && q * p + r == h * p + l
    ensures q == h && r == l
  {
    var d := q - h;
    assert d * p == q * p - h * p;
    assert d <= -1 ==> d * p <= -1 * p;
    assert d >= 1 ==> d * p >= 1 * p;
  }

  lemma DivModUnique(p: nat, h: nat, l: nat)
    requires l < p
    ensures (h * p + l) / p == h && (h * p + l) % p == l
  {
    var a := h * p + l;
    DivMod(a, p);
    EuclidUnique(p, a / p, a % p, h, l);
  }

  lemma DivMod(a: nat, p: nat)
    requires p > 0
    ensures a == a / p * p + a % p && 0 <= a % p < p
  {}

  lemma QuotRem(a: nat, p: nat) returns (h: nat, l: nat)
    requires p > 0
    ensures h == a / p && l == a % p < p && a == h * p + l
  {
    h, l := a / p, a % p;
  }

  /** A bitwise operator works separately on the bits above and below bit `k`. */
  lemma {:induction false} Split(op: Operator, k: nat, ah: nat, al: nat, bh: nat, bl: nat)
    requires al < Pow2(k) && bl < Pow2(k)
    ensures Bitwise(op, ah * Pow2(k) + al, bh * Pow2(k) + bl)
         == Bitwise(op, ah, bh) * Pow2(k) + Bitwise(op, al, bl)
  {
    if k == 0 {
      assert al == 0 && bl == 0;
    } else {
      Split(op, k - 1, ah, al / 2, bh, bl / 2);
      var x := Times(ah, k);
      var y := Times(bh, k);
      var z := Times(Bitwise(op, ah, bh), k);
      SplitLast(op, x, y, z, al, bl);
    }
  }

  lemma SplitLast(op: Operator, x: nat, y: nat, z: nat, al: nat, bl: nat)
    requires Bitwise(op, x + al / 2, y + bl / 2) == z + Bitwise(op, al / 2, bl / 2)
    ensures Bitwise(op, 2 * x + al, 2 * y + bl) == 2 * z + Bitwise(op, al, bl)
  {
    assert (2 * x + al) / 2 == x + al / 2 && (2 * x + al) % 2 == al % 2;
    assert (2 * y + bl) / 2 == y + bl / 2 && (2 * y + bl) % 2 == bl % 2;
    Unfold(op, 2 * x + al, 2 * y + bl);
    Unfold(op, al, bl);
  }

  lemma Unfold(op: Operator, a: nat, b: nat)
    ensures Bitwise(op, a, b) == (if op.Apply(a % 2 == 1, b % 2 == 1) then 1 else 0) + 2 * Bitwise(op, a / 2, b / 2)
  {}

  lemma {:induction false} Neutral(a: nat)
    ensures Or(a, 0) == a && Or(0, a) == a && And(a, 0) == 0 && AndNot(a, 0) == a
  {
    if a != 0 {
      Neutral(a / 2);
    }
  }

  lemma {:induction false} OrBound(k: nat, a: nat, b: nat)
    requires a < Pow2(k) && b < Pow2(k)
    ensures Or(a, b) < Pow2(k)
  {
    if k != 0 {
      OrBound(k - 1, a / 2, b / 2);
    }
  }

  lemma Pow2Values()
    ensures Pow2(9) == 0x200 && Pow2(12) == 0x1000 && Pow2(18) == 0x4_0000
    ensures Pow2(21) == 0x20_0000 && Pow2(30) == 0x4000_0000 && Pow2(39) == 0x80_0000_0000
    ensures Pow2(48) == 0x1_0000_0000_0000 && Pow2(63) == 0x8000_0000_0000_0000
    ensures Pow2(64) == 0x1_0000_0000_0000_0000
  {
    assert Pow2(9) == 0x200;
    Pow2Sum(9, 3);
    Pow2Sum(9, 9);
    Pow2Sum(9, 12);
    Pow2Sum(18, 12);
    Pow2Sum(18, 21);
    Pow2Sum(18, 30);
    Pow2Sum(30, 30);
    Pow2Sum(3, 60);
    Pow2Sum(1, 63);
  }

  lemma {:induction false} Pow2Sum(a: nat, b: nat)
    ensures Pow2(a + b) == Pow2(a) * Pow2(b)
  {
    if a != 0 {
      Pow2Sum(a - 1, b);
      var x, y := Pow2(a - 1), Pow2(b);
      assert 2 * x * y == 2 * (x * y);
    }
  }

  lemma OrWord(a: Word, b: Word)
    ensures Or(a, b) < 0x1_0000_0000_0000_0000
  {
    Pow2Values();
    OrBound(64, a, b);
  }

  /** Or-ing flags into an address whose low `k` bits are clear adds them. */
  lemma OrLow(k: nat, a: nat, b: nat)
    requires a % Pow2(k) == 0 && b < Pow2(k)
    ensures Or(a, b) == a + b
  {
    DivMod(a, Pow2(k));
    OrParts(k, a / Pow2(k), b);
  }

  lemma OrParts(k: nat, h: nat, b: nat)
    requires b < Pow2(k)
    ensures Or(h * Pow2(k), b) == h * Pow2(k) + b
  {
    Neutral(h);
    Neutral(b);
    Split(OrOp, k, h, 0, 0, b);
    assert h * Pow2(k) + 0 == h * Pow2(k) && 0 * Pow2(k) + b == b;
  }

  lemma {:induction false} LowMask(k: nat, a: nat)
    requires a < Pow2(k)
    ensures And(a, Pow2(k) - 1) == a && AndNot(a, Pow2(k) - 1) == 0
  {
    if k != 0 {
      LowMask(k - 1, a / 2);
      assert (Pow2(k) - 1) / 2 == Pow2(k - 1) - 1;
    }
  }

  lemma {:induction false} OrAbsorbs(k: nat, b: nat)
    requires b < Pow2(k)
    ensures Or(Pow2(k) - 1, b) == Pow2(k) - 1
  {
    if k != 0 {
      OrAbsorbs(k - 1, b / 2);
      assert (Pow2(k) - 1) / 2 == Pow2(k - 1) - 1;
    }
  }

  /** Masking with `2^k - 1` is remainder; masking with its complement rounds down. */
  lemma MaskIsMod(k: nat, a: nat)
    ensures And(a, Pow2(k) - 1) == a % Pow2(k)
    ensures AndNot(a, Pow2(k) - 1) == a / Pow2(k) * Pow2(k)
  {
    var h, l := QuotRem(a, Pow2(k));
    MaskParts(k, h, l);
  }

  lemma SplitLow(op: Operator, k: nat, h: nat, l: nat, m: nat)
    requires l < Pow2(k) && m < Pow2(k)
    ensures Bitwise(op, h * Pow2(k) + l, m) == Bitwise(op, h, 0) * Pow2(k) + Bitwise(op, l, m)
  {
    Split(op, k, h, l, 0, m);
    assert 0 * Pow2(k) + m == m;
  }

  lemma MaskParts(k: nat, h: nat, l: nat)
    requires l < Pow2(k)
    ensures And(h * Pow2(k) + l, Pow2(k) - 1) == l
    ensures AndNot(h * Pow2(k) + l, Pow2(k) - 1) == h * Pow2(k)
  {
    var p := Pow2(k);
    LowMask(k, l);
    Neutral(h);
    SplitLow(AndOp, k, h, l, p - 1);
    SplitLow(AndNotOp, k, h, l, p - 1);
  }

  /** Extracting the `n`-bit field at bit `k`: `(a & ((2^n - 1) << k)) >> k`. */
  lemma FieldIsDivMod(k: nat, n: nat, a: nat)
    ensures And(a, (Pow2(n) - 1) * Pow2(k)) / Pow2(k) == a / Pow2(k) % Pow2(n)
  {
    var h, l := QuotRem(a, Pow2(k));
    var m := Pow2(n) - 1;
    FieldParts(k, h, l, m);
    MaskIsMod(n, h);
    DivModUnique(Pow2(k), And(h, m), 0);
  }

  lemma FieldParts(k: nat, h: nat, l: nat, m: nat)
    requires l < Pow2(k)
    ensures And(h * Pow2(k) + l, m * Pow2(k)) == And(h, m) * Pow2(k)
  {
    Split(AndOp, k, h, l, m, 0);
    Neutral(l);
  }
}
