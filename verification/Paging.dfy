/**
 Page-table entries of `mm/vmm.k.h` and the processor's side of paging: the walk of
 section 4.5 of the Intel SDM, Volume 3A, for 4-level and 5-level paging.
 */
module Paging {
  import opened Bits

  const PRESENT: Word := 1
  const WRITABLE: Word := 2
  const USER: Word := 4
  const NOEXEC: Word := 0x8000_0000_0000_0000
  const WC: nat := Or(0x8, 0x80)
  const FLAGS_MASK: nat := Or(Or(Or(Or(Or(0xfff, PRESENT), WRITABLE), USER), NOEXEC), WC)

  const FRAMES: nat := 0x100_0000_0000   // 2^40 frames: physical addresses have 52 bits

  function Frame(e: nat): nat { e / 0x1000 % 0x100_0000_0000 }
  predicate Present(e: nat) { e % 2 == 1 }
  predicate Writable(e: nat) { e / 2 % 2 == 1 }
  predicate User(e: nat) { e / 4 % 2 == 1 }
  predicate Large(e: nat) { e / 0x80 % 2 == 1 }

  /** Bits 3, 4 and 7 of the entry that maps the page, 12 instead of 7 for a large one: section 4.9.2 of the Intel SDM,
      Volume 3A. */
  function PatIndex(e: nat, large: bool): nat {
    e / 8 % 2 + 2 * (e / 16 % 2) + 4 * (if large then e / 0x1000 % 2 else e / 0x80 % 2)
  }

  predicate NoExec(e: nat) { e / 0x8000_0000_0000_0000 % 2 == 1 }

  /** Table indices of a virtual address, outermost first. */
  function PathOf(la57: bool, virt: nat): (p: seq<nat>)
    ensures |p| == Depth(la57) && InRange(p)
  {
    var low := [virt / 0x80_0000_0000 % 512, virt / 0x4000_0000 % 512, virt / 0x20_0000 % 512, virt / 0x1000 % 512];
    if la57 then [virt / 0x1_0000_0000_0000 % 512] + low else low
  }

  function Depth(la57: bool): nat { if la57 then 5 else 4 }

  predicate InRange(p: seq<nat>) {
    forall i | 0 <= i < |p| :: p[i] < 512
  }

  /** Sign-extended addresses: the ones the processor translates at all. */
  predicate Canonical(la57: bool, virt: nat) {
    if la57 then virt < 0x100_0000_0000_0000 || 0xff00_0000_0000_0000 <= virt < 0x1_0000_0000_0000_0000
    else virt < 0x8000_0000_0000 || 0xffff_8000_0000_0000 <= virt < 0x1_0000_0000_0000_0000
  }

  /** Entry `i` of the table in page frame `frame`. */
  function Entry(mem: seq<Word>, frame: nat, i: nat): Word
    requires frame * 512 + i < |mem|
  {
    mem[frame * 512 + i]
  }

  /** `pat` is the index into the page attribute table that selects the memory type. */
  datatype Translation = Fault | Mapped(phys: nat, writable: bool, user: bool, noExec: bool, pat: nat)

  /** The processor's walk from the table in `frame`: rights are and-ed (no-execute or-ed) over
      the levels, bit 7 ends the walk early at the 1 GiB and 2 MiB levels and is reserved above. */
  function Walk(mem: seq<Word>, frame: nat, path: seq<nat>, offset: nat, w: bool, u: bool, nx: bool): Translation
    requires path != []
    decreases |path|
  {
    if frame * 512 + path[0] >= |mem| then Fault else
    var e := Entry(mem, frame, path[0]);
    if !Present(e) then Fault else
    var w', u', nx' := w && Writable(e), u && User(e), nx || NoExec(e);
    if |path| == 1 then Mapped(Frame(e) * 4096 + offset, w', u', nx', PatIndex(e, false))
    else if !Large(e) then Walk(mem, Frame(e), path[1..], offset, w', u', nx')
    else if |path| == 2 then
      Mapped((Frame(e) / 512 * 512 + path[1]) * 4096 + offset, w', u', nx', PatIndex(e, true))
    else if |path| == 3 then
      Mapped((Frame(e) / 0x4_0000 * 0x4_0000 + path[1] * 512 + path[2]) * 4096 + offset, w', u', nx',
             PatIndex(e, true))
    else Fault
  }

  function Translate(la57: bool, mem: seq<Word>, root: nat, virt: nat): Translation {
    if !Canonical(la57, virt) then Fault
    else Walk(mem, root, PathOf(la57, virt), virt % 4096, true, true, false)
  }

  /** The last-level entry the walk ends at, or 0 when a table on the way is absent. */
  function Leaf(mem: seq<Word>, frame: nat, path: seq<nat>): Word
    requires path != []
    decreases |path|
  {
    if frame * 512 + path[0] >= |mem| then 0 else
    var e := Entry(mem, frame, path[0]);
    if |path| == 1 then e
    else if !Present(e) then 0
    else Leaf(mem, Frame(e), path[1..])
  }

  function Decode(e: nat, offset: nat): Translation {
    if Present(e) then Mapped(Frame(e) * 4096 + offset, Writable(e), User(e), NoExec(e), PatIndex(e, false)) else Fault
  }

  // ---- what the kernel's masks compute ----

  /** Operators work separately on bit 63 and the bits below it. */
  lemma TopBit(op: Operator, ah: nat, al: nat, bh: nat, bl: nat)
    requires al < 0x8000_0000_0000_0000 && bl < 0x8000_0000_0000_0000
    ensures Bitwise(op, ah * 0x8000_0000_0000_0000 + al, bh * 0x8000_0000_0000_0000 + bl)
         == Bitwise(op, ah, bh) * 0x8000_0000_0000_0000 + Bitwise(op, al, bl)
  {
    assert Pow2(63) == 0x8000_0000_0000_0000 by { Pow2Values(); }
    Split(op, 63, ah, al, bh, bl);
  }

  lemma LowFlags(b: nat)
    requires b < 0x1000
    ensures Or(0xfff, b) == 0xfff
  {
    Pow2Values();
    OrAbsorbs(12, b);
  }

  lemma WcValue()
    ensures WC == 0x88
  {
    assert Pow2(7) == 0x80;
    Neutral(1);
    Neutral(8);
    Split(OrOp, 7, 0, 8, 1, 0);
  }

  lemma FlagsMaskValue()
    ensures FLAGS_MASK == 0x8000_0000_0000_0fff && WC == 0x88
  {
    WcValue();
    LowFlags(1);
    LowFlags(2);
    LowFlags(4);
    MaskTop();
    MaskWc();
  }

  lemma MaskTop()
    ensures Or(0xfff, 0x8000_0000_0000_0000) == 0x8000_0000_0000_0fff
  {
    OrTop(0xfff);
  }

  lemma OrTop(a: nat)
    requires a < 0x8000_0000_0000_0000
    ensures Or(a, 0x8000_0000_0000_0000) == 0x8000_0000_0000_0000 + a
  {
    Neutral(a);
    Neutral(1);
    TopBit(OrOp, 0, a, 1, 0);
  }

  lemma MaskWc()
    ensures Or(0x8000_0000_0000_0fff, 0x88) == 0x8000_0000_0000_0fff
  {
    Neutral(1);
    LowFlags(0x88);
    TopBit(OrOp, 1, 0xfff, 0, 0x88);
  }

  /** The table pointer `get_next_level` writes: `ret | 0b111`. */
  function Pointer(frame: nat): nat { frame * 4096 + 7 }

  /** Writing `ret | 0b111` and masking it again, by the kernel's mask or the processor's
      field, both give back the table; every right stays granted and no walk ends early. */
  lemma PointerRoundTrip(frame: nat)
    requires frame < FRAMES
    ensures Or(frame * 4096, 7) == Pointer(frame) < 0x1_0000_0000_0000_0000
    ensures AndNot(Pointer(frame), FLAGS_MASK) == frame * 4096
    ensures And(Pointer(frame), 1) == 1 && Present(Pointer(frame))
    ensures Frame(Pointer(frame)) == frame
    ensures Writable(Pointer(frame)) && User(Pointer(frame)) && !Large(Pointer(frame)) && !NoExec(Pointer(frame))
  {
    OrSmall(frame * 4096, 7);
    FlagsMaskValue();
    PointerFields(frame);
    MaskPointer(Pointer(frame));
    AndOne(Pointer(frame));
  }

  lemma PointerFields(frame: nat)
    requires frame < 0x100_0000_0000
    ensures Pointer(frame) / 4096 == frame == Frame(Pointer(frame)) && Present(Pointer(frame))
    ensures Writable(Pointer(frame)) && User(Pointer(frame)) && !Large(Pointer(frame)) && !NoExec(Pointer(frame))
  {
    var e := Pointer(frame);
    assert e / 4096 == frame by { Quotient(0x1000, frame, 7); }
    assert Frame(e) == frame by { Quotient(0x100_0000_0000, 0, frame); }
    assert e / 2 == frame * 2048 + 3 && e % 2 == 1 by { Quotient(2, frame * 2048 + 3, 1); }
    assert Writable(e) by { EvenShift(3, frame * 1024); }
    assert e / 4 == frame * 1024 + 1 by { Quotient(4, frame * 1024 + 1, 3); }
    assert User(e) by { EvenShift(1, frame * 512); }
    assert e / 0x80 == frame * 32 by { Quotient(0x80, frame * 32, 7); }
    assert !Large(e) by { EvenShift(0, frame * 16); }
    assert e / 0x8000_0000_0000_0000 == 0 by { Quotient(0x8000_0000_0000_0000, 0, frame * 4096 + 7); }
  }

  lemma Quotient(p: nat, h: nat, l: nat)
    requires l < p
    ensures (h * p + l) / p == h && (h * p + l) % p == l
  {
    DivModUnique(p, h, l);
  }

  lemma OrSmall(a: nat, b: nat)
    requires a % 4096 == 0 && b < 4096
    ensures Or(a, b) == a + b
  {
    Pow2Values();
    OrLow(12, a, b);
  }

  lemma MaskPointer(e: nat)
    requires e < 0x8000_0000_0000_0000
    ensures AndNot(e, 0x8000_0000_0000_0fff) == e / 4096 * 4096
  {
    TopBit(AndNotOp, 0, e, 1, 0xfff);
    assert AndNot(0, 1) == 0;
    assert AndNot(e, 0xfff) == e / 4096 * 4096 by {
      Pow2Values();
      MaskIsMod(12, e);
    }
  }

  lemma AndOne(e: nat)
    ensures And(e, 1) == e % 2
  {
    MaskIsMod(1, e);
    assert Pow2(1) == 2;
  }

  /** A flags word made only of bits of `VMM_PTE_FLAGS_MASK`. */
  predicate FlagBits(flags: nat) {
    flags % 0x8000_0000_0000_0000 < 0x1000 && flags < 0x1_0000_0000_0000_0000
  }

  /** For a page-aligned address and such flags, `phys | flags` decodes to both. */
  lemma LeafDecodes(phys: nat, flags: nat, offset: nat)
    requires phys % 4096 == 0 && phys < 0x10_0000_0000_0000 && FlagBits(flags)
    ensures Decode(Or(phys, flags), offset)
         == if Present(flags)
            then Mapped(phys + offset, Writable(flags), User(flags), NoExec(flags), PatIndex(flags, false))
            else Fault
  {
    var nx, low := QuotRem(flags, 0x8000_0000_0000_0000);
    var f := phys / 4096;
    var e := nx * 0x8000_0000_0000_0000 + (f * 4096 + low);
    assert phys == f * 4096 && flags == nx * 0x8000_0000_0000_0000 + low;
    assert Or(phys, flags) == e by { LeafWord(f, nx, low); }
    LeafFields(f, nx, low);
    assert Frame(e) * 4096 == phys;
  }

  lemma LeafWord(f: nat, nx: nat, low: nat)
    requires f < 0x100_0000_0000 && low < 0x1000
    ensures Or(f * 4096, nx * 0x8000_0000_0000_0000 + low) == nx * 0x8000_0000_0000_0000 + (f * 4096 + low)
  {
    TopBit(OrOp, 0, f * 4096, nx, low);
    Neutral(nx);
    OrSmall(f * 4096, low);
  }

  lemma LeafFields(f: nat, nx: nat, low: nat)
    requires f < 0x100_0000_0000 && low < 0x1000
    ensures var e, g := nx * 0x8000_0000_0000_0000 + (f * 4096 + low), nx * 0x8000_0000_0000_0000 + low;
      Frame(e) == f && Present(e) == Present(g) && Writable(e) == Writable(g) && User(e) == User(g)
        && NoExec(e) == NoExec(g) && PatIndex(e, false) == PatIndex(g, false)
  {
    var e, g := nx * 0x8000_0000_0000_0000 + (f * 4096 + low), nx * 0x8000_0000_0000_0000 + low;
    assert e == g + f * 4096;
    LowFields(g, f, e);
    HighFields(f, nx, low);
  }

  lemma HighFields(f: nat, nx: nat, low: nat)
    requires f < 0x100_0000_0000 && low < 0x1000
    ensures var e, g := nx * 0x8000_0000_0000_0000 + (f * 4096 + low), nx * 0x8000_0000_0000_0000 + low;
      Frame(e) == f && NoExec(e) == NoExec(g)
  {
    Quotient(0x1000, nx * 0x8_0000_0000_0000 + f, low);
    Quotient(0x100_0000_0000, nx * 0x800, f);
    Quotient(0x8000_0000_0000_0000, nx, f * 4096 + low);
    Quotient(0x8000_0000_0000_0000, nx, low);
  }

  lemma LowFields(g: nat, f: nat, e: nat)
    requires e == g + f * 4096
    ensures Present(e) == Present(g) && Writable(e) == Writable(g) && User(e) == User(g)
            && PatIndex(e, false) == PatIndex(g, false)
  {
    EvenShift(g, f * 2048);
    LowBit(g, f, 2, 2048);
    LowBit(g, f, 4, 1024);
    LowBit(g, f, 8, 512);
    LowBit(g, f, 16, 256);
    LowBit(g, f, 128, 32);
  }

  /** A bit below the page number is that of the flags. */
  lemma LowBit(g: nat, f: nat, d: nat, q: nat)
    requires d > 0 && d * q == 4096 && q % 2 == 0
    ensures (g + f * 4096) / d % 2 == g / d % 2
  {
    var h, l := QuotRem(g, d);
    var half := q / 2;
    assert f * 4096 == f * q * d;
    assert g + f * 4096 == (h + f * q) * d + l;
    DivModUnique(d, h + f * q, l);
    assert f * q == 2 * (f * half);
    EvenShift(h, f * half);
  }

  lemma EvenShift(a: nat, b: nat)
    ensures (a + 2 * b) % 2 == a % 2
  {}

  /** The five index computations of `vmm_map_page`. */
  lemma IndexMasks(virt: nat)
    ensures And(virt, 0x1ff * 0x1_0000_0000_0000) / 0x1_0000_0000_0000 == virt / 0x1_0000_0000_0000 % 512
    ensures And(virt, 0x1ff * 0x80_0000_0000) / 0x80_0000_0000 == virt / 0x80_0000_0000 % 512
    ensures And(virt, 0x1ff * 0x4000_0000) / 0x4000_0000 == virt / 0x4000_0000 % 512
    ensures And(virt, 0x1ff * 0x20_0000) / 0x20_0000 == virt / 0x20_0000 % 512
    ensures And(virt, 0x1ff * 0x1000) / 0x1000 == virt / 0x1000 % 512
  {
    Pow2Values();
    FieldIsDivMod(48, 9, virt);
    FieldIsDivMod(39, 9, virt);
    FieldIsDivMod(30, 9, virt);
    FieldIsDivMod(21, 9, virt);
    FieldIsDivMod(12, 9, virt);
  }

  /** Two addresses have the same path exactly when their page numbers agree in the translated bits. */
  lemma SamePath(la57: bool, v: nat, w: nat)
    ensures PathOf(la57, v) == PathOf(la57, w)
       <==> if la57 then v / 4096 % 0x2000_0000_0000 == w / 4096 % 0x2000_0000_0000
            else v / 4096 % 0x10_0000_0000 == w / 4096 % 0x10_0000_0000
  {
    Digits(v);
    Digits(w);
    var p, q := PathOf(false, v), PathOf(false, w);
    var top, top' := v / 0x1_0000_0000_0000 % 512, w / 0x1_0000_0000_0000 % 512;
    assert p == q <==> v / 4096 % 0x10_0000_0000 == w / 4096 % 0x10_0000_0000 by {
      SameDigits(p, q);
    }
    if la57 {
      assert PathOf(la57, v) == [top] + p && PathOf(la57, w) == [top'] + q;
      assert [top] + p == [top'] + q <==> top == top' && p == q by {
        assert ([top] + p)[1..] == p && ([top'] + q)[1..] == q && ([top] + p)[0] == top && ([top'] + q)[0] == top';
      }
      SameTop(top, v / 4096 % 0x10_0000_0000, top', w / 4096 % 0x10_0000_0000);
    } else {
      assert PathOf(la57, v) == p && PathOf(la57, w) == q;
    }
  }

  /** Four digits of nine bits are determined by their value. */
  lemma SameDigits(p: seq<nat>, q: seq<nat>)
    requires |p| == |q| == 4 && InRange(p) && InRange(q)
    ensures p == q <==>
              p[0] * 0x800_0000 + p[1] * 0x4_0000 + p[2] * 512 + p[3]
              == q[0] * 0x800_0000 + q[1] * 0x4_0000 + q[2] * 512 + q[3]
  {
    assert p == q <==> p[0] == q[0] && p[1] == q[1] && p[2] == q[2] && p[3] == q[3];
  }

  lemma SameTop(a: nat, x: nat, b: nat, y: nat)
    requires x < 0x10_0000_0000 && y < 0x10_0000_0000
    ensures a * 0x10_0000_0000 + x == b * 0x10_0000_0000 + y <==> a == b && x == y
  {}

  lemma Digits(v: nat)
    ensures v / 4096 % 0x10_0000_0000
         == v / 0x80_0000_0000 % 512 * 0x800_0000 + v / 0x4000_0000 % 512 * 0x4_0000
            + v / 0x20_0000 % 512 * 512 + v / 4096 % 512
    ensures v / 4096 % 0x2000_0000_0000
         == v / 0x1_0000_0000_0000 % 512 * 0x10_0000_0000 + v / 4096 % 0x10_0000_0000
  {
    var a := v / 4096;
    var b := a / 512;
    var c := b / 512;
    var d := c / 512;
    var e := d / 512;
    Shifted(v);
    var low := d % 512 * 0x800_0000 + c % 512 * 0x4_0000 + b % 512 * 512 + a % 512;
    assert a == e * 0x10_0000_0000 + low;
    Quotient(0x10_0000_0000, e, low);
    Quotient(0x2000_0000_0000, e / 512, e % 512 * 0x10_0000_0000 + low);
  }

  lemma Shifted(v: nat)
    ensures v / 0x20_0000 == v / 4096 / 512 && v / 0x4000_0000 == v / 4096 / 512 / 512
    ensures v / 0x80_0000_0000 == v / 4096 / 512 / 512 / 512
    ensures v / 0x1_0000_0000_0000 == v / 4096 / 512 / 512 / 512 / 512
  {}

  /** Canonical addresses in one half have the same path exactly when they are in the same page. */
  lemma SamePageInHalf(la57: bool, v: nat, w: nat)
    requires Canonical(la57, v) && Canonical(la57, w) && (HigherHalf(v) <==> HigherHalf(w))
    ensures PathOf(la57, v) == PathOf(la57, w) <==> v / 4096 == w / 4096
  {
    SamePath(la57, v, w);
    PageResidue(la57, v);
    PageResidue(la57, w);
  }

  lemma PageResidue(la57: bool, v: nat)
    requires Canonical(la57, v)
    ensures var x := v / 4096;
      if la57 then x % 0x2000_0000_0000 == if HigherHalf(v) then x - 0x7f * 0x2000_0000_0000 else x
      else x % 0x10_0000_0000 == if HigherHalf(v) then x - 0xffff * 0x10_0000_0000 else x
  {
    var x := v / 4096;
    if la57 {
      if HigherHalf(v) {
        Quotient(0x2000_0000_0000, 0x7f, x - 0x7f * 0x2000_0000_0000);
      } else {
        Quotient(0x2000_0000_0000, 0, x);
      }
    } else if HigherHalf(v) {
      Quotient(0x10_0000_0000, 0xffff, x - 0xffff * 0x10_0000_0000);
    } else {
      Quotient(0x10_0000_0000, 0, x);
    }
  }

  predicate HigherHalf(virt: nat) { virt >= 0x8000_0000_0000_0000 }

  lemma TopIndex(la57: bool, v: nat)
    requires Canonical(la57, v)
    ensures PathOf(la57, v)[0] >= 256 <==> HigherHalf(v)
  {
    if la57 {
      TopField(v, 0x1_0000_0000_0000, 0x80);
    } else {
      TopField(v, 0x80_0000_0000, 0x1_0000);
    }
  }

  /** The nine bits above `unit` of an address that has zeros or ones above them. */
  lemma TopField(v: nat, unit: nat, turns: nat)
    requires unit * 512 * turns == 0x1_0000_0000_0000_0000 && unit > 0 && turns > 1
    requires v < 256 * unit || 0x1_0000_0000_0000_0000 - 256 * unit <= v < 0x1_0000_0000_0000_0000
    ensures v / unit % 512 >= 256 <==> v >= 256 * unit
  {
    var q, r := QuotRem(v, unit);
    if v < 256 * unit {
      MulLess(q, 256, unit);
      Quotient(512, 0, q);
    } else {
      var base := 512 * (turns - 1) + 256;
      assert base * unit == 0x1_0000_0000_0000_0000 - 256 * unit;
      MulLess(base - 1, q, unit);
      MulLess(q, base + 256, unit);
      Quotient(512, turns - 1, q - 512 * (turns - 1));
    }
  }

  lemma MulLess(a: int, b: int, unit: nat)
    requires unit > 0 && a * unit < b * unit
    ensures a < b
  {}
}
