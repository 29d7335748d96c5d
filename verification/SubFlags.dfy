/** The arithmetic flags of a subtraction, and what they say about its operands. */
module SubFlags {
  import opened Words
  import opened Eflags
  import opened HelperMemory

  /** The low `size` bytes. */
  function Trunc(x: int, size: nat): (r: u32)
    ensures IsSize(size) ==> r < Span(size)
  {
    if size == 1 then x % 0x100 else if size == 2 then x % 0x1_0000 else Wrap(x)
  }

  /** The sign bit of a `size`-byte value. */
  predicate Negative(x: int, size: nat) { x >= Span(size) / 2 }

  predicate Bit4(x: int) { x / 16 % 2 == 1 }

  function LowByte(x: int): bv8 { (x % 0x100) as bv8 }

  /** Xor of all bits, folded in halves. */
  function Fold(p: bv8): bv8 {
    var p4 := p ^ (p >> 4);
    var p2 := p4 ^ (p4 >> 2);
    (p2 ^ (p2 >> 1)) & 1
  }

  function Pack(cf: bool, pf: bool, af: bool, zf: bool, sf: bool, of: bool): bv32 {
    (if cf then CF else 0) | (if pf then PF else 0) | (if af then AF else 0)
    | (if zf then ZF else 0) | (if sf then SF else 0) | (if of then OF else 0)
  }

  /** compute_sub_flags. */
  function Compute(left: u32, right: u32, size: nat): bv32 {
    var a: int, b: int := Trunc(left, size), Trunc(right, size);
    var r := Trunc(a - b, size);
    Pack(a < b, Fold(LowByte(r)) == 0, (Bit4(a) != Bit4(b)) != Bit4(r), r == 0, Negative(r, size),
         Negative(a, size) != Negative(b, size) && Negative(a, size) != Negative(r, size))
  }

  function Ones(x: bv8): nat {
    (if x & 1 != 0 then 1 else 0) + (if x & 2 != 0 then 1 else 0) + (if x & 4 != 0 then 1 else 0)
    + (if x & 8 != 0 then 1 else 0) + (if x & 16 != 0 then 1 else 0) + (if x & 32 != 0 then 1 else 0)
    + (if x & 64 != 0 then 1 else 0) + (if x & 128 != 0 then 1 else 0)
  }

  /** An exact signed result that `size` bytes can hold. */
  predicate Fits(x: int, size: nat) { 0 <= x + Span(size) / 2 < Span(size) }

  /** What the flags f of a subtraction say about its operands: unsigned order, equality, the sign of the truncated
      difference, signed overflow, signed order, the nibble borrow and the parity of the difference's low byte. */
  predicate Tells(f: bv32, a: u32, b: u32, size: nat)
    requires IsSize(size)
  {
    && (Has(f, CF) <==> a < b)
    && (Has(f, ZF) <==> a == b)
    && (Has(f, SF) <==> Signed(a - b, 8 * size) < 0)
    && (Has(f, OF) <==> !Fits(Signed(a, 8 * size) - Signed(b, 8 * size), size))
    && (Has(f, SF) != Has(f, OF) <==> Signed(a, 8 * size) < Signed(b, 8 * size))
    && (Has(f, AF) <==> a % 16 < b % 16)
    && (Has(f, PF) <==> Ones(LowByte(a - b)) % 2 == 0)
  }

  /** The flags tell all that, and no bit outside the arithmetic flags is set. */
  lemma Meaning(left: u32, right: u32, size: nat)
    requires IsSize(size)
    ensures var f := Compute(left, right, size);
      Tells(f, Trunc(left, size), Trunc(right, size), size) && !Has(f, !ARITH_FLAGS)
  {
    hide Has, Compute, Ones, Fold, Bit4, Negative, Signed, Trunc, LowByte, Fits;
    var a: int, b: int := Trunc(left, size), Trunc(right, size);
    var r := Trunc(a - b, size);
    Separate(left, right, size);
    Difference(a, b, size);
    FoldIsParity(LowByte(r));
    SameLowByte(a, b, size);
    BorrowOf(a, b, size);
    SignDecides(a, b, r, size);
  }

  /** Each flag bit is its own condition. */
  lemma Separate(left: u32, right: u32, size: nat)
    requires IsSize(size)
    ensures
      var a, b, f := Trunc(left, size), Trunc(right, size), Compute(left, right, size);
      var r := Trunc(a - b, size);
      && (Has(f, CF) <==> a < b)
      && (Has(f, ZF) <==> r == 0)
      && (Has(f, SF) <==> Negative(r, size))
      && (Has(f, OF) <==> Negative(a, size) != Negative(b, size) && Negative(a, size) != Negative(r, size))
      && (Has(f, AF) <==> (Bit4(a) != Bit4(b)) != Bit4(r))
      && (Has(f, PF) <==> Fold(LowByte(r)) == 0)
      && !Has(f, !ARITH_FLAGS)
  {
    hide Has, Pack, Fold, Bit4, Negative, Trunc, LowByte;
    var a: int, b: int := Trunc(left, size), Trunc(right, size);
    var r := Trunc(a - b, size);
    PackBits(a < b, Fold(LowByte(r)) == 0, (Bit4(a) != Bit4(b)) != Bit4(r), r == 0, Negative(r, size),
             Negative(a, size) != Negative(b, size) && Negative(a, size) != Negative(r, size));
  }

  lemma PackBits(cf: bool, pf: bool, af: bool, zf: bool, sf: bool, of: bool)
    ensures
      var f := Pack(cf, pf, af, zf, sf, of);
      && (Has(f, CF) <==> cf) && (Has(f, PF) <==> pf) && (Has(f, AF) <==> af)
      && (Has(f, ZF) <==> zf) && (Has(f, SF) <==> sf) && (Has(f, OF) <==> of) && !Has(f, !ARITH_FLAGS)
  {
  }

  lemma FoldIsParity(x: bv8)
    ensures Fold(x) == 0 <==> Ones(x) % 2 == 0
  {
  }

  lemma Difference(a: int, b: int, size: nat)
    requires IsSize(size) && 0 <= a < Span(size) && 0 <= b < Span(size)
    ensures Trunc(a - b, size) == if a < b then a - b + Span(size) else a - b
  {
  }

  lemma SameLowByte(a: int, b: int, size: nat)
    requires IsSize(size) && 0 <= a < Span(size) && 0 <= b < Span(size)
    ensures LowByte(Trunc(a - b, size)) == LowByte(a - b)
  {
    Difference(a, b, size);
    if size == 1 { Period256(a - b, 1); } else if size == 2 { Period256(a - b, 0x100); } else { Period256(a - b, 0x100_0000); }
  }

  lemma Period256(d: int, c: int)
    ensures (d + 0x100 * c) % 0x100 == d % 0x100
  {
    assert d + 0x100 * c == 0x100 * (d / 0x100 + c) + d % 0x100;
  }

  lemma BorrowOf(a: nat, b: nat, size: nat)
    requires IsSize(size) && a < Span(size) && b < Span(size)
    ensures (Bit4(a) != Bit4(b)) != Bit4(Trunc(a - b, size)) <==> a % 16 < b % 16
  {
    hide Bit4, Trunc;
    Difference(a, b, size);
    BorrowBit(a, b, Trunc(a - b, size), if a >= b then 0 else if size == 1 then 8 else if size == 2 then 0x800 else 0x800_0000);
  }

  /** Bit 4 of the three-way xor is the borrow out of the low nibble. */
  lemma BorrowBit(a: nat, b: nat, r: nat, q: int)
    requires r == a - b + 32 * q
    ensures (Bit4(a) != Bit4(b)) != Bit4(r) <==> a % 16 < b % 16
  {
    var ah, bh := a / 16, b / 16;
    var borrow := if a % 16 < b % 16 then 1 else 0;
    var high := ah - bh - borrow + 2 * q;
    assert a == 16 * ah + a % 16 && b == 16 * bh + b % 16;
    assert r == 16 * high + (a % 16 - b % 16 + 16 * borrow);
    assert r / 16 == high;
    ParityOfDifference(ah, bh, borrow, q);
  }

  lemma ParityOfDifference(x: nat, y: nat, c: nat, q: int)
    requires c < 2
    ensures (x - y - c + 2 * q) % 2 == 1 <==> ((x % 2 == 1) != (y % 2 == 1)) != (c == 1)
  {
    assert x == x / 2 * 2 + x % 2 && y == y / 2 * 2 + y % 2;
  }

  /** Sign of the truncated difference, corrected by overflow, is the signed order. */
  lemma SignDecides(a: int, b: int, r: int, size: nat)
    requires IsSize(size) && 0 <= a < Span(size) && 0 <= b < Span(size)
    requires r == if a < b then a - b + Span(size) else a - b
    ensures Negative(r, size) != (Negative(a, size) != Negative(b, size) && Negative(a, size) != Negative(r, size))
       <==> Signed(a, 8 * size) < Signed(b, 8 * size)
    ensures Negative(a, size) != Negative(b, size) && Negative(a, size) != Negative(r, size)
       <==> !Fits(Signed(a, 8 * size) - Signed(b, 8 * size), size)
    ensures Negative(r, size) <==> Signed(a - b, 8 * size) < 0
  {
    hide Signed;
    SignedIs(a, size);
    SignedIs(b, size);
    SignedIs(r, size);
    if a < b { SignedPeriod(a - b, size); }
  }

  lemma SignedPeriod(x: int, size: nat)
    requires IsSize(size) && -(Span(size) as int) < x < 0
    ensures Signed(x, 8 * size) == Signed(x + Span(size), 8 * size)
  {
    if size == 1 {
      assert x / 0x100 == -1;
    } else if size == 2 {
      assert x / 0x1_0000 == -1;
    } else {
      assert x / TWO_32 == -1;
    }
  }

  lemma SignedIs(x: int, size: nat)
    requires IsSize(size) && 0 <= x < Span(size)
    ensures Signed(x, 8 * size) == if Negative(x, size) then x - Span(size) else x
  {
    if size == 1 { assert x % 0x100 == x; } else if size == 2 { assert x % 0x1_0000 == x; } else { assert x % TWO_32 == x; }
  }
}
