/** Fixed-width machine words and little-endian words in byte memory. */
module Words {
  const TWO_32 := 0x1_0000_0000

  datatype Option<+T> = None | Some(value: T)

  type u8 = x: int | 0 <= x < 0x100
  type u32 = x: int | 0 <= x < TWO_32

  /** Truncation of an exact integer to 32 bits (two's complement for negative values). */
  function Wrap(x: int): u32 {
    x % TWO_32
  }

  /** Rounding up to the allocators' 16-byte alignment. */
  function Round16(n: nat): (r: nat)
    ensures n <= r < n + 16
  {
    (n + 15) / 16 * 16
  }

  lemma WrapSmall(x: u32)
    ensures Wrap(x) == x
  {
  }

  lemma WrapAgain(x: int, j: int, k: int)
    ensures Wrap(Wrap(x + j) + k) == Wrap(x + (j + k))
  {
    var q := (x + j) / TWO_32;
    assert x + (j + k) == Wrap(x + j) + k + q * TWO_32;
    WrapPeriod(Wrap(x + j) + k, q);
  }

  lemma WrapPeriod(x: int, q: int)
    ensures Wrap(x + q * TWO_32) == Wrap(x)
  {
    assert x + q * TWO_32 == (x / TWO_32 + q) * TWO_32 + x % TWO_32;
  }

  /** Quotient and remainder are unique. */
  lemma Unique(x: nat, d: nat, q: nat, r: nat)
    requires x == d * q + r && r < d
    ensures x / d == q && x % d == r
  {
    var q', r' := x / d, x % d;
    assert x == d * q' + r' && r' < d;
    assert d * (q - q') == r' - r && d * (q' - q) == r - r';
    Multiple(d, q - q');
    Multiple(d, q' - q);
  }

  lemma Multiple(d: nat, z: int)
    ensures z >= 1 ==> d * z >= d
  {
    if z >= 1 { assert d * z == d + d * (z - 1); }
  }

  /** The signed reading of the low `bits` bits. */
  function Signed(x: int, bits: nat): int
    requires bits in {8, 16, 32}
  {
    var size := if bits == 8 then 0x100 else if bits == 16 then 0x1_0000 else TWO_32;
    if x % size < size / 2 then x % size else x % size - size
  }

  lemma SignedWrap(d: int)
    requires -0x8000_0000 <= d < 0x8000_0000
    ensures Signed(Wrap(d), 32) == d
  {
    assert Wrap(d) == if d >= 0 then d else d + TWO_32;
  }

  /** The little-endian word of four bytes. */
  function Word(b0: int, b1: int, b2: int, b3: int): (w: int)
    ensures 0 <= b0 < 0x100 && 0 <= b1 < 0x100 && 0 <= b2 < 0x100 && 0 <= b3 < 0x100 ==> 0 <= w < TWO_32
  {
    b0 + 0x100 * b1 + 0x1_0000 * b2 + 0x100_0000 * b3
  }

  /** memcpy of four bytes out of memory into a word. */
  function Read32(m: seq<u8>, a: nat): u32
    requires a + 4 <= |m|
  {
    Word(m[a], m[a + 1], m[a + 2], m[a + 3])
  }

  /** Byte k (0 = least significant) of a word. */
  function ByteOf(w: u32, k: nat): u8
    requires k < 4
  {
    if k == 0 then w % 0x100
    else if k == 1 then w / 0x100 % 0x100
    else if k == 2 then w / 0x1_0000 % 0x100
    else w / 0x100_0000
  }

  /** memcpy of a word into four bytes of memory. */
  function Write32(m: seq<u8>, a: nat, w: u32): (r: seq<u8>)
    requires a + 4 <= |m|
    ensures |r| == |m|
    ensures forall i {:trigger r[i]} :: 0 <= i < |m| ==>
      r[i] == if a <= i < a + 4 then ByteOf(w, i - a) else m[i]
  {
    m[a := ByteOf(w, 0)][a + 1 := ByteOf(w, 1)][a + 2 := ByteOf(w, 2)][a + 3 := ByteOf(w, 3)]
  }

  /** Two memories of one size that agree on the bytes of `keep`. */
  ghost predicate SameOn(m: seq<u8>, n: seq<u8>, keep: iset<int>) {
    |m| == |n| && forall a :: 0 <= a < |m| && a in keep ==> m[a] == n[a]
  }

  lemma SameSize(m: seq<u8>, n: seq<u8>, keep: iset<int>)
    requires SameOn(m, n, keep)
    ensures |n| == |m|
  {
  }

  lemma BytesJoin(w: u32)
    ensures Word(ByteOf(w, 0), ByteOf(w, 1), ByteOf(w, 2), ByteOf(w, 3)) == w
  {
    var q1, q2, q3 := w / 0x100, w / 0x1_0000, w / 0x100_0000;
    assert q2 == q1 / 0x100 && q3 == q2 / 0x100;
    assert w == 0x100 * q1 + w % 0x100 && q1 == 0x100 * q2 + q1 % 0x100 && q2 == 0x100 * q3 + q2 % 0x100;
  }

  lemma BytesOfWord(b0: u8, b1: u8, b2: u8, b3: u8)
    ensures var w := Word(b0, b1, b2, b3);
      ByteOf(w, 0) == b0 && ByteOf(w, 1) == b1 && ByteOf(w, 2) == b2 && ByteOf(w, 3) == b3
  {
    var w := Word(b0, b1, b2, b3);
    assert w / 0x100 == b1 + 0x100 * (b2 as int) + 0x1_0000 * (b3 as int);
    assert w / 0x1_0000 == b2 + 0x100 * (b3 as int);
    assert w / 0x100_0000 == b3;
  }

  /** Reading back a written word returns it; words at a distance of four or more are untouched. */
  lemma ReadAfterWrite(m: seq<u8>, a: nat, w: u32, b: nat)
    requires a + 4 <= |m| && b + 4 <= |m|
    requires a == b || a + 4 <= b || b + 4 <= a
    ensures Read32(Write32(m, a, w), b) == if a == b then w else Read32(m, b)
  {
    BytesJoin(w);
  }

  method Store32(m: array<u8>, a: nat, w: u32)
    requires a + 4 <= m.Length
    modifies m
    ensures m[..] == Write32(old(m[..]), a, w)
  {
    m[a], m[a + 1], m[a + 2], m[a + 3] := ByteOf(w, 0), ByteOf(w, 1), ByteOf(w, 2), ByteOf(w, 3);
  }

  method Load32(m: array<u8>, a: nat) returns (w: u32)
    requires a + 4 <= m.Length
    ensures w == Read32(m[..], a)
  {
    w := Word(m[a], m[a + 1], m[a + 2], m[a + 3]);
  }
}
