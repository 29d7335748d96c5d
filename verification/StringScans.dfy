/** What the scanning string instructions find, over the bytes in memory. */
module StringScans {
  import opened Words
  import opened Eflags
  import opened Paging
  import opened HelperMemory
  import opened SubFlags
  import opened StringOps

  /** The address of element k of a run that starts at `start`. */
  function Place(start: u32, size: nat, down: bool, k: nat): int {
    if down then start - size * k else start + size * k
  }

  predicate RunInRam(start: u32, size: nat, down: bool, n: nat) {
    forall k: nat :: k < n ==> 0 <= Place(start, size, down, k) <= 0x800_0000 - size
  }

  lemma PlaceOf(start: u32, size: nat, down: bool, k: nat, n: nat)
    requires IsSize(size) && k < n && RunInRam(start, size, down, n)
    ensures 0 <= Place(start, size, down, k) <= RAM_SIZE - size
    ensures At(start, size, down, k) == Place(start, size, down, k)
  {
    assert Step(size, down) * k == if down then -(size * k) else size * k;
    WrapSmall(Place(start, size, down, k));
  }

  /** The little-endian value of an element. */
  function Value(m: seq<u8>, a: int, size: nat): nat
    requires IsSize(size) && 0 <= a && a + size <= |m|
  {
    if size == 1 then m[a]
    else if size == 2 then m[a] + 0x100 * m[a + 1] as int
    else m[a] + 0x100 * m[a + 1] as int + 0x1_0000 * m[a + 2] as int + 0x100_0000 * m[a + 3] as int
  }

  /** The element in memory consists of the low bytes of v. */
  predicate ElementIs(m: seq<u8>, a: int, size: nat, v: u32)
    requires IsSize(size) && 0 <= a && a + size <= |m|
  {
    m[a..a + size] == [ByteOf(v, 0), ByteOf(v, 1), ByteOf(v, 2), ByteOf(v, 3)][..size]
  }

  lemma ReadIsValue(m: seq<u8>, a: u32, size: nat)
    requires IsSize(size) && |m| == WINDOW_SIZE && a + size <= RAM_SIZE
    ensures GuestRead(m, a, size) == Value(m, a, size) == Trunc(Value(m, a, size), size)
  {
  }

  lemma ElementParts(m: seq<u8>, a: int, size: nat, v: u32)
    requires IsSize(size) && 0 <= a && a + size <= |m|
    ensures ElementIs(m, a, size, v) <==>
      m[a] == ByteOf(v, 0) && (size > 1 ==> m[a + 1] == ByteOf(v, 1))
      && (size > 2 ==> m[a + 2] == ByteOf(v, 2) && m[a + 3] == ByteOf(v, 3))
  {
    hide ByteOf;
    var e, b := m[a..a + size], [ByteOf(v, 0), ByteOf(v, 1), ByteOf(v, 2), ByteOf(v, 3)][..size];
    assert e[0] == m[a] && b[0] == ByteOf(v, 0);
    if size > 1 { assert e[1] == m[a + 1] && b[1] == ByteOf(v, 1); }
    if size > 2 { assert e[2] == m[a + 2] && b[2] == ByteOf(v, 2) && e[3] == m[a + 3] && b[3] == ByteOf(v, 3); }
  }

  lemma ValueIs(m: seq<u8>, a: int, size: nat, v: u32)
    requires IsSize(size) && 0 <= a && a + size <= |m|
    ensures Value(m, a, size) == v <==> ElementIs(m, a, size, v) && v < Span(size)
  {
    hide ElementIs, ByteOf;
    ElementParts(m, a, size, v);
    if size == 1 {
      OneByte(m[a], v);
    } else if size == 2 {
      TwoBytes(m[a], m[a + 1], v);
    } else {
      FourBytes(m[a], m[a + 1], m[a + 2], m[a + 3], v);
    }
  }

  lemma OneByte(b: u8, v: u32)
    ensures b == v <==> b == ByteOf(v, 0) && v < 0x100
  {
  }

  lemma TwoBytes(b0: u8, b1: u8, v: u32)
    ensures b0 + 0x100 * b1 as int == v <==> b0 == ByteOf(v, 0) && b1 == ByteOf(v, 1) && v < 0x1_0000
  {
    var w: int := b0 + 0x100 * b1 as int;
    Unique(w, 0x100, b1, b0);
    assert v == 0x100 * (v / 0x100) + v % 0x100;
    if v < 0x1_0000 { assert v / 0x100 < 0x100; }
  }

  lemma FourBytes(b0: u8, b1: u8, b2: u8, b3: u8, v: u32)
    ensures b0 + 0x100 * b1 as int + 0x1_0000 * b2 as int + 0x100_0000 * b3 as int == v
      <==> b0 == ByteOf(v, 0) && b1 == ByteOf(v, 1) && b2 == ByteOf(v, 2) && b3 == ByteOf(v, 3)
  {
    hide ByteOf;
    assert Word(b0, b1, b2, b3) == b0 + 0x100 * b1 as int + 0x1_0000 * b2 as int + 0x100_0000 * b3 as int;
    BytesOfWord(b0, b1, b2, b3);
    BytesJoin(v);
  }

  lemma ValuesAgree(m: seq<u8>, a: int, b: int, size: nat)
    requires IsSize(size) && 0 <= a && a + size <= |m| && 0 <= b && b + size <= |m|
    ensures Value(m, a, size) == Value(m, b, size) <==> m[a..a + size] == m[b..b + size]
  {
    hide ByteOf, Value;
    ValueFits(m, b, size);
    ValueIs(m, a, size, Value(m, b, size));
    ValueIs(m, b, size, Value(m, b, size));
  }

  lemma ValueFits(m: seq<u8>, a: int, size: nat)
    requires IsSize(size) && 0 <= a && a + size <= |m|
    ensures Value(m, a, size) < Span(size) <= TWO_32
  {
  }

  lemma LowBytes(m: seq<u8>, a: int, size: nat, v: u32)
    requires IsSize(size) && 0 <= a && a + size <= |m|
    ensures Trunc(v, size) == Value(m, a, size) <==> ElementIs(m, a, size, v)
  {
    hide Value;
    ValueIs(m, a, size, Trunc(v, size));
    SameLowBytes(v, size);
  }

  lemma SameLowBytes(v: u32, size: nat)
    requires IsSize(size)
    ensures var w := Trunc(v, size);
      [ByteOf(w, 0), ByteOf(w, 1), ByteOf(w, 2), ByteOf(w, 3)][..size]
        == [ByteOf(v, 0), ByteOf(v, 1), ByteOf(v, 2), ByteOf(v, 3)][..size]
  {
    var w := Trunc(v, size);
    if size == 2 {
      LowHalf(v);
      assert w == v % 0x1_0000;
    } else if size == 1 {
      assert w == v % 0x100;
      assert ByteOf(w, 0) == ByteOf(v, 0);
    } else {
      WrapSmall(v);
      assert w == v;
    }
  }

  lemma LowHalf(v: u32)
    ensures ByteOf(v % 0x1_0000, 0) == ByteOf(v, 0) && ByteOf(v % 0x1_0000, 1) == ByteOf(v, 1)
  {
    var h: nat, l: nat := v / 0x100, v % 0x100;
    assert v == 0x100 * h + l;
    HalfParts(v, h, l);
  }

  lemma HalfParts(v: nat, h: nat, l: nat)
    requires l < 0x100 && v == 0x100 * h + l
    ensures v % 0x1_0000 % 0x100 == l == v % 0x100 && v % 0x1_0000 / 0x100 % 0x100 == h % 0x100 == v / 0x100 % 0x100
  {
    var x := 0x100 * (h % 0x100) + l;
    assert v % 0x1_0000 == x by { Unique(v, 0x1_0000, h / 0x100, x); }
    Unique(x, 0x100, h % 0x100, l);
    Unique(v, 0x100, h, l);
  }

  // ---- CMPS ----

  /** Element k of the two runs agrees byte for byte. */
  predicate PairAgrees(m: seq<u8>, size: nat, down: bool, esi: u32, edi: u32, n: nat, k: nat)
    requires |m| == WINDOW_SIZE && IsSize(size) && RunInRam(esi, size, down, n) && RunInRam(edi, size, down, n) && k < n
  {
    var a, b := Place(esi, size, down, k), Place(edi, size, down, k);
    m[a..a + size] == m[b..b + size]
  }

  lemma PairOf(m: seq<u8>, size: nat, down: bool, esi: u32, edi: u32, n: nat, k: nat)
    requires |m| == WINDOW_SIZE && IsSize(size) && RunInRam(esi, size, down, n) && RunInRam(edi, size, down, n) && k < n
    ensures var s, a, b := Scan(m, size, down, Source(esi), edi), Place(esi, size, down, k), Place(edi, size, down, k);
      && (s.Equal(k) <==> PairAgrees(m, size, down, esi, edi, n, k))
      && Trunc(s.Left(k), size) == Value(m, a, size) && Trunc(s.Right(k), size) == Value(m, b, size)
  {
    hide Place, At, GuestRead, Value, Trunc;
    PlaceOf(esi, size, down, k, n);
    PlaceOf(edi, size, down, k, n);
    ReadIsValue(m, Place(esi, size, down, k), size);
    ReadIsValue(m, Place(edi, size, down, k), size);
    ValuesAgree(m, Place(esi, size, down, k), Place(edi, size, down, k), size);
  }

  /** A repeated CMPS compares n elements exactly when all but the last agree (REPE) or differ (REPNE), and the last does
      not unless the count is used up; without a prefix it compares one. */
  lemma CmpsStops(m: seq<u8>, size: nat, down: bool, esi: u32, edi: u32, rep: Rep, count: u32, n: nat)
    requires |m| == WINDOW_SIZE && IsSize(size) && RunInRam(esi, size, down, n) && RunInRam(edi, size, down, n)
    ensures Scan(m, size, down, Source(esi), edi).Compares(rep, count, n) <==>
      if rep.Once? then n == 1
      else
        && n <= count && (n == 0 ==> count == 0)
        && forall k: nat :: k < n && (k < n - 1 || n < count) ==>
             (PairAgrees(m, size, down, esi, edi, n, k) <==> (rep.RepE? <==> k < n - 1))
  {
    hide Place, Scan.Equal, PairAgrees;
    var s := Scan(m, size, down, Source(esi), edi);
    forall k: nat | k < n ensures PairAgrees(m, size, down, esi, edi, n, k) <==> s.Equal(k) {
      PairOf(m, size, down, esi, edi, n, k);
    }
    if !rep.Once? { StopsWhere(s, rep, count, n); }
  }

  lemma StopsWhere(s: Scan, rep: Rep, count: u32, n: nat)
    requires s.Valid() && !rep.Once?
    ensures s.Compares(rep, count, n) <==>
      && n <= count && (n == 0 ==> count == 0)
      && forall k: nat :: k < n && (k < n - 1 || n < count) ==> (s.Equal(k) <==> (rep.RepE? <==> k < n - 1))
  {
    hide Scan.Equal;
    forall k: nat | k < n ensures s.Halts(rep, k) <==> (s.Equal(k) <==> rep.RepNE?) {
    }
    if n <= count && (n == 0 ==> count == 0)
       && forall k: nat :: k < n && (k < n - 1 || n < count) ==> (s.Equal(k) <==> (rep.RepE? <==> k < n - 1)) {
      forall k | 0 <= k < n - 1 ensures !s.Halts(rep, k) {
      }
      if n < count { assert s.Halts(rep, n - 1); }
    }
    if s.Compares(rep, count, n) {
      forall k: nat | k < n && (k < n - 1 || n < count) ensures s.Equal(k) <==> (rep.RepE? <==> k < n - 1) {
        assert s.Halts(rep, k) <==> k == n - 1;
      }
    }
  }

  /** Its flags are those of the last element at ESI less the last element at EDI. */
  lemma CmpsFlags(m: seq<u8>, size: nat, down: bool, esi: u32, edi: u32, n: nat, eflags: bv32)
    requires |m| == WINDOW_SIZE && IsSize(size) && RunInRam(esi, size, down, n) && RunInRam(edi, size, down, n) && n > 0
    ensures var f, a, b := Scan(m, size, down, Source(esi), edi).Flags(eflags, n), Place(esi, size, down, n - 1), Place(edi, size, down, n - 1);
      Tells(f, Value(m, a, size), Value(m, b, size), size) && f & !ARITH_FLAGS == eflags & !ARITH_FLAGS
  {
    hide Place, Value, Trunc, Tells, Scan.Flags, Scan.Left, Scan.Right, Scan.Equal;
    PairOf(m, size, down, esi, edi, n, n - 1);
    LastPair(Scan(m, size, down, Source(esi), edi), eflags, n);
  }

  // ---- SCAS ----

  lemma ElementOf(m: seq<u8>, size: nat, down: bool, eax: u32, edi: u32, n: nat, k: nat)
    requires |m| == WINDOW_SIZE && IsSize(size) && RunInRam(edi, size, down, n) && k < n
    ensures var s, b := Scan(m, size, down, Accumulator(eax), edi), Place(edi, size, down, k);
      && (s.Equal(k) <==> ElementIs(m, b, size, eax))
      && Trunc(s.Left(k), size) == eax % Span(size) && Trunc(s.Right(k), size) == Value(m, b, size)
  {
    hide Place, At, GuestRead, Value, ElementIs;
    TruncTwice(eax, size);
    hide Trunc, Span;
    PlaceOf(edi, size, down, k, n);
    ReadIsValue(m, Place(edi, size, down, k), size);
    LowBytes(m, Place(edi, size, down, k), size, eax);
  }

  lemma TruncTwice(v: u32, size: nat)
    requires IsSize(size)
    ensures Trunc(v, size) == v % Span(size) == Trunc(Trunc(v, size), size)
  {
  }

  /** The same for SCAS, with the low bytes of EAX in place of the elements at ESI. */
  lemma ScasStops(m: seq<u8>, size: nat, down: bool, eax: u32, edi: u32, rep: Rep, count: u32, n: nat)
    requires |m| == WINDOW_SIZE && IsSize(size) && RunInRam(edi, size, down, n)
    ensures Scan(m, size, down, Accumulator(eax), edi).Compares(rep, count, n) <==>
      if rep.Once? then n == 1
      else
        && n <= count && (n == 0 ==> count == 0)
        && forall k: nat :: k < n && (k < n - 1 || n < count) ==>
             (ElementIs(m, Place(edi, size, down, k), size, eax) <==> (rep.RepE? <==> k < n - 1))
  {
    hide Place, Scan.Equal, ElementIs;
    var s := Scan(m, size, down, Accumulator(eax), edi);
    forall k: nat | k < n ensures ElementIs(m, Place(edi, size, down, k), size, eax) <==> s.Equal(k) {
      ElementOf(m, size, down, eax, edi, n, k);
    }
    if !rep.Once? { StopsWhere(s, rep, count, n); }
  }

  /** The direction a string instruction takes is bit 10 of EFLAGS. */
  lemma DirectionFlag(eflags: bv32)
    ensures eflags & DIRECTION != 0 <==> (eflags >> 10) & 1 == 1
  {
  }

  /** Its flags are those of the low bytes of EAX less the last element at EDI. */
  lemma ScasFlags(m: seq<u8>, size: nat, down: bool, eax: u32, edi: u32, n: nat, eflags: bv32)
    requires |m| == WINDOW_SIZE && IsSize(size) && RunInRam(edi, size, down, n) && n > 0
    ensures var f, b := Scan(m, size, down, Accumulator(eax), edi).Flags(eflags, n), Place(edi, size, down, n - 1);
      Tells(f, eax % Span(size), Value(m, b, size), size) && f & !ARITH_FLAGS == eflags & !ARITH_FLAGS
  {
    hide Place, Value, Trunc, Tells, Scan.Flags, Scan.Left, Scan.Right, Scan.Equal, Span;
    ElementOf(m, size, down, eax, edi, n, n - 1);
    LastPair(Scan(m, size, down, Accumulator(eax), edi), eflags, n);
  }
}
