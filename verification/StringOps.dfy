/** The x86 string instructions: scans, block moves and fills, all element sizes, both directions. */
module StringOps {
  import opened Words
  import opened Eflags
  import opened Paging
  import opened HelperMemory
  import opened SubFlags

  datatype Rep = Once | RepE | RepNE

  const DIRECTION: bv32 := 0x400

  function Step(size: nat, down: bool): int { if down then 0 - size as int else size }

  /** The address of element k. */
  function At(start: u32, size: nat, down: bool, k: nat): u32 {
    Wrap(start + Step(size, down) * k)
  }

  lemma NextAt(start: u32, size: nat, down: bool, k: nat)
    requires IsSize(size)
    ensures At(start, size, down, 0) == start
    ensures Wrap(At(start, size, down, k) + Step(size, down)) == At(start, size, down, k + 1)
  {
    var s := Step(size, down);
    WrapSmall(start);
    assert s * (k + 1) == s * k + s;
    WrapAgain(start, s * k, s);
  }

  // ---- SCAS and CMPS ----

  datatype Operand = Accumulator(eax: u32) | Source(esi: u32)

  /** What a scan compares: element k of the left operand with element k at EDI. */
  datatype Scan = Scan(window: seq<u8>, size: nat, down: bool, left: Operand, edi: u32) {
    predicate Valid() { |window| == WINDOW_SIZE && IsSize(size) }

    function Left(k: nat): u32
      requires Valid()
    {
      match left
      case Accumulator(eax) => Trunc(eax, size)
      case Source(esi) => GuestRead(window, At(esi, size, down, k), size)
    }

    function Right(k: nat): u32
      requires Valid()
    {
      GuestRead(window, At(edi, size, down, k), size)
    }

    predicate Equal(k: nat)
      requires Valid()
    {
      Trunc(Left(k), size) == Trunc(Right(k), size)
    }

    predicate Halts(rep: Rep, k: nat)
      requires Valid()
    {
      (rep.RepE? && !Equal(k)) || (rep.RepNE? && Equal(k))
    }

    /** Exactly `n` elements are compared: up to and with the first one that halts, or all. */
    predicate Compares(rep: Rep, count: u32, n: nat)
      requires Valid()
    {
      if rep.Once? then n == 1
      else
        && n <= count
        && (forall k :: 0 <= k < n - 1 ==> !Halts(rep, k))
        && (n < count ==> n > 0 && Halts(rep, n - 1))
    }

    /** The flags of the last comparison; without one they stay. */
    function Flags(eflags: bv32, n: nat): bv32
      requires Valid()
    {
      if n == 0 then eflags else WithArith(eflags, Compute(Left(n - 1), Right(n - 1), size))
    }
  }

  /** New arithmetic flags in an otherwise unchanged EFLAGS. */
  function WithArith(eflags: bv32, arith: bv32): bv32 { (eflags & !ARITH_FLAGS) | arith }

  lemma MergedBits(eflags: bv32, arith: bv32)
    requires !Has(arith, !ARITH_FLAGS)
    ensures var r := WithArith(eflags, arith);
      && Has(r, CF) == Has(arith, CF) && Has(r, PF) == Has(arith, PF) && Has(r, AF) == Has(arith, AF)
      && Has(r, ZF) == Has(arith, ZF) && Has(r, SF) == Has(arith, SF) && Has(r, OF) == Has(arith, OF)
      && r & !ARITH_FLAGS == eflags & !ARITH_FLAGS
  {
  }

  /** ZF after at least one comparison. */
  lemma ZeroFlag(s: Scan, eflags: bv32, n: nat)
    requires s.Valid() && n > 0
    ensures Has(s.Flags(eflags, n), ZF) <==> s.Equal(n - 1)
  {
    hide Compute, WithArith, Trunc, Scan.Left, Scan.Right, Has, Ones, Signed, LowByte, Fits, Span;
    Meaning(s.Left(n - 1), s.Right(n - 1), s.size);
    MergedBits(eflags, Compute(s.Left(n - 1), s.Right(n - 1), s.size));
  }

  /** The flags a scan leaves are those of the last pair, and everything outside the arithmetic flags is kept. */
  lemma LastPair(s: Scan, eflags: bv32, n: nat)
    requires s.Valid() && n > 0
    ensures Tells(s.Flags(eflags, n), Trunc(s.Left(n - 1), s.size), Trunc(s.Right(n - 1), s.size), s.size)
    ensures s.Flags(eflags, n) & !ARITH_FLAGS == eflags & !ARITH_FLAGS
  {
    hide Compute, WithArith, Trunc, Scan.Left, Scan.Right, Has, Ones, Signed, LowByte, Fits;
    var l, r := s.Left(n - 1), s.Right(n - 1);
    Meaning(l, r, s.size);
    MergedBits(eflags, Compute(l, r, s.size));
  }

  /** How far a scan gets is determined. */
  lemma ComparesOnce(s: Scan, rep: Rep, count: u32, n1: nat, n2: nat)
    requires s.Valid() && s.Compares(rep, count, n1) && s.Compares(rep, count, n2)
    ensures n1 == n2
  {
    hide Scan.Halts;
    if !rep.Once? {
      if n1 < count { assert s.Halts(rep, n1 - 1); }
      if n2 < count { assert s.Halts(rep, n2 - 1); }
    }
  }

  /** REPNE finds the first match: ZF says whether there is one, and the count how far away it is. */
  lemma RepneFinds(s: Scan, count: u32, n: nat, eflags: bv32)
    requires s.Valid() && s.Compares(RepNE, count, n) && count > 0
    ensures Has(s.Flags(eflags, n), ZF) <==> exists k :: 0 <= k < count && s.Equal(k)
    ensures Has(s.Flags(eflags, n), ZF) ==> s.Equal(n - 1) && forall k :: 0 <= k < n - 1 ==> !s.Equal(k)
    ensures !Has(s.Flags(eflags, n), ZF) ==> n == count
  {
    hide Scan.Equal, Scan.Flags, Has;
    ZeroFlag(s, eflags, n);
    forall k | 0 <= k < n - 1 ensures !s.Equal(k) {
      assert !s.Halts(RepNE, k);
    }
  }

  /** REPE finds the first difference: ZF stays set exactly when the whole stretch agrees. */
  lemma RepeDiffers(s: Scan, count: u32, n: nat, eflags: bv32)
    requires s.Valid() && s.Compares(RepE, count, n) && count > 0
    ensures Has(s.Flags(eflags, n), ZF) <==> forall k :: 0 <= k < count ==> s.Equal(k)
    ensures !Has(s.Flags(eflags, n), ZF) ==> !s.Equal(n - 1) && forall k :: 0 <= k < n - 1 ==> s.Equal(k)
    ensures Has(s.Flags(eflags, n), ZF) ==> n == count
  {
    hide Scan.Equal, Scan.Flags, Has;
    ZeroFlag(s, eflags, n);
    forall k | 0 <= k < n - 1 ensures s.Equal(k) {
      assert !s.Halts(RepE, k);
    }
  }

  /** The usual string length: REPNE SCASB for zero with ECX all ones leaves NOT ECX - 1 == length. */
  lemma StringLength(s: Scan, n: nat, length: nat)
    requires s.Valid() && s.size == 1 && s.left == Accumulator(0) && length < 0xFFFF_FFFF
    requires s.Right(length) == 0 && forall k :: 0 <= k < length ==> 0 < s.Right(k) < 0x100
    requires s.Compares(RepNE, 0xFFFF_FFFF, n)
    ensures Wrap(0xFFFF_FFFF - (0xFFFF_FFFF - n)) - 1 == length
  {
    hide GuestRead, At;
    assert s.Equal(length);
    forall k | 0 <= k < length ensures !s.Equal(k) {
      assert 0 < s.Right(k) < 0x100;
    }
    assert s.Halts(RepNE, length + 1 - 1);
    ComparesOnce(s, RepNE, 0xFFFF_FFFF, n, length + 1);
    WrapSmall(n);
  }

  // ---- MOVS and STOS ----

  /** Element by element, each read before it is written. */
  function Moved(m: seq<u8>, esi: u32, edi: u32, size: nat, down: bool, n: nat): (r: seq<u8>)
    requires |m| == WINDOW_SIZE && IsSize(size)
    ensures |r| == WINDOW_SIZE
  {
    if n == 0 then m
    else
      var p := Moved(m, esi, edi, size, down, n - 1);
      GuestWrite(p, At(edi, size, down, n - 1), GuestRead(p, At(esi, size, down, n - 1), size), size)
  }

  function Filled(m: seq<u8>, edi: u32, v: u32, size: nat, down: bool, n: nat): (r: seq<u8>)
    requires |m| == WINDOW_SIZE && IsSize(size)
    ensures |r| == WINDOW_SIZE
  {
    if n == 0 then m
    else GuestWrite(Filled(m, edi, v, size, down, n - 1), At(edi, size, down, n - 1), v, size)
  }

  /** `r` is `m` with the bytes at `src` copied to `dst`. */
  predicate BlockCopied(m: seq<u8>, r: seq<u8>, src: nat, dst: nat, len: nat) {
    && |r| == |m| && src + len <= |m|
    && forall a {:trigger r[a]} :: 0 <= a < |m| ==> r[a] == (if dst <= a < dst + len then m[src + (a - dst)] else m[a])
  }

  /** `r` differs from `m` at most at `dst`, where every byte equals the one at its source, as that ends up. */
  predicate Repeated(m: seq<u8>, r: seq<u8>, src: nat, dst: nat, len: nat) {
    && |r| == |m| && src + len <= |m|
    && forall a {:trigger r[a]} :: 0 <= a < |m| ==> r[a] == (if dst <= a < dst + len then r[src + (a - dst)] else m[a])
  }

  lemma CopyUp(m: seq<u8>, p: seq<u8>, r: seq<u8>, src: nat, dst: nat, len: nat, size: nat)
    requires BlockCopied(m, p, src, dst, len) && BlockCopied(p, r, src + len, dst + len, size) && dst <= src
    ensures BlockCopied(m, r, src, dst, len + size)
  {
    forall a | 0 <= a < |m| ensures r[a] == (if dst <= a < dst + len + size then m[src + (a - dst)] else m[a]) {
      if dst + len <= a < dst + len + size {
        var s := src + (a - dst);
        assert (src + len) + (a - (dst + len)) == s && p[s] == m[s];
      }
    }
  }

  lemma CopyDown(m: seq<u8>, p: seq<u8>, r: seq<u8>, src: nat, dst: nat, len: nat, size: nat)
    requires BlockCopied(m, p, src + size, dst + size, len) && BlockCopied(p, r, src, dst, size)
    requires src <= dst || dst + size + len <= src
    ensures BlockCopied(m, r, src, dst, len + size)
  {
    forall a | 0 <= a < |m| ensures r[a] == (if dst <= a < dst + len + size then m[src + (a - dst)] else m[a]) {
      var s := src + (a - dst);
      if dst <= a < dst + size {
        assert p[s] == m[s];
      } else if a < dst + len + size {
        assert (src + size) + (a - (dst + size)) == s;
      }
    }
  }

  lemma RepeatUp(m: seq<u8>, p: seq<u8>, r: seq<u8>, src: nat, dst: nat, len: nat, size: nat)
    requires Repeated(m, p, src, dst, len) && BlockCopied(p, r, src + len, dst + len, size) && src + size <= dst
    ensures Repeated(m, r, src, dst, len + size)
  {
    forall a | 0 <= a < |m| ensures r[a] == (if dst <= a < dst + len + size then r[src + (a - dst)] else m[a]) {
      if dst <= a < dst + len + size {
        var s := src + (a - dst);
        assert r[s] == p[s];
        assert (src + len) + (a - (dst + len)) == s;
      }
    }
  }

  lemma RepeatDown(m: seq<u8>, p: seq<u8>, r: seq<u8>, src: nat, dst: nat, len: nat, size: nat)
    requires Repeated(m, p, src + size, dst + size, len) && BlockCopied(p, r, src, dst, size) && dst + size <= src
    ensures Repeated(m, r, src, dst, len + size)
  {
    forall a | 0 <= a < |m| ensures r[a] == (if dst <= a < dst + len + size then r[src + (a - dst)] else m[a]) {
      if dst <= a < dst + len + size {
        var s := src + (a - dst);
        assert r[s] == p[s];
        assert (src + size) + (a - (dst + size)) == s;
      }
    }
  }

  /** The length of k elements. */
  function Bytes(size: nat, k: nat): nat {
    Nonnegative(size, k);
    size * k
  }

  lemma Nonnegative(x: nat, y: nat)
    ensures x * y >= 0
  {
  }

  /** A run of elements inside RAM. */
  predicate FitsRam(low: nat, size: nat, n: nat) { low + Bytes(size, n) <= RAM_SIZE }

  lemma Products(size: nat, j: nat, n: nat)
    requires j < n
    ensures Bytes(size, j + 1) == Bytes(size, j) + size && Bytes(size, j) + size <= Bytes(size, n)
    ensures Bytes(size, 0) == 0
  {
    var rest := n - j - 1;
    assert n == j + 1 + rest && size * n == size * j + size + size * rest;
    Nonnegative(size, rest);
  }

  lemma UpAt(low: u32, size: nat, k: nat, n: nat)
    requires IsSize(size) && FitsRam(low, size, n) && k < n
    ensures At(low, size, false, k) == low + Bytes(size, k) && low + Bytes(size, k) + size <= RAM_SIZE
  {
    Products(size, k, n);
    WrapSmall(low + Bytes(size, k));
  }

  /** Element k of a backward run is element n - 1 - k of the forward one. */
  lemma DownAt(low: u32, size: nat, k: nat, n: nat)
    requires IsSize(size) && FitsRam(low, size, n) && k < n
    ensures low + Bytes(size, n - 1) < RAM_SIZE
    ensures At(low + Bytes(size, n - 1), size, true, k) == low + Bytes(size, n - 1 - k)
    ensures low + Bytes(size, n - 1 - k) + size <= RAM_SIZE
  {
    Products(size, n - 1, n);
    Products(size, n - 1 - k, n);
    assert Step(size, true) * k == -(size * k);
    assert size * (n - 1 - k) + size * k == size * (n - 1);
    WrapSmall(low + Bytes(size, n - 1 - k));
  }

  lemma DownStep(low: u32, size: nat, n: nat, k: nat)
    requires IsSize(size) && FitsRam(low, size, n) && 0 < k <= n
    ensures low + Bytes(size, n - 1) < RAM_SIZE && low + Bytes(size, n - k) + size <= RAM_SIZE
    ensures At(low + Bytes(size, n - 1), size, true, k - 1) == low + Bytes(size, n - k)
    ensures Bytes(size, n - (k - 1)) == Bytes(size, n - k) + size && Bytes(size, k) == Bytes(size, k - 1) + size
    ensures Bytes(size, n - k) + Bytes(size, k) == Bytes(size, n)
  {
    assert n - (k - 1) == n - k + 1 && n - 1 - (k - 1) == n - k;
    DownAt(low, size, k - 1, n);
    Products(size, n - k, n);
    Products(size, k - 1, n);
    assert size * (n - k) + size * k == size * n;
  }

  /** The place of byte x of a range inside its element. */
  function Phase(x: nat, size: nat): nat
    requires size > 0
  {
    x % size
  }

  /** Byte a of a forward move at a distance below one element: the first element is copied as it was; of every later
      one the bytes that the element before it has just overwritten arrive as that left them, the others as they were. */
  predicate ByteShearedUp(m: seq<u8>, r: seq<u8>, src: nat, dst: nat, size: nat, len: nat, a: nat)
    requires size > 0 && |r| == |m| && src + len <= |m| && a < |m|
  {
    r[a] == if !(dst <= a < dst + len) then m[a]
            else if a - dst >= size && Phase(a - dst, size) < dst - src then r[src + (a - dst)]
            else m[src + (a - dst)]
  }

  predicate ShearedUp(m: seq<u8>, r: seq<u8>, src: nat, dst: nat, size: nat, len: nat)
    requires size > 0
  {
    |r| == |m| && src + len <= |m| && forall a: nat :: a < |m| ==> ByteShearedUp(m, r, src, dst, size, len, a)
  }

  /** The mirror image, from the high end. */
  predicate ByteShearedDown(m: seq<u8>, r: seq<u8>, src: nat, dst: nat, size: nat, len: nat, a: nat)
    requires size > 0 && |r| == |m| && src + len <= |m| && a < |m|
  {
    r[a] == if !(dst <= a < dst + len) then m[a]
            else if a - dst < len - size && Phase(a - dst, size) >= size - (src - dst) then r[src + (a - dst)]
            else m[src + (a - dst)]
  }

  predicate ShearedDown(m: seq<u8>, r: seq<u8>, src: nat, dst: nat, size: nat, len: nat)
    requires size > 0
  {
    |r| == |m| && src + len <= |m| && forall a: nat :: a < |m| ==> ByteShearedDown(m, r, src, dst, size, len, a)
  }

  lemma ShearUp(m: seq<u8>, p: seq<u8>, r: seq<u8>, src: nat, dst: nat, size: nat, k: nat)
    requires size > 0 && src < dst < src + size
    requires ShearedUp(m, p, src, dst, size, Bytes(size, k)) && BlockCopied(p, r, src + Bytes(size, k), dst + Bytes(size, k), size)
    ensures ShearedUp(m, r, src, dst, size, Bytes(size, k) + size)
  {
    hide Phase, Bytes, BlockCopied;
    var len, len' := Bytes(size, k), Bytes(size, k) + size;
    CopiedSizes(p, r, src + len, dst + len, size);
    forall a: nat | a < |m| ensures ByteShearedUp(m, r, src, dst, size, len', a) {
      CopiedAt(p, r, src + len, dst + len, size, a);
      assert ByteShearedUp(m, p, src, dst, size, len, a);
      if dst <= a < dst + len' {
        var s := src + (a - dst);
        PhaseIsSmall(a - dst, size);
        CopiedAt(p, r, src + len, dst + len, size, s);
        assert ByteShearedUp(m, p, src, dst, size, len, s);
        if a >= dst + len { PhaseAt(k, size, a - (dst + len)); }
      }
    }
  }

  lemma ShearDown(m: seq<u8>, p: seq<u8>, r: seq<u8>, src: nat, dst: nat, size: nat, k: nat)
    requires size > 0 && dst < src < dst + size
    requires ShearedDown(m, p, src + size, dst + size, size, Bytes(size, k)) && BlockCopied(p, r, src, dst, size)
    ensures ShearedDown(m, r, src, dst, size, Bytes(size, k) + size)
  {
    hide Phase, Bytes, BlockCopied;
    var len, len' := Bytes(size, k), Bytes(size, k) + size;
    CopiedSizes(p, r, src, dst, size);
    PhaseAt(k, size, 0);
    forall a: nat | a < |m| ensures ByteShearedDown(m, r, src, dst, size, len', a) {
      CopiedAt(p, r, src, dst, size, a);
      assert ByteShearedDown(m, p, src + size, dst + size, size, len, a);
      if dst <= a < dst + len' {
        var s := src + (a - dst);
        CopiedAt(p, r, src, dst, size, s);
        assert ByteShearedDown(m, p, src + size, dst + size, size, len, s);
        if a < dst + size { PhaseAt(0, size, a - dst); } else { NextPhase(a - (dst + size), size); }
      }
    }
  }

  lemma CopiedSizes(m: seq<u8>, r: seq<u8>, src: nat, dst: nat, len: nat)
    requires BlockCopied(m, r, src, dst, len)
    ensures |r| == |m| && src + len <= |m|
  {
  }

  lemma CopiedAt(m: seq<u8>, r: seq<u8>, src: nat, dst: nat, len: nat, a: nat)
    requires BlockCopied(m, r, src, dst, len) && a < |m|
    ensures |r| == |m| && src + len <= |m|
    ensures r[a] == if dst <= a < dst + len then m[src + (a - dst)] else m[a]
  {
  }

  lemma PhaseAt(k: nat, size: nat, j: nat)
    requires j < size
    ensures Phase(Bytes(size, k) + j, size) == j && (k > 0 ==> Bytes(size, k) >= size) && Bytes(size, 0) == 0
  {
    if k > 0 { Products(size, 0, k); }
    Unique(Bytes(size, k) + j, size, k, j);
  }

  lemma NextPhase(x: nat, size: nat)
    requires size > 0
    ensures Phase(x + size, size) == Phase(x, size)
  {
    assert size * (x / size + 1) == size * (x / size) + size;
    Unique(x + size, size, x / size + 1, x % size);
  }

  lemma PhaseIsSmall(x: nat, size: nat)
    requires size > 0
    ensures Phase(x, size) < size
  {
  }

  /** One element moved inside RAM. */
  lemma ElementMoved(p: seq<u8>, src: u32, dst: u32, size: nat)
    requires |p| == WINDOW_SIZE && IsSize(size) && src + size <= RAM_SIZE && dst + size <= RAM_SIZE
    ensures BlockCopied(p, GuestWrite(p, dst, GuestRead(p, src, size), size), src, dst, size)
  {
    hide Load, ByteOf;
    var r := GuestWrite(p, dst, GuestRead(p, src, size), size);
    forall a | 0 <= a < |p| ensures r[a] == (if dst <= a < dst + size then p[src + (a - dst)] else p[a]) {
      if dst <= a < dst + size {
        LoadedByte(p, src, size, a - dst);
      }
    }
  }

  /** A forward move to a destination at or below the source is a block copy, overlap or not. */
  lemma {:induction false} ForwardCopies(m: seq<u8>, esi: u32, edi: u32, size: nat, n: nat)
    requires |m| == WINDOW_SIZE && IsSize(size) && FitsRam(esi, size, n) && FitsRam(edi, size, n) && edi <= esi
    ensures BlockCopied(m, Moved(m, esi, edi, size, false, n), esi, edi, Bytes(size, n))
  {
    hide GuestWrite, GuestRead, At, Bytes, BlockCopied;
    if n == 0 {
      Products(size, 0, 1);
      NothingCopied(m, esi, edi);
    } else {
      Products(size, n - 1, n);
      ForwardCopies(m, esi, edi, size, n - 1);
      UpAt(esi, size, n - 1, n);
      UpAt(edi, size, n - 1, n);
      var p := Moved(m, esi, edi, size, false, n - 1);
      ElementMoved(p, esi + Bytes(size, n - 1), edi + Bytes(size, n - 1), size);
      CopyUp(m, p, Moved(m, esi, edi, size, false, n), esi, edi, Bytes(size, n - 1), size);
    }
  }

  lemma NothingCopied(m: seq<u8>, src: nat, dst: nat)
    requires src <= |m|
    ensures BlockCopied(m, m, src, dst, 0) && Repeated(m, m, src, dst, 0)
  {
  }

  /** A forward move to a destination at least one element above the source repeats the gap between them. */
  lemma {:induction false} ForwardRepeats(m: seq<u8>, esi: u32, edi: u32, size: nat, n: nat)
    requires |m| == WINDOW_SIZE && IsSize(size) && FitsRam(esi, size, n) && FitsRam(edi, size, n) && esi + size <= edi
    ensures Repeated(m, Moved(m, esi, edi, size, false, n), esi, edi, Bytes(size, n))
  {
    hide GuestWrite, GuestRead, At, Bytes, BlockCopied, Repeated;
    if n == 0 {
      Products(size, 0, 1);
      NothingCopied(m, esi, edi);
    } else {
      Products(size, n - 1, n);
      ForwardRepeats(m, esi, edi, size, n - 1);
      UpAt(esi, size, n - 1, n);
      UpAt(edi, size, n - 1, n);
      var p := Moved(m, esi, edi, size, false, n - 1);
      ElementMoved(p, esi + Bytes(size, n - 1), edi + Bytes(size, n - 1), size);
      RepeatUp(m, p, Moved(m, esi, edi, size, false, n), esi, edi, Bytes(size, n - 1), size);
    }
  }

  /** A forward move to a destination less than one element above the source. */
  lemma {:induction false} ForwardShears(m: seq<u8>, esi: u32, edi: u32, size: nat, n: nat)
    requires |m| == WINDOW_SIZE && IsSize(size) && FitsRam(esi, size, n) && FitsRam(edi, size, n) && esi < edi < esi + size
    ensures ShearedUp(m, Moved(m, esi, edi, size, false, n), esi, edi, size, Bytes(size, n))
  {
    hide GuestWrite, GuestRead, At, Bytes, BlockCopied, ShearedUp;
    if n == 0 {
      Products(size, 0, 1);
      NothingSheared(m, esi, edi, size);
    } else {
      Products(size, n - 1, n);
      ForwardShears(m, esi, edi, size, n - 1);
      UpAt(esi, size, n - 1, n);
      UpAt(edi, size, n - 1, n);
      var p := Moved(m, esi, edi, size, false, n - 1);
      ElementMoved(p, esi + Bytes(size, n - 1), edi + Bytes(size, n - 1), size);
      ShearUp(m, p, Moved(m, esi, edi, size, false, n), esi, edi, size, n - 1);
    }
  }

  lemma NothingSheared(m: seq<u8>, src: nat, dst: nat, size: nat)
    requires src <= |m| && size > 0
    ensures ShearedUp(m, m, src, dst, size, 0) && ShearedDown(m, m, src, dst, size, 0)
  {
  }

  /** The first k of n elements of a backward move, from the high end, where it is a block copy. */
  lemma {:induction false} BackwardCopies(m: seq<u8>, src: u32, dst: u32, size: nat, n: nat, k: nat)
    requires |m| == WINDOW_SIZE && IsSize(size) && 0 < n && k <= n && FitsRam(src, size, n) && FitsRam(dst, size, n)
    requires src <= dst || dst + Bytes(size, n) <= src
    ensures src + Bytes(size, n - 1) < RAM_SIZE && dst + Bytes(size, n - 1) < RAM_SIZE
    ensures BlockCopied(m, Moved(m, src + Bytes(size, n - 1), dst + Bytes(size, n - 1), size, true, k),
                        src + Bytes(size, n - k), dst + Bytes(size, n - k), Bytes(size, k))
  {
    hide GuestWrite, GuestRead, At, Bytes, BlockCopied, Repeated;
    DownAt(src, size, 0, n);
    DownAt(dst, size, 0, n);
    if k == 0 {
      Products(size, 0, n);
      NothingCopied(m, src + Bytes(size, n), dst + Bytes(size, n));
    } else {
      BackwardCopies(m, src, dst, size, n, k - 1);
      DownStep(src, size, n, k);
      DownStep(dst, size, n, k);
      var hs, hd := src + Bytes(size, n - 1), dst + Bytes(size, n - 1);
      var p := Moved(m, hs, hd, size, true, k - 1);
      ElementMoved(p, src + Bytes(size, n - k), dst + Bytes(size, n - k), size);
      CopyDown(m, p, Moved(m, hs, hd, size, true, k), src + Bytes(size, n - k), dst + Bytes(size, n - k), Bytes(size, k - 1), size);
    }
  }

  /** The first k of n elements of a backward move to a destination at least one element below the source: the mirror
      image of a forward repeat. */
  lemma {:induction false} BackwardRepeats(m: seq<u8>, src: u32, dst: u32, size: nat, n: nat, k: nat)
    requires |m| == WINDOW_SIZE && IsSize(size) && 0 < n && k <= n && FitsRam(src, size, n) && FitsRam(dst, size, n)
    requires dst + size <= src
    ensures src + Bytes(size, n - 1) < RAM_SIZE && dst + Bytes(size, n - 1) < RAM_SIZE
    ensures Repeated(m, Moved(m, src + Bytes(size, n - 1), dst + Bytes(size, n - 1), size, true, k),
                     src + Bytes(size, n - k), dst + Bytes(size, n - k), Bytes(size, k))
  {
    hide GuestWrite, GuestRead, At, Bytes, BlockCopied, Repeated;
    DownAt(src, size, 0, n);
    DownAt(dst, size, 0, n);
    if k == 0 {
      Products(size, 0, n);
      NothingCopied(m, src + Bytes(size, n), dst + Bytes(size, n));
    } else {
      BackwardRepeats(m, src, dst, size, n, k - 1);
      DownStep(src, size, n, k);
      DownStep(dst, size, n, k);
      var hs, hd := src + Bytes(size, n - 1), dst + Bytes(size, n - 1);
      var p := Moved(m, hs, hd, size, true, k - 1);
      ElementMoved(p, src + Bytes(size, n - k), dst + Bytes(size, n - k), size);
      RepeatDown(m, p, Moved(m, hs, hd, size, true, k), src + Bytes(size, n - k), dst + Bytes(size, n - k), Bytes(size, k - 1), size);
    }
  }

  /** The first k of n elements of a backward move to a destination less than one element below the source. */
  lemma {:induction false} BackwardShears(m: seq<u8>, src: u32, dst: u32, size: nat, n: nat, k: nat)
    requires |m| == WINDOW_SIZE && IsSize(size) && 0 < n && k <= n && FitsRam(src, size, n) && FitsRam(dst, size, n)
    requires dst < src < dst + size
    ensures src + Bytes(size, n - 1) < RAM_SIZE && dst + Bytes(size, n - 1) < RAM_SIZE
    ensures ShearedDown(m, Moved(m, src + Bytes(size, n - 1), dst + Bytes(size, n - 1), size, true, k),
                        src + Bytes(size, n - k), dst + Bytes(size, n - k), size, Bytes(size, k))
  {
    hide GuestWrite, GuestRead, At, Bytes, BlockCopied, ShearedDown;
    DownAt(src, size, 0, n);
    DownAt(dst, size, 0, n);
    if k == 0 {
      Products(size, 0, n);
      NothingSheared(m, src + Bytes(size, n), dst + Bytes(size, n), size);
    } else {
      BackwardShears(m, src, dst, size, n, k - 1);
      DownStep(src, size, n, k);
      DownStep(dst, size, n, k);
      var hs, hd := src + Bytes(size, n - 1), dst + Bytes(size, n - 1);
      var p := Moved(m, hs, hd, size, true, k - 1);
      ElementMoved(p, src + Bytes(size, n - k), dst + Bytes(size, n - k), size);
      ShearDown(m, p, Moved(m, hs, hd, size, true, k), src + Bytes(size, n - k), dst + Bytes(size, n - k), size, k - 1);
    }
  }

  /** In either direction a REP MOVS between disjoint ranges is a block copy and changes nothing else. */
  lemma DisjointMove(m: seq<u8>, src: u32, dst: u32, size: nat, n: nat, down: bool)
    requires |m| == WINDOW_SIZE && IsSize(size) && 0 < n && FitsRam(src, size, n) && FitsRam(dst, size, n)
    requires src + Bytes(size, n) <= dst || dst + Bytes(size, n) <= src
    ensures src + Bytes(size, n - 1) < RAM_SIZE && dst + Bytes(size, n - 1) < RAM_SIZE
    ensures
      var first := if down then Bytes(size, n - 1) else 0;
      BlockCopied(m, Moved(m, src + first, dst + first, size, down, n), src, dst, Bytes(size, n))
  {
    hide Moved, BlockCopied;
    Products(size, n - 1, n);
    if down {
      BackwardCopies(m, src, dst, size, n, n);
      assert n - n == 0;
    } else if dst <= src {
      ForwardCopies(m, src, dst, size, n);
    } else {
      ForwardRepeats(m, src, dst, size, n);
      RepeatsApart(m, Moved(m, src, dst, size, false, n), src, dst, Bytes(size, n));
    }
  }

  lemma RepeatsApart(m: seq<u8>, r: seq<u8>, src: nat, dst: nat, len: nat)
    requires Repeated(m, r, src, dst, len) && src + len <= dst
    ensures BlockCopied(m, r, src, dst, len)
  {
    forall a | 0 <= a < |m| ensures r[a] == (if dst <= a < dst + len then m[src + (a - dst)] else m[a]) {
      if dst <= a < dst + len {
        var s := src + (a - dst);
        assert r[s] == m[s];
      }
    }
  }

  /** A forward REP STOS repeats the low bytes of EAX over the whole range and changes nothing else. */
  lemma {:induction false} FillsForward(m: seq<u8>, edi: u32, v: u32, size: nat, n: nat)
    requires |m| == WINDOW_SIZE && IsSize(size) && FitsRam(edi, size, n)
    ensures FilledWith(m, Filled(m, edi, v, size, false, n), edi, v, size, 0, Bytes(size, n))
  {
    hide At, ByteOf, Filled, Bytes, Phase, Store;
    FilledUnfolds(m, edi, v, size, false, n);
    Products(size, 0, 1);
    if n > 0 {
      Products(size, n - 1, n);
      FillsForward(m, edi, v, size, n - 1);
      UpAt(edi, size, n - 1, n);
      FillMore(m, Filled(m, edi, v, size, false, n - 1), edi, v, size, n - 1, 0, Bytes(size, n - 1));
    }
  }

  /** The first k of n elements of a backward fill, from the high end: the same bytes as a forward fill leaves there. */
  lemma {:induction false} FillsBackward(m: seq<u8>, low: u32, v: u32, size: nat, n: nat, k: nat)
    requires |m| == WINDOW_SIZE && IsSize(size) && 0 < n && k <= n && FitsRam(low, size, n)
    ensures low + Bytes(size, n - 1) < RAM_SIZE
    ensures FilledWith(m, Filled(m, low + Bytes(size, n - 1), v, size, true, k), low, v, size, Bytes(size, n - k), Bytes(size, n))
  {
    hide At, ByteOf, Filled, Bytes, Phase, Store;
    DownAt(low, size, 0, n);
    var edi := low + Bytes(size, n - 1);
    FilledUnfolds(m, edi, v, size, true, k);
    if k > 0 {
      DownStep(low, size, n, k);
      FillsBackward(m, low, v, size, n, k - 1);
      FillMore(m, Filled(m, edi, v, size, true, k - 1), low, v, size, n - k, Bytes(size, n - (k - 1)), Bytes(size, n));
    }
  }

  /** `r` is `m` with bytes `from` to `to` of the range at `low` set to the low bytes of v, over and over. */
  predicate FilledWith(m: seq<u8>, r: seq<u8>, low: nat, v: u32, size: nat, from: nat, to: nat)
    requires IsSize(size)
  {
    |r| == |m| && forall a: nat :: a < |m| ==> ByteFilled(m, r, low, v, size, from, to, a)
  }

  predicate ByteFilled(m: seq<u8>, r: seq<u8>, low: nat, v: u32, size: nat, from: nat, to: nat, a: nat)
    requires IsSize(size) && a < |r| == |m|
  {
    r[a] == if low + from <= a < low + to then ByteOf(v, Phase(a - low, size)) else m[a]
  }

  /** One more element next to a filled stretch. */
  lemma FillMore(m: seq<u8>, p: seq<u8>, low: nat, v: u32, size: nat, k: nat, from: nat, to: nat)
    requires IsSize(size) && FilledWith(m, p, low, v, size, from, to) && from <= to
    requires from == Bytes(size, k) + size || to == Bytes(size, k)
    requires low + Bytes(size, k) + size <= |m|
    ensures FilledWith(m, Store(p, low + Bytes(size, k), v, size), low, v, size,
                       if to == Bytes(size, k) then from else Bytes(size, k), if to == Bytes(size, k) then to + size else to)
  {
    hide ByteOf, Bytes, Phase, Store;
    var at := Bytes(size, k);
    var r, from', to' := Store(p, low + at, v, size), if to == at then from else at, if to == at then to + size else to;
    forall a: nat | a < |m| ensures ByteFilled(m, r, low, v, size, from', to', a) {
      assert ByteFilled(m, p, low, v, size, from, to, a);
      if low + at <= a < low + at + size { PhaseAt(k, size, a - (low + at)); }
    }
  }

  lemma FilledUnfolds(m: seq<u8>, edi: u32, v: u32, size: nat, down: bool, n: nat)
    requires |m| == WINDOW_SIZE && IsSize(size)
    ensures Filled(m, edi, v, size, down, 0) == m
    ensures n > 0 ==> Filled(m, edi, v, size, down, n) ==
                      GuestWrite(Filled(m, edi, v, size, down, n - 1), At(edi, size, down, n - 1), v, size)
  {
  }

  // ---- The helpers ----

  class StringUnit {
    const window: array<u8>
    var eax: u32
    var ecx: u32
    var esi: u32
    var edi: u32

    constructor (window: array<u8>, eax: u32, ecx: u32, esi: u32, edi: u32)
      ensures this.window == window && this.eax == eax && this.ecx == ecx && this.esi == esi && this.edi == edi
    {
      this.window, this.eax, this.ecx, this.esi, this.edi := window, eax, ecx, esi, edi;
    }

    /** string_scas_helper. */
    method Scas(eflags: bv32, size: nat, rep: Rep) returns (rf: bv32, ghost n: nat)
      requires IsSize(size) && window.Length == WINDOW_SIZE
      modifies this`ecx, this`edi
      ensures
        var s := Scan(window[..], size, eflags & DIRECTION != 0, Accumulator(eax), old(edi));
        && s.Compares(rep, old(ecx), n)
        && rf == s.Flags(eflags, n)
        && edi == At(old(edi), size, s.down, n)
        && ecx == if rep.Once? then old(ecx) else old(ecx) - n
    {
      hide GuestRead, Trunc, Compute, WithArith, At, Wrap, Has;
      var down := eflags & DIRECTION != 0;
      ghost var s := Scan(window[..], size, down, Accumulator(eax), edi);
      rf, n := eflags, 0;
      NextAt(edi, size, down, 0);
      if rep.Once? {
        var d := LoadAt(window, edi, size);
        rf := WithArith(rf, Compute(Trunc(eax, size), d, size));
        edi, n := Wrap(edi + Step(size, down)), 1;
      } else {
        while ecx > 0
          invariant ecx == old(ecx) - n && edi == At(old(edi), size, down, n)
          invariant rf == s.Flags(eflags, n)
          invariant forall k :: 0 <= k < n ==> !s.Halts(rep, k)
        {
          var d := LoadAt(window, edi, size);
          MergeOver(s, eflags, n);
          rf := WithArith(rf, Compute(Trunc(eax, size), d, size));
          NextAt(old(edi), size, down, n);
          edi := Wrap(edi + Step(size, down));
          ecx, n := ecx - 1, n + 1;
          ZeroFlag(s, eflags, n);
          if rep.RepE? && !Has(rf, ZF) { break; }
          if rep.RepNE? && Has(rf, ZF) { break; }
        }
      }
    }

    /** string_cmps_helper. */
    method Cmps(eflags: bv32, size: nat, rep: Rep) returns (rf: bv32, ghost n: nat)
      requires IsSize(size) && window.Length == WINDOW_SIZE
      modifies this`ecx, this`esi, this`edi
      ensures
        var s := Scan(window[..], size, eflags & DIRECTION != 0, Source(old(esi)), old(edi));
        && s.Compares(rep, old(ecx), n)
        && rf == s.Flags(eflags, n)
        && esi == At(old(esi), size, s.down, n) && edi == At(old(edi), size, s.down, n)
        && ecx == if rep.Once? then old(ecx) else old(ecx) - n
    {
      hide GuestRead, Trunc, Compute, WithArith, At, Wrap, Has;
      var down := eflags & DIRECTION != 0;
      ghost var s := Scan(window[..], size, down, Source(esi), edi);
      rf, n := eflags, 0;
      NextAt(esi, size, down, 0);
      NextAt(edi, size, down, 0);
      if rep.Once? {
        var l := LoadAt(window, esi, size);
        var r := LoadAt(window, edi, size);
        rf := WithArith(rf, Compute(l, r, size));
        esi, edi, n := Wrap(esi + Step(size, down)), Wrap(edi + Step(size, down)), 1;
      } else {
        while ecx > 0
          invariant ecx == old(ecx) - n
          invariant esi == At(old(esi), size, down, n) && edi == At(old(edi), size, down, n)
          invariant rf == s.Flags(eflags, n)
          invariant forall k :: 0 <= k < n ==> !s.Halts(rep, k)
        {
          var l := LoadAt(window, esi, size);
          var r := LoadAt(window, edi, size);
          MergeOver(s, eflags, n);
          rf := WithArith(rf, Compute(l, r, size));
          NextAt(old(esi), size, down, n);
          NextAt(old(edi), size, down, n);
          esi, edi := Wrap(esi + Step(size, down)), Wrap(edi + Step(size, down));
          ecx, n := ecx - 1, n + 1;
          ZeroFlag(s, eflags, n);
          if rep.RepE? && !Has(rf, ZF) { break; }
          if rep.RepNE? && Has(rf, ZF) { break; }
        }
      }
    }

    /** string_movs_helper. */
    method Movs(eflags: bv32, size: nat, rep: Rep) returns (rf: bv32)
      requires IsSize(size) && window.Length == WINDOW_SIZE
      modifies this`ecx, this`esi, this`edi, window
      ensures
        var n, down := if rep.Once? then 1 else old(ecx), eflags & DIRECTION != 0;
        && rf == eflags
        && window[..] == Moved(old(window[..]), old(esi), old(edi), size, down, n)
        && esi == At(old(esi), size, down, n) && edi == At(old(edi), size, down, n)
        && ecx == if rep.Once? then old(ecx) else 0
    {
      hide GuestRead, GuestWrite, At, Wrap;
      var down := eflags & DIRECTION != 0;
      NextAt(esi, size, down, 0);
      NextAt(edi, size, down, 0);
      if rep.Once? {
        assert old(window[..]) == Moved(old(window[..]), esi, edi, size, down, 0);
        MoveOne(size, down);
      } else {
        ghost var n := 0;
        while ecx > 0
          invariant ecx == old(ecx) - n
          invariant esi == At(old(esi), size, down, n) && edi == At(old(edi), size, down, n)
          invariant window[..] == Moved(old(window[..]), old(esi), old(edi), size, down, n)
        {
          MoveOne(size, down);
          NextAt(old(esi), size, down, n);
          NextAt(old(edi), size, down, n);
          ecx, n := ecx - 1, n + 1;
        }
      }
      rf := eflags;
    }

    method MoveOne(size: nat, down: bool)
      requires IsSize(size) && window.Length == WINDOW_SIZE
      modifies this`esi, this`edi, window
      ensures esi == Wrap(old(esi) + Step(size, down)) && edi == Wrap(old(edi) + Step(size, down))
      ensures window[..] == GuestWrite(old(window[..]), old(edi), GuestRead(old(window[..]), old(esi), size), size)
    {
      var v := LoadAt(window, esi, size);
      StoreAt(window, edi, v, size);
      esi, edi := Wrap(esi + Step(size, down)), Wrap(edi + Step(size, down));
    }

    /** string_stos_helper. */
    method Stos(eflags: bv32, size: nat, rep: Rep) returns (rf: bv32)
      requires IsSize(size) && window.Length == WINDOW_SIZE
      modifies this`ecx, this`edi, window
      ensures
        var n, down := if rep.Once? then 1 else old(ecx), eflags & DIRECTION != 0;
        && rf == eflags
        && window[..] == Filled(old(window[..]), old(edi), eax, size, down, n)
        && edi == At(old(edi), size, down, n)
        && ecx == if rep.Once? then old(ecx) else 0
    {
      hide GuestWrite, At, Wrap;
      var down := eflags & DIRECTION != 0;
      NextAt(edi, size, down, 0);
      if rep.Once? {
        assert old(window[..]) == Filled(old(window[..]), edi, eax, size, down, 0);
        StoreAt(window, edi, eax, size);
        edi := Wrap(edi + Step(size, down));
      } else {
        ghost var n := 0;
        while ecx > 0
          invariant ecx == old(ecx) - n
          invariant edi == At(old(edi), size, down, n)
          invariant window[..] == Filled(old(window[..]), old(edi), eax, size, down, n)
        {
          StoreAt(window, edi, eax, size);
          NextAt(old(edi), size, down, n);
          edi := Wrap(edi + Step(size, down));
          ecx, n := ecx - 1, n + 1;
        }
      }
      rf := eflags;
    }
  }

  /** Merging new arithmetic flags forgets the earlier ones. */
  lemma MergeOver(s: Scan, eflags: bv32, n: nat)
    requires s.Valid()
    ensures forall f :: WithArith(s.Flags(eflags, n), f) == WithArith(eflags, f)
  {
    if n > 0 {
      hide Compute;
      Meaning(s.Left(n - 1), s.Right(n - 1), s.size);
      MergedBits(eflags, Compute(s.Left(n - 1), s.Right(n - 1), s.size));
    }
  }
}
