/** Block copies between host buffers and guest virtual memory, judged byte by byte. */
module BlockCopy {
  import opened Words
  import opened Paging
  import opened SoftTlb

  predicate PagingOn(cpu: Cpu) { cpu.cr0 >= 0x8000_0000 }

  /** Where one byte lives; with paging on, its own walk. */
  function ByteAddr(cpu: Cpu, va: u32, write: bool): (Cpu, u32) {
    if PagingOn(cpu) then TranslateByWalk(cpu, va, write, false) else (cpu, va)
  }

  datatype Copied = Copied(cpu: Cpu, data: seq<u8>, ok: bool)

  /** Reference read: every byte translated on its own, stopping at the first that is not in RAM. */
  function ReadBytes(cpu: Cpu, va: u32, n: nat): Copied
    decreases n
  {
    if n == 0 then Copied(cpu, [], true)
    else
      var (cpu1, pa) := ByteAddr(cpu, va, false);
      if pa >= RAM_SIZE then Copied(cpu1, [], false)
      else
        var rest := ReadBytes(cpu1, Wrap(va + 1), n - 1);
        rest.(data := [cpu1.ram[pa]] + rest.data)
  }

  datatype Stored = Stored(cpu: Cpu, ok: bool)

  function WriteBytes(cpu: Cpu, va: u32, data: seq<u8>): Stored
    decreases |data|
  {
    if data == [] then Stored(cpu, true)
    else
      var (cpu1, pa) := ByteAddr(cpu, va, true);
      if pa >= RAM_SIZE then Stored(cpu1, false)
      else WriteBytes(WithStore(cpu1, pa, data[0]), Wrap(va + 1), data[1..])
  }

  // ---- Reads by page ----

  /** Byte va + j lives at pa + j, and finding it changes nothing. */
  predicate FixedAt(cpu: Cpu, va: u32, pa: u32, j: nat, write: bool) {
    && pa + j < RAM_SIZE
    && ByteAddr(cpu, Wrap(va + j), write) == (cpu, pa + j)
    && (PagingOn(cpu) ==> Settled(cpu.ram, cpu.cr3, Wrap(va + j), write))
  }

  lemma FirstByteFixesPage(cpu: Cpu, va: u32, write: bool)
    requires ByteAddr(cpu, va, write).1 < RAM_SIZE
    ensures var (cpu1, pa) := ByteAddr(cpu, va, write);
      forall k: nat :: k < PAGE_SIZE - pa % PAGE_SIZE ==> FixedAt(cpu1, va, pa, k, write)
  {
    hide Walk, Settled, RamGrown;
    var (cpu1, pa) := ByteAddr(cpu, va, write);
    LastByteOfPage(pa);
    if PagingOn(cpu) {
      WalkAgain(cpu.ram, cpu.cr3, va, write);
      WalkGrows(cpu.ram, cpu.cr3, va, write);
      SettledWalkKeepsRam(cpu1.ram, cpu1.cr3, va, write);
      WalkByPage(cpu1.ram, cpu1.cr3, va, va, write);
    }
    forall k: nat | k < PAGE_SIZE - pa % PAGE_SIZE ensures FixedAt(cpu1, va, pa, k, write) {
      if PagingOn(cpu) {
        WithinPage(va, k);
        WalkByPage(cpu1.ram, cpu1.cr3, va, Wrap(va + k), write);
        SettledByPage(cpu1.ram, cpu1.cr3, va, Wrap(va + k), write);
      }
    }
  }

  lemma LastByteOfPage(pa: u32)
    requires pa < RAM_SIZE
    ensures pa - pa % PAGE_SIZE + PAGE_SIZE <= RAM_SIZE
  {
    assert pa / 0x1000 < 0x8000;
  }

  lemma WithinPage(va: u32, k: int)
    requires 0 <= k < PAGE_SIZE - va % PAGE_SIZE
    ensures Wrap(va + k) == va + k && (va + k) / PAGE_SIZE == va / PAGE_SIZE
    ensures (va + k) % PAGE_SIZE == va % PAGE_SIZE + k
  {
    assert va == va / 0x1000 * 0x1000 + va % 0x1000;
  }

  lemma FixedShift(cpu: Cpu, va: u32, pa: u32, j: nat, write: bool)
    requires FixedAt(cpu, va, pa, j + 1, write)
    ensures FixedAt(cpu, Wrap(va + 1), pa + 1, j, write)
  {
    hide ByteAddr, Wrap;
    WrapAgain(va, 1, j);
  }

  lemma {:induction false} FixedChunk(cpu: Cpu, va: u32, pa: u32, n: nat, k: nat)
    requires k <= n && pa + k <= RAM_SIZE
    requires forall j: nat :: j < k ==> FixedAt(cpu, va, pa, j, false)
    ensures var rest := ReadBytes(cpu, Wrap(va + k), n - k);
      ReadBytes(cpu, va, n) == rest.(data := cpu.ram[pa..pa + k] + rest.data)
    decreases k
  {
    hide ByteAddr, Wrap;
    WrapSmall(va);
    if k == 0 {
      assert cpu.ram[pa..pa] == [];
    } else {
      assert FixedAt(cpu, va, pa, 0, false);
      var va1, pa1 := Wrap(va + 1), pa + 1;
      forall j: nat | j < k - 1 ensures FixedAt(cpu, va1, pa1, j, false) {
        hide FixedAt;
        FixedShift(cpu, va, pa, j, false);
      }
      hide FixedAt;
      FixedChunk(cpu, va1, pa1, n - 1, k - 1);
      WrapAgain(va, 1, k - 1);
      var tail := ReadBytes(cpu, va1, n - 1);
      assert ReadBytes(cpu, va, n) == tail.(data := [cpu.ram[pa]] + tail.data);
      assert cpu.ram[pa..pa + k] == [cpu.ram[pa]] + cpu.ram[pa1..pa + k];
    }
  }

  function ChunkSize(pa: u32, size: nat): nat {
    var remain := PAGE_SIZE - pa % PAGE_SIZE;
    if size < remain then size else remain
  }

  /** Translating the first byte once more changes nothing. */
  lemma SameFirstByte(cpu: Cpu, va: u32, n: nat)
    requires n > 0 && ByteAddr(cpu, va, false).1 < RAM_SIZE
    ensures ReadBytes(ByteAddr(cpu, va, false).0, va, n) == ReadBytes(cpu, va, n)
  {
    hide Walk, Settled;
    var (cpu1, pa) := ByteAddr(cpu, va, false);
    FirstByteFixesPage(cpu, va, false);
    WrapSmall(va);
    assert FixedAt(cpu1, va, pa, 0, false);
  }

  /** Copying a whole page chunk after one translation is the same as translating each of its bytes. */
  lemma ReadChunk(cpu: Cpu, va: u32, n: nat)
    requires n > 0
    ensures var (cpu1, pa) := ByteAddr(cpu, va, false);
      if pa >= RAM_SIZE then ReadBytes(cpu, va, n) == Copied(cpu1, [], false)
      else
        var k := ChunkSize(pa, n);
        pa + k <= RAM_SIZE &&
        var rest := ReadBytes(cpu1, Wrap(va + k), n - k);
        ReadBytes(cpu, va, n) == rest.(data := cpu1.ram[pa..pa + k] + rest.data)
  {
    hide ByteAddr, FixedAt, Wrap;
    var (cpu1, pa) := ByteAddr(cpu, va, false);
    if pa < RAM_SIZE {
      FirstByteFixesPage(cpu, va, false);
      LastByteOfPage(pa);
      SameFirstByte(cpu, va, n);
      hide ReadBytes;
      FixedChunk(cpu1, va, pa, n, ChunkSize(pa, n));
    }
  }

  // ---- Translations of a block ----

  /** The address of byte i of a block. */
  function ByteVa(va: u32, i: nat): u32 { Wrap(va + i) }

  /** The addresses of a block of n bytes. */
  ghost function Block(va: u32, n: nat): iset<u32> { iset j: nat | j < n :: ByteVa(va, j) }

  ghost predicate Within(va: u32, n: nat, s: iset<u32>) {
    forall j: nat :: j < n ==> ByteVa(va, j) in s
  }

  lemma WithinTail(va: u32, n: nat, s: iset<u32>)
    requires n > 0 && Within(va, n, s)
    ensures va in s && Within(Wrap(va + 1), n - 1, s)
  {
    hide Wrap;
    WrapSmall(va);
    assert ByteVa(va, 0) in s;
    var va1 := Wrap(va + 1);
    forall j: nat | j < n - 1 ensures ByteVa(va1, j) in s {
      WrapAgain(va, 1, j);
      assert ByteVa(va, 1 + j) in s;
    }
  }

  /** With paging on: a byte of a table word that the walk of some address of s reads. */
  ghost predicate InTables(cpu: Cpu, s: iset<u32>, a: nat) { PagingOn(cpu) && TableByte(cpu.ram, cpu.cr3, s, a) }

  ghost predicate TableByte(ram: Ram, cr3: u32, s: iset<u32>, a: nat) {
    exists va: u32 :: va in s && WalkReads(ram, cr3, va, a)
  }

  /** Two memories translate s alike, through the same table words. */
  ghost predicate TablesAgree(m: Ram, m': Ram, cr3: u32, s: iset<u32>) {
    && (forall va: u32, write: bool :: va in s ==> Walk(m', cr3, va, write).outcome == Walk(m, cr3, va, write).outcome)
    && (forall va: u32, a: nat :: va in s ==> WalkReads(m', cr3, va, a) == WalkReads(m, cr3, va, a))
  }

  lemma GrowthKeepsReads(m: Ram, m': Ram, cr3: u32, va: u32, a: nat)
    requires RamGrown(m, m')
    ensures WalkReads(m', cr3, va, a) == WalkReads(m, cr3, va, a)
  {
    hide RamGrown, PdeAddr, PageBase, Present, Large, Read32, AliasPa;
    TablesAreAligned(cr3, va);
    if InRam(PdeAddr(cr3, va)) {
      PdeGrows(m, m', PdeAddr(cr3, va));
    }
  }

  lemma GrowthKeepsTables(m: Ram, m': Ram, cr3: u32, s: iset<u32>)
    requires RamGrown(m, m')
    ensures TablesAgree(m, m', cr3, s)
  {
    hide RamGrown, Walk, WalkReads;
    forall va: u32, write: bool ensures Walk(m', cr3, va, write).outcome == Walk(m, cr3, va, write).outcome {
      GrowthKeepsOutcome(m, m', cr3, va, write);
    }
    forall va: u32, a: nat ensures WalkReads(m', cr3, va, a) == WalkReads(m, cr3, va, a) {
      GrowthKeepsReads(m, m', cr3, va, a);
    }
  }

  lemma StoreKeepsTables(m: Ram, cr3: u32, s: iset<u32>, a: nat, b: u8)
    requires a < RAM_SIZE && !TableByte(m, cr3, s, a)
    ensures TablesAgree(m, m[a := b], cr3, s)
  {
    hide Walk, WalkReads;
    forall va: u32, write: bool | va in s
      ensures Walk(m[a := b], cr3, va, write).outcome == Walk(m, cr3, va, write).outcome
    {
      StoreElsewhere(m, cr3, va, write, a, b);
    }
    forall va: u32, x: nat | va in s ensures WalkReads(m[a := b], cr3, va, x) == WalkReads(m, cr3, va, x) {
      StoreKeepsReads(m, cr3, va, a, b, x);
    }
  }

  lemma WalkChangesTablesOnly(ram: Ram, cr3: u32, va: u32, write: bool, a: nat)
    requires a < RAM_SIZE && !WalkReads(ram, cr3, va, a)
    ensures Walk(ram, cr3, va, write).ram[a] == ram[a]
  {
    hide PdeAddr, PteAddr, Read32, Large, Present, Writable, LargePa, SmallPa, Mark, Marked;
  }

  /** Where byte i of a block goes. */
  function Target(cpu: Cpu, va: u32, i: nat, write: bool): u32 {
    ByteAddr(cpu, ByteVa(va, i), write).1
  }

  /** The block lies in s and no byte of it goes to the tables of s. */
  ghost predicate SparesTables(cpu: Cpu, va: u32, n: nat, s: iset<u32>) {
    Within(va, n, s) &&
    forall i: nat :: i < n && Target(cpu, va, i, true) < RAM_SIZE ==> !InTables(cpu, s, Target(cpu, va, i, true))
  }

  /** Same paging mode and, with paging on, agreeing tables. */
  ghost predicate SameSpace(cpu: Cpu, cpu': Cpu, s: iset<u32>) {
    && PagingOn(cpu) == PagingOn(cpu') && cpu.cr3 == cpu'.cr3
    && (PagingOn(cpu) ==> TablesAgree(cpu.ram, cpu'.ram, cpu.cr3, s))
  }

  lemma StoreKeepsSpace(cpu: Cpu, s: iset<u32>, a: nat, b: u8)
    requires a < RAM_SIZE && !InTables(cpu, s, a)
    ensures SameSpace(cpu, WithStore(cpu, a, b), s)
  {
    hide TableByte, TablesAgree;
    if PagingOn(cpu) { StoreKeepsTables(cpu.ram, cpu.cr3, s, a, b); }
  }

  lemma SameSpaceSameTargets(cpu: Cpu, cpu': Cpu, s: iset<u32>)
    requires SameSpace(cpu, cpu', s)
    ensures forall va: u32, i: nat, write: bool :: ByteVa(va, i) in s ==>
      Target(cpu', va, i, write) == Target(cpu, va, i, write)
    ensures forall a: nat :: InTables(cpu', s, a) == InTables(cpu, s, a)
  {
    hide Walk, WalkReads, ByteVa;
  }

  lemma SameSpaceTransitive(c: Cpu, c': Cpu, c'': Cpu, s: iset<u32>)
    requires SameSpace(c, c', s) && SameSpace(c', c'', s)
    ensures SameSpace(c, c'', s)
  {
    hide Walk, WalkReads;
  }

  /** Bytes outside the tables of s keep their values. */
  ghost predicate SparedKept(cpu: Cpu, ram': Ram, s: iset<u32>) {
    forall a: nat :: a < RAM_SIZE && !InTables(cpu, s, a) ==> ram'[a] == cpu.ram[a]
  }

  lemma AddressingKeepsSpace(cpu: Cpu, va: u32, write: bool, s: iset<u32>)
    ensures var (cpu1, pa) := ByteAddr(cpu, va, write);
      && SameSpace(cpu, cpu1, s) && RamGrown(cpu.ram, cpu1.ram)
      && (va in s ==> SparedKept(cpu, cpu1.ram, s))
  {
    hide Walk, WalkReads, TablesAgree, RamGrown;
    var (cpu1, pa) := ByteAddr(cpu, va, write);
    RamGrownIsReflexive(cpu.ram);
    GrowthKeepsTables(cpu.ram, cpu.ram, cpu.cr3, s);
    if PagingOn(cpu) {
      WalkGrows(cpu.ram, cpu.cr3, va, write);
      GrowthKeepsTables(cpu.ram, Walk(cpu.ram, cpu.cr3, va, write).ram, cpu.cr3, s);
      forall a: nat | va in s && a < RAM_SIZE && !InTables(cpu, s, a) ensures cpu1.ram[a] == cpu.ram[a] {
        WalkChangesTablesOnly(cpu.ram, cpu.cr3, va, write, a);
      }
    }
  }

  lemma TargetShift(cpu: Cpu, va: u32, i: nat, write: bool)
    ensures Target(cpu, Wrap(va + 1), i, write) == Target(cpu, va, i + 1, write)
  {
    hide ByteAddr, Wrap;
    WrapAgain(va, 1, i);
  }

  // ---- What a read returns ----

  /** Byte a of memory after some A/D bits were set: only the lowest byte of an aligned word holds such bits. */
  predicate ByteGrown(a: nat, b: u8, b': u8) { if a % 4 == 0 then Grown(b, b') else b' == b }

  lemma GrownBytes(b0: u8, b1: u8, b2: u8, b3: u8, c0: u8, c1: u8, c2: u8, c3: u8)
    requires Grown(Word(b0, b1, b2, b3), Word(c0, c1, c2, c3))
    ensures Grown(b0, c0) && c1 == b1 && c2 == b2 && c3 == b3
  {
    var h: nat, h': nat := b1 + 0x100 * b2 + 0x1_0000 * b3, c1 + 0x100 * c2 + 0x1_0000 * c3;
    assert Word(b0, b1, b2, b3) == b0 + 0x100 * h && Word(c0, c1, c2, c3) == c0 + 0x100 * h';
    hide Word;
    LowByte(b0, h);
    LowByte(c0, h');
    SameHalf(b0, c0, h, h');
    HighBytes(b1, b2, b3, c1, c2, c3);
  }

  lemma LowByte(b: u8, h: nat)
    ensures var w: nat := b + 0x100 * h;
      && w % 0x20 == b % 0x20 && w / 0x80 == b / 0x80 + 2 * h
      && w / 0x20 % 2 == b / 0x20 % 2 && w / 0x40 % 2 == b / 0x40 % 2
  {
    var w: nat := b + 0x100 * h;
    assert w / 0x80 == b / 0x80 + 2 * h by { Unique(w, 0x80, b / 0x80 + 2 * h, b % 0x80); }
    assert w / 0x20 == b / 0x20 + 8 * h && w % 0x20 == b % 0x20 by { Unique(w, 0x20, b / 0x20 + 8 * h, b % 0x20); }
    assert w / 0x40 == b / 0x40 + 4 * h by { Unique(w, 0x40, b / 0x40 + 4 * h, b % 0x40); }
    EvenAdded(b / 0x20, 4 * h);
    EvenAdded(b / 0x40, 2 * h);
  }

  lemma EvenAdded(x: nat, y: nat)
    ensures (x + 2 * y) % 2 == x % 2
  {
  }

  lemma SameHalf(b: u8, c: u8, h: nat, h': nat)
    requires b / 0x80 + 2 * h == c / 0x80 + 2 * h'
    ensures b / 0x80 == c / 0x80 && h == h'
  {
  }

  lemma HighBytes(b1: u8, b2: u8, b3: u8, c1: u8, c2: u8, c3: u8)
    requires b1 + 0x100 * b2 + 0x1_0000 * b3 == c1 + 0x100 * c2 + 0x1_0000 * c3
    ensures b1 == c1 && b2 == c2 && b3 == c3
  {
    assert b1 - c1 == 0x100 * ((c2 - b2) + 0x100 * (c3 - b3));
  }

  lemma GrownAt(m: Ram, m': Ram, a: nat)
    requires RamGrown(m, m') && a % 4 == 0 && a + 4 <= RAM_SIZE
    ensures Grown(Read32(m, a), Read32(m', a))
  {
    hide Grown;
  }

  lemma GrowthByBytes(m: Ram, m': Ram, a: nat)
    requires RamGrown(m, m') && a < RAM_SIZE
    ensures ByteGrown(a, m[a], m'[a])
  {
    hide RamGrown, Grown;
    var w := a - a % 4;
    GrownAt(m, m', w);
    GrownBytes(m[w], m[w + 1], m[w + 2], m[w + 3], m'[w], m'[w + 1], m'[w + 2], m'[w + 3]);
  }

  lemma ByteGrownTwice(a: nat, b: u8, b': u8, b'': u8)
    requires ByteGrown(a, b, b') && ByteGrown(a, b', b'')
    ensures ByteGrown(a, b, b'')
  {
  }

  /** d is what a block of addresses holds, but for A/D bits that the walks of s have set. */
  ghost predicate Holds(cpu: Cpu, va: u32, d: seq<u8>, s: iset<u32>) {
    forall i: nat :: i < |d| ==>
      var t := Target(cpu, va, i, false);
      t < RAM_SIZE && ByteGrown(t, cpu.ram[t], d[i]) && (!InTables(cpu, s, t) ==> d[i] == cpu.ram[t])
  }

  predicate AllInRam(cpu: Cpu, va: u32, n: nat, write: bool) {
    forall i: nat :: i < n ==> Target(cpu, va, i, write) < RAM_SIZE
  }

  lemma AllInRamStep(cpu: Cpu, cpu1: Cpu, va: u32, va1: u32, n: nat, write: bool, s: iset<u32>)
    requires n > 0 && SameSpace(cpu, cpu1, s) && Within(va, n, s) && va1 == Wrap(va + 1)
    ensures AllInRam(cpu, va, n, write) <==> Target(cpu, va, 0, write) < RAM_SIZE && AllInRam(cpu1, va1, n - 1, write)
    ensures forall i: nat :: i < n - 1 ==> Target(cpu1, va1, i, write) == Target(cpu, va, i + 1, write)
  {
    hide Target, SameSpace, Wrap, ByteVa;
    SameSpaceSameTargets(cpu, cpu1, s);
    assert ByteVa(va, 0) in s;
    forall i: nat | i < n - 1 ensures Target(cpu1, va1, i, write) == Target(cpu, va, i + 1, write) {
      assert ByteVa(va, i + 1) in s;
      TargetShift(cpu1, va, i, write);
    }
    assert forall i: nat :: 0 < i < n ==> var j: nat := i - 1; Target(cpu1, va1, j, write) == Target(cpu, va, i, write);
  }

  lemma HoldsStep(cpu: Cpu, cpu1: Cpu, va: u32, n: nat, d: seq<u8>, s: iset<u32>)
    requires n > 0 && SameSpace(cpu, cpu1, s) && Within(va, n, s) && |d| < n && RamGrown(cpu.ram, cpu1.ram)
    requires SparedKept(cpu, cpu1.ram, s)
    requires Target(cpu, va, 0, false) < RAM_SIZE && Holds(cpu1, Wrap(va + 1), d, s)
    ensures Holds(cpu, va, [cpu1.ram[Target(cpu, va, 0, false)]] + d, s)
  {
    hide Target, SameSpace, Wrap, RamGrown, ByteGrown, TableByte, Within;
    AllInRamStep(cpu, cpu1, va, Wrap(va + 1), n, false, s);
    SameSpaceSameTargets(cpu, cpu1, s);
    var all := [cpu1.ram[Target(cpu, va, 0, false)]] + d;
    forall i: nat | i < |all|
      ensures var t := Target(cpu, va, i, false);
        t < RAM_SIZE && ByteGrown(t, cpu.ram[t], all[i]) && (!InTables(cpu, s, t) ==> all[i] == cpu.ram[t])
    {
      if i > 0 {
        var j: nat := i - 1;
        assert Target(cpu1, Wrap(va + 1), j, false) == Target(cpu, va, i, false) && all[i] == d[j];
      }
      var t := Target(cpu, va, i, false);
      GrowthByBytes(cpu.ram, cpu1.ram, t);
      if i > 0 { ByteGrownTwice(t, cpu.ram[t], cpu1.ram[t], all[i]); }
    }
  }

  /** What a bytewise read of a block within s returns: the RAM bytes at the translations of its addresses, each as
      it was but for A/D bits, and exactly as it was unless it belongs to the tables of s. */
  lemma {:induction false} ReadBytesEffect(cpu: Cpu, va: u32, n: nat, s: iset<u32>)
    requires Within(va, n, s)
    ensures var r := ReadBytes(cpu, va, n);
      && (r.ok <==> AllInRam(cpu, va, n, false))
      && (r.ok ==> |r.data| == n) && |r.data| <= n
      && Holds(cpu, va, r.data, s)
      && RamGrown(cpu.ram, r.cpu.ram)
    decreases n
  {
    hide ByteAddr, InTables, RamGrown, SameSpace, SparedKept, Wrap, Within, ByteGrown, AllInRam;
    if n == 0 {
      RamGrownIsReflexive(cpu.ram);
      NoBytesInRam(cpu, va, false);
    } else {
      WrapSmall(va);
      WithinTail(va, n, s);
      var (cpu1, pa) := ByteAddr(cpu, va, false);
      AddressingKeepsSpace(cpu, va, false, s);
      AllInRamStep(cpu, cpu1, va, Wrap(va + 1), n, false, s);
      assert Target(cpu, va, 0, false) == pa;
      if pa < RAM_SIZE {
        var rest := ReadBytes(cpu1, Wrap(va + 1), n - 1);
        ReadBytesEffect(cpu1, Wrap(va + 1), n - 1, s);
        RamGrownTransitive(cpu.ram, cpu1.ram, rest.cpu.ram);
        HoldsStep(cpu, cpu1, va, n, rest.data, s);
      }
    }
  }

  lemma NoBytesInRam(cpu: Cpu, va: u32, write: bool)
    ensures AllInRam(cpu, va, 0, write)
  {
  }

  // ---- What a write does ----

  predicate Untargeted(cpu: Cpu, va: u32, n: nat, a: nat) {
    forall i: nat :: i < n ==> Target(cpu, va, i, true) != a
  }

  predicate DistinctTargets(cpu: Cpu, va: u32, n: nat) {
    forall i: nat, j: nat :: i < j < n ==> Target(cpu, va, i, true) != Target(cpu, va, j, true)
  }

  /** Facts about targets seen from the second byte on. */
  lemma TargetsTail(cpu: Cpu, cpu2: Cpu, va: u32, n: nat, s: iset<u32>)
    requires n > 0 && SameSpace(cpu, cpu2, s) && Within(va, n, s)
    ensures SparesTables(cpu, va, n, s) ==> SparesTables(cpu2, Wrap(va + 1), n - 1, s)
    ensures forall a: nat :: Untargeted(cpu, va, n, a) ==> Untargeted(cpu2, Wrap(va + 1), n - 1, a)
    ensures DistinctTargets(cpu, va, n) ==>
      DistinctTargets(cpu2, Wrap(va + 1), n - 1) && Untargeted(cpu2, Wrap(va + 1), n - 1, Target(cpu, va, 0, true))
  {
    hide Target, SameSpace, TableByte, Wrap, Within;
    SameSpaceSameTargets(cpu, cpu2, s);
    AllInRamStep(cpu, cpu2, va, Wrap(va + 1), n, true, s);
    WithinTail(va, n, s);
  }

  predicate WordUntargeted(cpu: Cpu, va: u32, n: nat, a: nat) {
    forall k: nat :: a <= k < a + 4 ==> Untargeted(cpu, va, n, k)
  }

  /** Bytes that are neither targets nor table bytes keep their values. */
  ghost predicate OthersKept(cpu: Cpu, va: u32, n: nat, ram': Ram, s: iset<u32>) {
    forall a: nat :: a < RAM_SIZE && !InTables(cpu, s, a) && Untargeted(cpu, va, n, a) ==> ram'[a] == cpu.ram[a]
  }

  /** Words without a target at most gain A/D bits. */
  predicate WordsGrown(cpu: Cpu, va: u32, n: nat, ram': Ram) {
    forall a: nat :: a % 4 == 0 && a + 4 <= RAM_SIZE && WordUntargeted(cpu, va, n, a) ==>
      Grown(Read32(cpu.ram, a), Read32(ram', a))
  }

  predicate Delivered(cpu: Cpu, va: u32, data: seq<u8>, ram': Ram)
    requires AllInRam(cpu, va, |data|, true)
  {
    forall i: nat :: i < |data| ==> ram'[Target(cpu, va, i, true)] == data[i]
  }

  lemma WordsGrownStep(cpu: Cpu, va: u32, n: nat, ram1: Ram, b: u8, cpu2: Cpu, ram': Ram, s: iset<u32>)
    requires n > 0 && RamGrown(cpu.ram, ram1) && SameSpace(cpu, cpu2, s) && Within(va, n, s)
    requires Target(cpu, va, 0, true) < RAM_SIZE && cpu2.ram == ram1[Target(cpu, va, 0, true) := b]
    requires WordsGrown(cpu2, Wrap(va + 1), n - 1, ram')
    ensures WordsGrown(cpu, va, n, ram')
  {
    hide Target, SameSpace, TableByte, Wrap, Grown, RamGrown, Within;
    TargetsTail(cpu, cpu2, va, n, s);
    forall a: nat | a % 4 == 0 && a + 4 <= RAM_SIZE && WordUntargeted(cpu, va, n, a)
      ensures Grown(Read32(cpu.ram, a), Read32(ram', a))
    {
      var va1, n1 := Wrap(va + 1), n - 1;
      forall k: nat | a <= k < a + 4 ensures Untargeted(cpu2, va1, n1, k) {
        assert Untargeted(cpu, va, n, k);
      }
      var t := Target(cpu, va, 0, true);
      assert !Untargeted(cpu, va, n, t);
      assert Read32(cpu2.ram, a) == Read32(ram1, a);
      assert Grown(Read32(cpu.ram, a), Read32(ram1, a)) by { GrownAt(cpu.ram, ram1, a); }
      GrownTransitive(Read32(cpu.ram, a), Read32(ram1, a), Read32(ram', a));
    }
  }

  lemma OthersKeptStep(cpu: Cpu, va: u32, n: nat, ram1: Ram, b: u8, cpu2: Cpu, ram': Ram, s: iset<u32>)
    requires n > 0 && SameSpace(cpu, cpu2, s) && Within(va, n, s)
    requires SparedKept(cpu, ram1, s)
    requires Target(cpu, va, 0, true) < RAM_SIZE && cpu2.ram == ram1[Target(cpu, va, 0, true) := b]
    requires OthersKept(cpu2, Wrap(va + 1), n - 1, ram', s)
    ensures OthersKept(cpu, va, n, ram', s)
  {
    hide Target, SameSpace, TableByte, Wrap, Within;
    TargetsTail(cpu, cpu2, va, n, s);
    SameSpaceSameTargets(cpu, cpu2, s);
  }

  lemma DeliveredStep(cpu: Cpu, va: u32, data: seq<u8>, ram1: Ram, cpu2: Cpu, ram': Ram, s: iset<u32>)
    requires data != [] && SameSpace(cpu, cpu2, s) && SparesTables(cpu, va, |data|, s)
    requires AllInRam(cpu, va, |data|, true) && DistinctTargets(cpu, va, |data|)
    requires cpu2.ram == ram1[Target(cpu, va, 0, true) := data[0]]
    requires AllInRam(cpu2, Wrap(va + 1), |data| - 1, true)
    requires Delivered(cpu2, Wrap(va + 1), data[1..], ram') && OthersKept(cpu2, Wrap(va + 1), |data| - 1, ram', s)
    ensures Delivered(cpu, va, data, ram')
  {
    hide Target, SameSpace, TableByte, Wrap, Within;
    TargetsTail(cpu, cpu2, va, |data|, s);
    AllInRamStep(cpu, cpu2, va, Wrap(va + 1), |data|, true, s);
    SameSpaceSameTargets(cpu, cpu2, s);
    forall i: nat | i < |data| ensures ram'[Target(cpu, va, i, true)] == data[i] {
      if i > 0 {
        var j: nat := i - 1;
        assert data[1..][j] == data[i];
      }
    }
  }

  /** What a bytewise write does when no byte goes to the tables of s. */
  lemma {:induction false} WriteBytesEffect(cpu: Cpu, va: u32, data: seq<u8>, s: iset<u32>)
    requires SparesTables(cpu, va, |data|, s)
    ensures var r := WriteBytes(cpu, va, data);
      && (r.ok <==> AllInRam(cpu, va, |data|, true))
      && SameSpace(cpu, r.cpu, s)
      && OthersKept(cpu, va, |data|, r.cpu.ram, s)
      && WordsGrown(cpu, va, |data|, r.cpu.ram)
      && (r.ok && DistinctTargets(cpu, va, |data|) ==> Delivered(cpu, va, data, r.cpu.ram))
    decreases |data|
  {
    hide AllInRam;
    if data == [] {
      NoBytesInRam(cpu, va, true);
      SameSpaceReflexive(cpu, s);
    } else {
      hide ByteAddr, InTables, RamGrown, Wrap, Within, SameSpace;
      hide WordsGrown, DistinctTargets, SparedKept, Delivered, OthersKept;
      WrapSmall(va);
      var (cpu1, pa) := ByteAddr(cpu, va, true);
      var va1 := Wrap(va + 1);
      WithinTail(va, |data|, s);
      AddressingKeepsSpace(cpu, va, true, s);
      assert Target(cpu, va, 0, true) == pa;
      if pa < RAM_SIZE {
        var cpu2 := WithStore(cpu1, pa, data[0]);
        StoredKeepsSpace(cpu, cpu1, va, |data|, data[0], s);
        TargetsTail(cpu, cpu2, va, |data|, s);
        AllInRamStep(cpu, cpu2, va, Wrap(va + 1), |data|, true, s);
        WriteBytesEffect(cpu2, va1, data[1..], s);
        var r := WriteBytes(cpu2, va1, data[1..]);
        SameSpaceTransitive(cpu, cpu2, r.cpu, s);
        WordsGrownStep(cpu, va, |data|, cpu1.ram, data[0], cpu2, r.cpu.ram, s);
        OthersKeptStep(cpu, va, |data|, cpu1.ram, data[0], cpu2, r.cpu.ram, s);
        if r.ok && DistinctTargets(cpu, va, |data|) {
          DeliveredStep(cpu, va, data, cpu1.ram, cpu2, r.cpu.ram, s);
        }
      } else {
        AllInRamStep(cpu, cpu1, va, va1, |data|, true, s);
        GrownIsWordsGrown(cpu, va, |data|, cpu1.ram);
        UntouchedIsOthersKept(cpu, va, |data|, cpu1.ram, s);
      }
    }
  }

  lemma SameSpaceReflexive(cpu: Cpu, s: iset<u32>)
    ensures SameSpace(cpu, cpu, s)
  {
    hide Walk, WalkReads;
  }

  lemma GrownIsWordsGrown(cpu: Cpu, va: u32, n: nat, ram': Ram)
    requires RamGrown(cpu.ram, ram')
    ensures WordsGrown(cpu, va, n, ram')
  {
    hide Grown, Read32, Target;
  }

  lemma UntouchedIsOthersKept(cpu: Cpu, va: u32, n: nat, ram': Ram, s: iset<u32>)
    requires SparedKept(cpu, ram', s)
    ensures OthersKept(cpu, va, n, ram', s)
  {
    hide TableByte, Target;
  }

  lemma StoredKeepsSpace(cpu: Cpu, cpu1: Cpu, va: u32, n: nat, b: u8, s: iset<u32>)
    requires n > 0 && SparesTables(cpu, va, n, s) && SameSpace(cpu, cpu1, s) && Target(cpu, va, 0, true) < RAM_SIZE
    ensures SameSpace(cpu, WithStore(cpu1, Target(cpu, va, 0, true), b), s)
  {
    hide Target, TableByte, TablesAgree, Within;
    SameSpaceSameTargets(cpu, cpu1, s);
    var t := Target(cpu, va, 0, true);
    StoreKeepsSpace(cpu1, s, t, b);
    SameSpaceTransitive(cpu, cpu1, WithStore(cpu1, t, b), s);
  }

  /** What was written reads back, for distinct target pages apart from the tables of the block itself. */
  lemma WriteThenRead(cpu: Cpu, va: u32, data: seq<u8>)
    requires SparesTables(cpu, va, |data|, Block(va, |data|)) && DistinctTargets(cpu, va, |data|)
    requires WriteBytes(cpu, va, data).ok
    ensures var s := WriteBytes(cpu, va, data);
      var r := ReadBytes(s.cpu, va, |data|);
      r.ok && r.data == data
  {
    hide WriteBytes, ReadBytes, SameSpace, TableByte, WordsGrown, OthersKept, ByteGrown, Wrap;
    var cpu', s := WriteBytes(cpu, va, data).cpu, Block(va, |data|);
    WriteBytesEffect(cpu, va, data, s);
    ReadBytesEffect(cpu', va, |data|, s);
    SameSpaceSameTargets(cpu, cpu', s);
    forall i: nat | i < |data| ensures Target(cpu, va, i, false) == Target(cpu, va, i, true) {
      assert Target(cpu, va, i, true) < RAM_SIZE;
      ReadsWhereItWrites(cpu, Wrap(va + i));
    }
    hide Target;
    var r := ReadBytes(cpu', va, |data|);
    forall i: nat | i < |data|
      ensures Target(cpu', va, i, false) == Target(cpu, va, i, true) && Target(cpu', va, i, false) < RAM_SIZE
    {
      assert ByteVa(va, i) in s;
      assert Target(cpu, va, i, true) < RAM_SIZE;
    }
    assert r.ok;
    forall i: nat | i < |data| ensures r.data[i] == data[i] {
      assert Target(cpu', va, i, false) == Target(cpu, va, i, true);
    }
  }

  lemma ReadsWhereItWrites(cpu: Cpu, va: u32)
    requires ByteAddr(cpu, va, true).1 < RAM_SIZE
    ensures ByteAddr(cpu, va, false).1 == ByteAddr(cpu, va, true).1
  {
    hide Walk, RamGrown;
    if PagingOn(cpu) {
      RamGrownIsReflexive(cpu.ram);
      GrowthKeepsTranslation(cpu.ram, cpu.ram, cpu.cr3, va, true);
    }
  }

  // ---- Page chunks of a write ----

  function Splice(m: Ram, a: nat, d: seq<u8>): Ram
    requires a + |d| <= RAM_SIZE
  {
    m[..a] + d + m[a + |d|..]
  }

  ghost predicate RangeSparesTables(cpu: Cpu, pa: nat, k: nat, s: iset<u32>) {
    forall a: nat :: pa <= a < pa + k ==> !InTables(cpu, s, a)
  }

  lemma FixedAfterStore(cpu: Cpu, va: u32, pa: u32, j: nat, a: nat, b: u8, s: iset<u32>)
    requires FixedAt(cpu, va, pa, j, true) && a < RAM_SIZE && !InTables(cpu, s, a) && ByteVa(va, j) in s
    ensures FixedAt(WithStore(cpu, a, b), va, pa, j, true)
  {
    hide Walk, WalkReads, Settled, Wrap;
    var va' := Wrap(va + j);
    if PagingOn(cpu) {
      assert !WalkReads(cpu.ram, cpu.cr3, va', a);
      StoreElsewhere(cpu.ram, cpu.cr3, va', true, a, b);
      SettledWalkKeepsRam(cpu.ram[a := b], cpu.cr3, va', true);
    }
  }

  /** Copying a whole page chunk of a write after one translation is the same as its bytes one by one. */
  lemma {:induction false} FixedChunkWrite(cpu: Cpu, va: u32, pa: u32, data: seq<u8>, k: nat, s: iset<u32>)
    requires k <= |data| && pa + k <= RAM_SIZE
    requires RangeSparesTables(cpu, pa, k, s) && Within(va, k, s)
    requires forall j: nat :: j < k ==> FixedAt(cpu, va, pa, j, true)
    ensures WriteBytes(cpu, va, data)
      == WriteBytes(cpu.(ram := Splice(cpu.ram, pa, data[..k])), Wrap(va + k), data[k..])
    decreases k
  {
    hide ByteAddr, Wrap, TableByte, Within;
    WrapSmall(va);
    if k == 0 {
      assert Splice(cpu.ram, pa, data[..0]) == cpu.ram;
      assert data[0..] == data;
    } else {
      assert FixedAt(cpu, va, pa, 0, true);
      var cpu1 := WithStore(cpu, pa, data[0]);
      var va1, pa1 := Wrap(va + 1), pa + 1;
      WithinTail(va, k, s);
      StoreKeepsSpace(cpu, s, pa, data[0]);
      SameSpaceSameTargets(cpu, cpu1, s);
      forall j: nat | j < k - 1 ensures FixedAt(cpu1, va1, pa1, j, true) {
        hide FixedAt;
        var j' := j + 1;
        assert FixedAt(cpu, va, pa, j', true);
        FixedShift(cpu, va, pa, j, true);
        WithinAt(va1, k - 1, s, j);
        FixedAfterStore(cpu, va1, pa1, j, pa, data[0], s);
      }
      assert WriteBytes(cpu, va, data) == WriteBytes(cpu1, va1, data[1..]);
      hide FixedAt, WriteBytes;
      FixedChunkWrite(cpu1, va1, pa1, data[1..], k - 1, s);
      WrapAgain(va, 1, k - 1);
      assert data[1..][k - 1..] == data[k..] && data[..k] == [data[0]] + data[1..][..k - 1];
      assert Splice(cpu1.ram, pa1, data[1..][..k - 1]) == Splice(cpu.ram, pa, data[..k]);
    }
  }

  lemma WithinAt(va: u32, n: nat, s: iset<u32>, j: nat)
    requires Within(va, n, s) && j < n
    ensures ByteVa(va, j) in s
  {
  }

  /** The first k bytes at pa go past the table words that translate the page of va. */
  ghost predicate PageSpared(cpu: Cpu, va: u32, pa: u32, k: nat) {
    PagingOn(cpu) ==> forall a: nat :: pa <= a < pa + k ==> !WalkReads(cpu.ram, cpu.cr3, va, a)
  }

  /** The first page chunk of a write spares the tables of its own page. */
  ghost predicate ChunkSpares(cpu: Cpu, va: u32, n: nat) {
    var pa := ByteAddr(cpu, va, true).1; pa < RAM_SIZE ==> PageSpared(cpu, va, pa, ChunkSize(pa, n))
  }

  ghost function PageOf(va: u32): iset<u32> { iset v: u32 | v / PAGE_SIZE == va / PAGE_SIZE }

  lemma ChunkInPage(cpu: Cpu, va: u32, k: nat)
    requires var pa := ByteAddr(cpu, va, true).1; pa < RAM_SIZE && k <= PAGE_SIZE - pa % PAGE_SIZE
    ensures Within(va, k, PageOf(va))
  {
    hide Walk;
    var pa := ByteAddr(cpu, va, true).1;
    if PagingOn(cpu) { WalkByPage(cpu.ram, cpu.cr3, va, va, true); }
    assert pa % PAGE_SIZE == va % PAGE_SIZE;
    forall j: nat | j < k ensures ByteVa(va, j) in PageOf(va) {
      WithinPage(va, j);
    }
  }

  /** A chunk whose first k bytes spare its page's tables writes those bytes as one memcpy. */
  lemma SparedPrefix(cpu: Cpu, va: u32, data: seq<u8>, k: nat)
    requires var pa := ByteAddr(cpu, va, true).1;
      pa < RAM_SIZE && k <= |data| && k <= PAGE_SIZE - pa % PAGE_SIZE && PageSpared(cpu, va, pa, k)
    requires data != []
    ensures var (cpu1, pa) := ByteAddr(cpu, va, true);
      && pa + k <= RAM_SIZE && RangeSparesTables(cpu1, pa, k, PageOf(va))
      && WriteBytes(cpu, va, data)
         == WriteBytes(cpu1.(ram := Splice(cpu1.ram, pa, data[..k])), Wrap(va + k), data[k..])
  {
    hide ByteAddr, RangeSparesTables, PageSpared, Wrap, Within;
    WrapSmall(va);
    var (cpu1, pa) := ByteAddr(cpu, va, true);
    FirstByteFixesPage(cpu, va, true);
    LastByteOfPage(pa);
    ChunkInPage(cpu, va, k);
    SparedByPage(cpu, va, k);
    assert FixedAt(cpu1, va, pa, 0, true);
    assert WriteBytes(cpu1, va, data) == WriteBytes(cpu, va, data);
    hide FixedAt, WriteBytes;
    FixedChunkWrite(cpu1, va, pa, data, k, PageOf(va));
  }

  lemma SparedByPage(cpu: Cpu, va: u32, k: nat)
    requires PageSpared(cpu, va, ByteAddr(cpu, va, true).1, k)
    ensures var (cpu1, pa) := ByteAddr(cpu, va, true); RangeSparesTables(cpu1, pa, k, PageOf(va))
  {
    hide Walk, WalkReads, RamGrown, SameSpace;
    var (cpu1, pa) := ByteAddr(cpu, va, true);
    AddressingKeepsSpace(cpu, va, true, PageOf(va));
    if PagingOn(cpu1) {
      forall a: nat, v: u32 | pa <= a < pa + k && v in PageOf(va) ensures !WalkReads(cpu1.ram, cpu1.cr3, v, a) {
        ReadsByPage(cpu1.ram, cpu1.cr3, va, v, a);
        GrowthKeepsReads(cpu.ram, cpu1.ram, cpu.cr3, va, a);
      }
    }
  }

  lemma WriteChunk(cpu: Cpu, va: u32, data: seq<u8>)
    requires data != [] && ChunkSpares(cpu, va, |data|)
    ensures var (cpu1, pa) := ByteAddr(cpu, va, true);
      if pa >= RAM_SIZE then WriteBytes(cpu, va, data) == Stored(cpu1, false)
      else
        var k := ChunkSize(pa, |data|);
        && pa + k <= RAM_SIZE
        && var cpu2 := cpu1.(ram := Splice(cpu1.ram, pa, data[..k]));
        WriteBytes(cpu, va, data) == WriteBytes(cpu2, Wrap(va + k), data[k..])
  {
    hide ByteAddr, PageSpared, Wrap;
    var pa := ByteAddr(cpu, va, true).1;
    if pa < RAM_SIZE {
      hide WriteBytes;
      SparedPrefix(cpu, va, data, ChunkSize(pa, |data|));
    }
  }

  lemma {:induction false} CopyKeepsSpace(cpu: Cpu, pa: nat, d: seq<u8>, s: iset<u32>)
    requires pa + |d| <= RAM_SIZE && RangeSparesTables(cpu, pa, |d|, s)
    ensures SameSpace(cpu, cpu.(ram := Splice(cpu.ram, pa, d)), s)
    decreases |d|
  {
    hide SameSpace, InTables;
    if d == [] {
      assert Splice(cpu.ram, pa, d) == cpu.ram;
      SameSpaceReflexive(cpu, s);
    } else {
      var cpu1 := WithStore(cpu, pa, d[0]);
      StoreKeepsSpace(cpu, s, pa, d[0]);
      SameSpaceSameTargets(cpu, cpu1, s);
      CopyKeepsSpace(cpu1, pa + 1, d[1..], s);
      assert Splice(cpu1.ram, pa + 1, d[1..]) == Splice(cpu.ram, pa, d);
      SameSpaceTransitive(cpu, cpu1, cpu.(ram := Splice(cpu.ram, pa, d)), s);
    }
  }

  /** Byte j, the first to touch the tables of its page, clears the present bit of its directory entry; more bytes
      for the page follow and none for another. */
  ghost predicate UnmapsItself(cpu: Cpu, va: u32, data: seq<u8>, j: nat) {
    var pa := ByteAddr(cpu, va, true).1;
    && PagingOn(cpu) && pa < RAM_SIZE && j + 1 < |data| <= PAGE_SIZE - pa % PAGE_SIZE
    && pa + j == PdeAddr(cpu.cr3, va) && data[j] % 2 == 0
    && PageSpared(cpu, va, pa, j)
  }

  lemma UnmappingWriteFaults(cpu: Cpu, va: u32, data: seq<u8>, j: nat)
    requires UnmapsItself(cpu, va, data, j)
    ensures !WriteBytes(cpu, va, data).ok
  {
    hide WriteBytes, ByteAddr, PageSpared, PdeAddr, Wrap, RangeSparesTables, Splice, WithStore, PageOf;
    var (cpu1, pa) := ByteAddr(cpu, va, true);
    SparedPrefix(cpu, va, data, j);
    var cpu2 := cpu1.(ram := Splice(cpu1.ram, pa, data[..j]));
    ChunkInPage(cpu, va, |data|);
    WithinAt(va, |data|, PageOf(va), j);
    WithinAt(va, |data|, PageOf(va), j + 1);
    SameMode(cpu, va);
    TargetAfterPrefix(cpu1, cpu2, va, pa, data[..j]) by {
      FirstByteFixesPage(cpu, va, true);
      assert FixedAt(cpu1, va, pa, j, true);
    }
    NextByteFaults(cpu2, va, data, j);
  }

  lemma SameMode(cpu: Cpu, va: u32)
    ensures var cpu1 := ByteAddr(cpu, va, true).0; PagingOn(cpu1) == PagingOn(cpu) && cpu1.cr3 == cpu.cr3
  {
    hide Walk;
  }

  lemma TargetAfterPrefix(cpu: Cpu, cpu': Cpu, va: u32, pa: u32, d: seq<u8>)
    requires FixedAt(cpu, va, pa, |d|, true) && pa + |d| <= RAM_SIZE && cpu' == cpu.(ram := Splice(cpu.ram, pa, d))
    requires RangeSparesTables(cpu, pa, |d|, PageOf(va)) && ByteVa(va, |d|) in PageOf(va)
    ensures Target(cpu', va, |d|, true) == pa + |d|
  {
    hide ByteAddr, Wrap, SameSpace, RangeSparesTables, Splice, Settled, PageOf;
    CopyKeepsSpace(cpu, pa, d, PageOf(va));
    SameSpaceSameTargets(cpu, cpu', PageOf(va));
  }

  lemma NextByteFaults(cpu: Cpu, va: u32, data: seq<u8>, j: nat)
    requires PagingOn(cpu) && j + 1 < |data| && data[j] % 2 == 0
    requires Target(cpu, va, j, true) == PdeAddr(cpu.cr3, va) < RAM_SIZE && ByteVa(va, j + 1) in PageOf(va)
    ensures !WriteBytes(cpu, Wrap(va + j), data[j..]).ok
  {
    hide PdeAddr, Wrap, ByteAddr, PageOf;
    var (cpu1, pa) := ByteAddr(cpu, Wrap(va + j), true);
    SameMode(cpu, Wrap(va + j));
    var cpu2 := WithStore(cpu1, pa, data[j]);
    WrapAgain(va, j, 1);
    UnmappedAt(cpu2, va, ByteVa(va, j + 1));
    var rest := data[j..];
    assert rest[0] == data[j] && rest[1..] != [];
    assert !WriteBytes(cpu2, Wrap(va + (j + 1)), rest[1..]).ok;
  }

  lemma UnmappedAt(cpu: Cpu, va: u32, v: u32)
    requires PagingOn(cpu) && PdeAddr(cpu.cr3, va) < RAM_SIZE && cpu.ram[PdeAddr(cpu.cr3, va)] % 2 == 0 && v in PageOf(va)
    ensures ByteAddr(cpu, v, true).1 >= RAM_SIZE
  {
    hide AliasPa, PageBase, Read32, Large, Present, Writable;
    SamePage(va, v);
    TablesAreAligned(cpu.cr3, va);
    EvenWord(cpu.ram, PdeAddr(cpu.cr3, va));
  }

  /** A block that spares its tables spares those of its first page. */
  lemma FirstChunkSpared(cpu: Cpu, va: u32, n: nat, s: iset<u32>)
    requires n > 0 && SparesTables(cpu, va, n, s)
    ensures ChunkSpares(cpu, va, n)
    ensures var (cpu1, pa) := ByteAddr(cpu, va, true); pa < RAM_SIZE ==> RangeSparesTables(cpu1, pa, ChunkSize(pa, n), s)
  {
    hide ByteAddr, WalkReads, Wrap, SameSpace, RamGrown, Within;
    var (cpu1, pa) := ByteAddr(cpu, va, true);
    if pa < RAM_SIZE {
      WrapSmall(va);
      WithinTail(va, n, s);
      FirstByteFixesPage(cpu, va, true);
      AddressingKeepsSpace(cpu, va, true, s);
      SameSpaceSameTargets(cpu, cpu1, s);
      forall a: nat | pa <= a < pa + ChunkSize(pa, n) ensures !InTables(cpu, s, a) && !InTables(cpu1, s, a) {
        var j: nat := a - pa;
        WithinAt(va, n, s, j);
        assert FixedAt(cpu1, va, pa, j, true);
        assert Target(cpu1, va, j, true) == a;
        assert Target(cpu, va, j, true) == a;
      }
      if PagingOn(cpu) {
        forall a: nat | pa <= a < pa + ChunkSize(pa, n) ensures !WalkReads(cpu.ram, cpu.cr3, va, a) {
          assert !InTables(cpu, s, a);
        }
      }
    }
  }
}
