/** The executor's translation state, updated in place: RAM, both TLB arrays and the paging registers. */
module Mmu {
  import opened Words
  import opened Paging
  import opened SoftTlb
  import opened BlockCopy

  class Mmu {
    const ram: array<u8>
    const readTlb: array<Entry>
    const writeTlb: array<Entry>
    var cr0: u32
    var cr2: u32
    var cr3: u32
    var errorCode: u32
    var stopReason: u32

    ghost predicate Valid() {
      ram.Length == RAM_SIZE && readTlb.Length == ENTRIES && writeTlb.Length == ENTRIES && readTlb != writeTlb
    }

    ghost function View(): Machine
      requires Valid()
      reads this, ram, readTlb, writeTlb
    {
      Machine(Cpu(ram[..], cr0, cr2, cr3, errorCode, stopReason), Tlb(readTlb[..], writeTlb[..]))
    }

    constructor ()
      ensures Valid() && fresh(ram) && fresh(readTlb) && fresh(writeTlb)
      ensures Coherent(View())
    {
      ram := new u8[RAM_SIZE](_ => 0);
      readTlb := new Entry[ENTRIES](_ => Entry(INVALID_TAG, 0));
      writeTlb := new Entry[ENTRIES](_ => Entry(INVALID_TAG, 0));
      cr0, cr2, cr3, errorCode, stopReason := 0, 0, 0, 0, 0;
    }

    method MarkEntry(addr: u32, w: u32, write: bool)
      requires Valid() && addr + 4 <= RAM_SIZE
      modifies ram
      ensures ram[..] == MarkAt(old(ram[..]), addr, w, write)
    {
      if !Accessed(w) || (write && !Dirty(w)) {
        Store32(ram, addr, Mark(w, write));
      }
    }

    method Fault(va: u32, present: bool, write: bool, jit: bool) returns (pa: u32)
      requires Valid()
      modifies this
      ensures pa == NO_PA
      ensures View() == old(View()).(cpu := FaultState(old(View()).cpu, va, (if present then Protected(write) else NotPresent(write)).code, jit))
    {
      cr2 := va;
      errorCode := (if present then 1 else 0) + (if write then 2 else 0);
      if jit { stopReason := STOP_PAGE_FAULT; }
      pa := NO_PA;
    }

    method FillTlb(va: u32, pa: u32, write: bool)
      requires Valid()
      modifies readTlb, writeTlb
      ensures View() == old(View()).(tlb := old(View()).tlb.Fill(va, pa, write))
    {
      var i := va / PAGE_SIZE % ENTRIES;
      var e := Entry(va / PAGE_SIZE, PageBase(pa));
      if write { writeTlb[i] := e; }
      readTlb[i] := e;
    }

    /** translate_va, and translate_va_jit when `jit` is set. */
    method Translate(va: u32, write: bool, jit: bool) returns (pa: u32)
      requires Valid() && !Walk(ram[..], cr3, va, write).outcome.Escapes?
      modifies this, ram, readTlb, writeTlb
      ensures (View(), pa) == TranslateByTlb(old(View()), va, write, jit)
    {
      hide Walk;
      var e := if write then writeTlb[va / PAGE_SIZE % ENTRIES] else readTlb[va / PAGE_SIZE % ENTRIES];
      if e.tag == va / PAGE_SIZE {
        return e.page + va % PAGE_SIZE;
      }
      var mapped;
      pa, mapped := WalkTables(va, write, jit);
      if mapped { FillTlb(va, pa, write); }
    }

    /** The part of translate_va behind the TLB: the two table levels and their A/D bits. */
    method WalkTables(va: u32, write: bool, jit: bool) returns (pa: u32, mapped: bool)
      requires Valid() && Walk(ram[..], cr3, va, write).outcome != Escapes
      modifies this, ram
      ensures Valid()
      ensures (View().cpu, pa) == TranslateByWalk(old(View()).cpu, va, write, jit)
      ensures mapped == Walk(old(ram[..]), old(cr3), va, write).outcome.Mapped?
    {
      hide PdeAddr, PteAddr, Large, Present, Writable, LargePa, SmallPa, Read32, MarkAt;
      mapped := false;
      var pdeAddr := PdeAddr(cr3, va);
      if Wrap(pdeAddr + 4) > RAM_SIZE {
        pa := Fault(va, false, write, jit);
        return;
      }
      var pde := Load32(ram, pdeAddr);
      if !Present(pde) {
        pa := Fault(va, false, write, jit);
        return;
      }
      if Large(pde) {
        if write && !Writable(pde) {
          pa := Fault(va, true, write, jit);
          return;
        }
        MarkEntry(pdeAddr, pde, write);
        return LargePa(pde, va), true;
      }
      var pteAddr := PteAddr(pde, va);
      if Wrap(pteAddr + 4) > RAM_SIZE {
        pa := Fault(va, false, write, jit);
        return;
      }
      var pte := Load32(ram, pteAddr);
      if !Present(pte) {
        pa := Fault(va, false, write, jit);
        return;
      }
      if write && !Writable(pte) {
        pa := Fault(va, true, write, jit);
        return;
      }
      MarkEntry(pdeAddr, pde, false);
      MarkEntry(pteAddr, pte, write);
      return SmallPa(pte, va), true;
    }

    method Flush()
      requires Valid()
      modifies readTlb, writeTlb
      ensures View() == old(View()).(tlb := old(View()).tlb.Flushed())
    {
      for i := 0 to ENTRIES
        invariant forall k :: 0 <= k < i ==> readTlb[k] == old(readTlb[k]).(tag := INVALID_TAG)
        invariant forall k :: i <= k < ENTRIES ==> readTlb[k] == old(readTlb[k])
        invariant writeTlb[..] == old(writeTlb[..])
      {
        readTlb[i] := readTlb[i].(tag := INVALID_TAG);
      }
      for i := 0 to ENTRIES
        invariant forall k :: 0 <= k < i ==> writeTlb[k] == old(writeTlb[k]).(tag := INVALID_TAG)
        invariant forall k :: i <= k < ENTRIES ==> writeTlb[k] == old(writeTlb[k])
        invariant forall k :: 0 <= k < ENTRIES ==> readTlb[k] == old(readTlb[k]).(tag := INVALID_TAG)
      {
        writeTlb[i] := writeTlb[i].(tag := INVALID_TAG);
      }
      assert readTlb[..] == old(View()).tlb.Flushed().read;
      assert writeTlb[..] == old(View()).tlb.Flushed().write;
    }

    method Invlpg(va: u32)
      requires Valid()
      modifies readTlb, writeTlb
      ensures View() == StepByTlb(old(View()), Event.Invlpg(va)).0
    {
      var i := va / PAGE_SIZE % ENTRIES;
      if readTlb[i].tag == va / PAGE_SIZE { readTlb[i] := readTlb[i].(tag := INVALID_TAG); }
      if writeTlb[i].tag == va / PAGE_SIZE { writeTlb[i] := writeTlb[i].(tag := INVALID_TAG); }
    }

    method MovCr0(v: u32)
      requires Valid()
      modifies this, readTlb, writeTlb
      ensures View() == StepByTlb(old(View()), Event.MovCr0(v)).0
    {
      cr0 := v;
      Flush();
    }

    method MovCr3(v: u32)
      requires Valid()
      modifies this, readTlb, writeTlb
      ensures View() == StepByTlb(old(View()), Event.MovCr3(v)).0
    {
      cr3 := v;
      Flush();
    }

    /** One byte of a block: with paging on a TLB translation, otherwise the address itself. */
    method Locate(va: u32, write: bool) returns (pa: u32)
      requires Valid() && Inside(View(), va, write)
      modifies this, ram, readTlb, writeTlb
      ensures (View(), pa) == LocateByTlb(old(View()), va, write)
    {
      hide Walk, TranslateByTlb;
      if cr0 >= 0x8000_0000 {
        pa := Translate(va, write, false);
      } else {
        pa := va;
      }
    }

    /** read_guest_block: one translation and one memcpy per page chunk. */
    method ReadGuestBlock(start: u32, count: u32) returns (ok: bool, data: seq<u8>)
      requires Valid() && ReadsInside(View(), start, count)
      modifies this, ram, readTlb, writeTlb
      ensures ChunksRead(View(), data, ok) == ReadByChunks(old(View()), start, count)
    {
      hide ReadByChunks, ReadsInside, LocateByTlb, Prefixed, Inside, Wrap;
      var va: u32, size: nat := start, count;
      data := [];
      ghost var whole := ReadByChunks(View(), start, count);
      PrefixNone(whole);
      while size > 0
        invariant ReadsInside(View(), va, size)
        invariant whole == Prefixed(data, ReadByChunks(View(), va, size))
      {
        ghost var left := ReadByChunks(View(), va, size);
        ReadStep(View(), va, size);
        var pa := Locate(va, false);
        if pa >= RAM_SIZE {
          PrefixLast(data, View(), false);
          return false, data;
        }
        var remain := PAGE_SIZE - pa % PAGE_SIZE;
        var chunk := if size < remain then size else remain;
        PrefixTwice(data, ram[pa..pa + chunk], ReadByChunks(View(), Wrap(va + chunk), size - chunk), left);
        data := data + ram[pa..pa + chunk];
        va, size := Wrap(va + chunk), size - chunk;
      }
      NoChunk(View(), va);
      PrefixLast(data, View(), true);
      return true, data;
    }

    /** write_guest_block: one translation and one memcpy per page chunk. */
    method WriteGuestBlock(start: u32, data: seq<u8>) returns (ok: bool)
      requires Valid() && WritesInside(View(), start, data)
      modifies this, ram, readTlb, writeTlb
      ensures (View(), ok) == WriteByChunks(old(View()), start, data)
    {
      hide TranslateByTlb, Splice, Wrap, PagingOn, Walk;
      var va, src := start, data;
      while src != []
        invariant WritesInside(View(), va, src)
        invariant WriteByChunks(View(), va, src) == WriteByChunks(old(View()), start, data)
        decreases |src|
      {
        var pa := Locate(va, true);
        if pa >= RAM_SIZE {
          return false;
        }
        LastByteOfPage(pa);
        var remain := PAGE_SIZE - pa % PAGE_SIZE;
        var chunk := if |src| < remain then |src| else remain;
        CopyIn(pa, src[..chunk]);
        va, src := Wrap(va + chunk), src[chunk..];
      }
      return true;
    }

    /** memcpy into RAM. */
    method CopyIn(pa: nat, d: seq<u8>)
      requires Valid() && pa + |d| <= RAM_SIZE
      modifies ram
      ensures View() == old(View()).(cpu := old(View()).cpu.(ram := Splice(old(View()).cpu.ram, pa, d)))
    {
      for k := 0 to |d|
        invariant ram[..] == Splice(old(ram[..]), pa, d[..k])
      {
        ram[pa + k] := d[k];
        assert d[..k + 1] == d[..k] + [d[k]];
      }
      assert d[..|d|] == d;
    }
  }

  // ---- What chunked copies are ----

  function LocateByTlb(m: Machine, va: u32, write: bool): (r: (Machine, u32))
    requires m.tlb.Sized()
    ensures r.0.tlb.Sized()
  {
    if PagingOn(m.cpu) then TranslateByTlb(m, va, write, false) else (m, va)
  }

  datatype ChunksRead = ChunksRead(m: Machine, data: seq<u8>, ok: bool)

  /** Chunk by chunk, through whatever the TLB holds. */
  function ReadByChunks(m: Machine, va: u32, n: nat): ChunksRead
    requires m.tlb.Sized()
    decreases n
  {
    if n == 0 then ChunksRead(m, [], true)
    else
      var (m1, pa) := LocateByTlb(m, va, false);
      if pa >= RAM_SIZE then ChunksRead(m1, [], false)
      else
        var k := ChunkSize(pa, n);
        LastByteOfPage(pa);
        var rest := ReadByChunks(m1, Wrap(va + k), n - k);
        rest.(data := m1.cpu.ram[pa..pa + k] + rest.data)
  }

  /** The machine after a chunk of a write was copied to pa. */
  function CopiedTo(m: Machine, pa: nat, d: seq<u8>): Machine
    requires pa + |d| <= RAM_SIZE
  {
    m.(cpu := m.cpu.(ram := Splice(m.cpu.ram, pa, d)))
  }

  function WriteByChunks(m: Machine, va: u32, data: seq<u8>): (Machine, bool)
    requires m.tlb.Sized()
    decreases |data|
  {
    if data == [] then (m, true)
    else
      var (m1, pa) := LocateByTlb(m, va, true);
      if pa >= RAM_SIZE then (m1, false)
      else
        var k := ChunkSize(pa, |data|);
        LastByteOfPage(pa);
        WriteByChunks(CopiedTo(m1, pa, data[..k]), Wrap(va + k), data[k..])
  }

  /** No walk for the byte overruns memory. */
  predicate Inside(m: Machine, va: u32, write: bool) {
    PagingOn(m.cpu) ==> !Walk(m.cpu.ram, m.cpu.cr3, va, write).outcome.Escapes?
  }

  /** No walk on the way overruns memory. */
  predicate ReadsInside(m: Machine, va: u32, n: nat)
    requires m.tlb.Sized()
    decreases n
  {
    n == 0 ||
    (&& Inside(m, va, false)
     && var (m1, pa) := LocateByTlb(m, va, false);
     pa < RAM_SIZE ==> var k := ChunkSize(pa, n); ReadsInside(m1, Wrap(va + k), n - k))
  }

  predicate WritesInside(m: Machine, va: u32, data: seq<u8>)
    requires m.tlb.Sized()
    decreases |data|
  {
    data == [] ||
    (&& Inside(m, va, true)
     && var (m1, pa) := LocateByTlb(m, va, true);
     pa < RAM_SIZE ==>
       var k := ChunkSize(pa, |data|);
       LastByteOfPage(pa);
       WritesInside(CopiedTo(m1, pa, data[..k]), Wrap(va + k), data[k..]))
  }

  lemma NoChunk(m: Machine, va: u32)
    requires m.tlb.Sized()
    ensures ReadByChunks(m, va, 0) == ChunksRead(m, [], true)
  {
  }

  lemma ReadStep(m: Machine, va: u32, n: nat)
    requires n > 0 && m.tlb.Sized() && ReadsInside(m, va, n)
    ensures Inside(m, va, false)
    ensures var (m1, pa) := LocateByTlb(m, va, false);
      if pa >= RAM_SIZE then ReadByChunks(m, va, n) == ChunksRead(m1, [], false)
      else
        var k := ChunkSize(pa, n);
        var rest := ReadByChunks(m1, Wrap(va + k), n - k);
        && pa + k <= RAM_SIZE && ReadsInside(m1, Wrap(va + k), n - k)
        && ReadByChunks(m, va, n) == rest.(data := m1.cpu.ram[pa..pa + k] + rest.data)
  {
    hide LocateByTlb, Wrap;
    var pa := LocateByTlb(m, va, false).1;
    if pa < RAM_SIZE { LastByteOfPage(pa); }
  }

  function Prefixed(d: seq<u8>, c: ChunksRead): ChunksRead { c.(data := d + c.data) }

  lemma PrefixNone(c: ChunksRead)
    ensures Prefixed([], c) == c
  {
    assert [] + c.data == c.data;
  }

  lemma PrefixTwice(d: seq<u8>, e: seq<u8>, c: ChunksRead, whole: ChunksRead)
    requires whole == c.(data := e + c.data)
    ensures Prefixed(d, whole) == Prefixed(d + e, c)
  {
    assert d + (e + c.data) == (d + e) + c.data;
  }

  lemma PrefixLast(d: seq<u8>, m: Machine, ok: bool)
    ensures Prefixed(d, ChunksRead(m, [], ok)) == ChunksRead(m, d, ok)
  {
    assert d + [] == d;
  }

  // ---- Chunked copies translate and copy byte by byte ----

  /** With paging on: every entry is true but for those in the slots of `stale`. */
  predicate Known(m: Machine, stale: set<SlotId>) { PagingOn(m.cpu) ==> CoherentBut(m, stale) }

  /** With paging on: translating va hits no stale entry and its walk does not overrun memory. */
  predicate MayLocate(m: Machine, stale: set<SlotId>, va: u32, write: bool)
    requires m.tlb.Sized()
  {
    PagingOn(m.cpu) ==> Allowed(m, stale, Event.Translate(va, write, false))
  }

  function StaleAfterLocate(m: Machine, stale: set<SlotId>, va: u32, write: bool): set<SlotId>
    requires m.tlb.Sized()
  {
    if PagingOn(m.cpu) then StaleAfter(m, stale, Event.Translate(va, write, false)) else stale
  }

  lemma LocateIsByteAddr(m: Machine, stale: set<SlotId>, va: u32, write: bool)
    requires m.tlb.Sized() && Known(m, stale) && MayLocate(m, stale, va, write)
    ensures Inside(m, va, write)
    ensures var (m1, pa) := LocateByTlb(m, va, write);
      Known(m1, StaleAfterLocate(m, stale, va, write)) && (m1.cpu, pa) == ByteAddr(m.cpu, va, write)
  {
    hide Walk, CoherentBut, StaleAfter;
    if PagingOn(m.cpu) {
      StepTransparent(m, stale, Event.Translate(va, write, false));
    }
  }

  lemma FewerStale(m: Machine, stale: set<SlotId>, stale': set<SlotId>)
    requires Known(m, stale') && stale' <= stale
    ensures Known(m, stale)
  {
    hide EntryTrue;
  }

  /** No translation of the read hits a stale entry and no walk overruns memory. */
  predicate ReadsAllowed(m: Machine, stale: set<SlotId>, va: u32, n: nat)
    requires m.tlb.Sized()
    decreases n
  {
    n == 0 ||
    (&& MayLocate(m, stale, va, false)
     && var (m1, pa) := LocateByTlb(m, va, false);
     pa < RAM_SIZE ==>
       var k := ChunkSize(pa, n);
       ReadsAllowed(m1, StaleAfterLocate(m, stale, va, false), Wrap(va + k), n - k))
  }

  /** A chunked read is the bytewise one: same data, same outcome, same memory and fault state. */
  lemma {:induction false} ReadChunksAreBytes(m: Machine, stale: set<SlotId>, va: u32, n: nat)
    requires m.tlb.Sized() && Known(m, stale) && ReadsAllowed(m, stale, va, n)
    ensures ReadsInside(m, va, n)
    ensures var r := ReadByChunks(m, va, n);
      Copied(r.m.cpu, r.data, r.ok) == ReadBytes(m.cpu, va, n) && Known(r.m, stale)
    decreases n
  {
    hide ReadBytes, ByteAddr, LocateByTlb, Known, MayLocate, Inside, Wrap;
    if n == 0 {
      NothingLeft(m.cpu, va);
    } else {
      ReadChunk(m.cpu, va, n);
      LocateIsByteAddr(m, stale, va, false);
      var (m1, pa) := LocateByTlb(m, va, false);
      var stale1 := StaleAfterLocate(m, stale, va, false);
      FewerStale(m1, stale, stale1);
      if pa < RAM_SIZE {
        var k := ChunkSize(pa, n);
        ReadChunksAreBytes(m1, stale1, Wrap(va + k), n - k);
        FewerStale(ReadByChunks(m, va, n).m, stale, stale1);
      }
    }
  }

  lemma NothingLeft(cpu: Cpu, va: u32)
    ensures ReadBytes(cpu, va, 0) == Copied(cpu, [], true) && WriteBytes(cpu, va, []) == Stored(cpu, true)
  {
  }

  /** Copying n bytes to pa changes a table word that the walk of a live entry reads. */
  ghost predicate CopyUndermines(cpu: Cpu, e: Entry, pa: nat, n: nat) {
    exists a: nat :: pa <= a < pa + n && Undermines(cpu, e, a)
  }

  ghost function StaleAfterCopy(m: Machine, stale: set<SlotId>, pa: nat, n: nat): set<SlotId>
    requires m.tlb.Sized()
  {
    stale + (set i: nat | i < ENTRIES && CopyUndermines(m.cpu, m.tlb.read[i], pa, n) :: ReadSlot(i))
          + (set i: nat | i < ENTRIES && CopyUndermines(m.cpu, m.tlb.write[i], pa, n) :: WriteSlot(i))
  }

  lemma {:induction false} EntrySurvivesCopy(cpu: Cpu, pa: nat, d: seq<u8>, e: Entry, slot: nat, write: bool)
    requires pa + |d| <= RAM_SIZE && EntryTrue(cpu, e, slot, write) && !CopyUndermines(cpu, e, pa, |d|)
    ensures EntryTrue(cpu.(ram := Splice(cpu.ram, pa, d)), e, slot, write)
    decreases |d|
  {
    hide EntryTrue, WalkReads;
    if d == [] {
      assert Splice(cpu.ram, pa, d) == cpu.ram;
    } else {
      var cpu1 := WithStore(cpu, pa, d[0]);
      assert !Undermines(cpu, e, pa);
      EntrySurvivesStore(cpu, pa, d[0], e, slot, write);
      forall a: nat | pa + 1 <= a < pa + |d| ensures !Undermines(cpu1, e, a) {
        assert !Undermines(cpu, e, a);
        if e.tag < 0x10_0000 { StoreKeepsReads(cpu.ram, cpu.cr3, e.tag * PAGE_SIZE, pa, d[0], a); }
      }
      EntrySurvivesCopy(cpu1, pa + 1, d[1..], e, slot, write);
      assert Splice(cpu1.ram, pa + 1, d[1..]) == Splice(cpu.ram, pa, d);
    }
  }

  lemma CopyKeepsKnown(m: Machine, stale: set<SlotId>, pa: nat, d: seq<u8>)
    requires m.tlb.Sized() && pa + |d| <= RAM_SIZE && Known(m, stale)
    ensures Known(CopiedTo(m, pa, d), StaleAfterCopy(m, stale, pa, |d|))
  {
    hide EntryTrue, CopyUndermines, Splice;
    if PagingOn(m.cpu) {
      var m', stale' := CopiedTo(m, pa, d), StaleAfterCopy(m, stale, pa, |d|);
      forall i: nat | i < ENTRIES
        ensures ReadSlot(i) !in stale' ==> EntryTrue(m'.cpu, m'.tlb.read[i], i, false)
        ensures WriteSlot(i) !in stale' ==> EntryTrue(m'.cpu, m'.tlb.write[i], i, true)
      {
        if ReadSlot(i) !in stale' { EntrySurvivesCopy(m.cpu, pa, d, m.tlb.read[i], i, false); }
        if WriteSlot(i) !in stale' { EntrySurvivesCopy(m.cpu, pa, d, m.tlb.write[i], i, true); }
      }
    }
  }

  /** No translation of the write hits a stale entry, entries undermined by an earlier chunk included, no walk
      overruns memory, and no chunk lands on the table words that translate its own page. */
  ghost predicate WritesAllowed(m: Machine, stale: set<SlotId>, va: u32, data: seq<u8>)
    requires m.tlb.Sized()
    decreases |data|
  {
    data == [] ||
    (&& MayLocate(m, stale, va, true) && ChunkSpares(m.cpu, va, |data|)
     && var (m1, pa) := LocateByTlb(m, va, true);
     pa < RAM_SIZE ==>
       var k := ChunkSize(pa, |data|);
       LastByteOfPage(pa);
       var stale1 := StaleAfterCopy(m1, StaleAfterLocate(m, stale, va, true), pa, k);
       WritesAllowed(CopiedTo(m1, pa, data[..k]), stale1, Wrap(va + k), data[k..]))
  }

  /** The entries that a chunked write leaves stale. */
  ghost function StaleAfterWrite(m: Machine, stale: set<SlotId>, va: u32, data: seq<u8>): set<SlotId>
    requires m.tlb.Sized()
    decreases |data|
  {
    if data == [] then stale
    else
      var (m1, pa) := LocateByTlb(m, va, true);
      var stale1 := StaleAfterLocate(m, stale, va, true);
      if pa >= RAM_SIZE then stale1
      else
        var k := ChunkSize(pa, |data|);
        LastByteOfPage(pa);
        StaleAfterWrite(CopiedTo(m1, pa, data[..k]), StaleAfterCopy(m1, stale1, pa, k), Wrap(va + k), data[k..])
  }

  /** A chunked write is the bytewise one: same memory, same outcome, and what it left stale is known. */
  lemma {:induction false} WriteChunksAreBytes(m: Machine, stale: set<SlotId>, va: u32, data: seq<u8>)
    requires m.tlb.Sized() && Known(m, stale) && WritesAllowed(m, stale, va, data)
    ensures WritesInside(m, va, data)
    ensures var (m', ok) := WriteByChunks(m, va, data);
      Stored(m'.cpu, ok) == WriteBytes(m.cpu, va, data) && Known(m', StaleAfterWrite(m, stale, va, data))
    decreases |data|
  {
    hide WriteBytes, ByteAddr, LocateByTlb, Known, MayLocate, Inside, ChunkSpares, Splice, Wrap;
    hide StaleAfterCopy, StaleAfterLocate;
    if data == [] {
      NothingLeft(m.cpu, va);
    } else {
      WriteChunk(m.cpu, va, data);
      LocateIsByteAddr(m, stale, va, true);
      var (m1, pa) := LocateByTlb(m, va, true);
      if pa < RAM_SIZE {
        var k := ChunkSize(pa, |data|);
        var stale1 := StaleAfterLocate(m, stale, va, true);
        CopyKeepsKnown(m1, stale1, pa, data[..k]);
        WriteChunksAreBytes(CopiedTo(m1, pa, data[..k]), StaleAfterCopy(m1, stale1, pa, k), Wrap(va + k), data[k..]);
      }
    }
  }

  /** Sparing its own page's table words is needed: a chunk that clears the present bit of its page's directory
      entry, with bytes still to come, is stored as a whole, while byte by byte the write faults. */
  lemma UnmappingWriteDiffers(m: Machine, stale: set<SlotId>, va: u32, data: seq<u8>, j: nat)
    requires m.tlb.Sized() && Known(m, stale) && MayLocate(m, stale, va, true) && UnmapsItself(m.cpu, va, data, j)
    ensures WriteByChunks(m, va, data).1 && !WriteBytes(m.cpu, va, data).ok
  {
    hide ByteAddr, WalkReads, WriteBytes, Splice;
    LocateIsByteAddr(m, stale, va, true);
    UnmappingWriteFaults(m.cpu, va, data, j);
  }

  // ---- When a block copy may go through the TLB ----

  /** With paging on: no address of s hits a stale entry or has a walk that overruns memory. */
  ghost predicate Clear(m: Machine, stale: set<SlotId>, s: iset<u32>, write: bool)
    requires m.tlb.Sized()
  {
    forall va: u32 :: va in s ==> MayLocate(m, stale, va, write)
  }

  lemma LocateKeepsClear(m: Machine, stale: set<SlotId>, va: u32, s: iset<u32>, write: bool)
    requires m.tlb.Sized() && Clear(m, stale, s, write)
    ensures Clear(LocateByTlb(m, va, write).0, StaleAfterLocate(m, stale, va, write), s, write)
  {
    hide Walk, RamGrown;
    if PagingOn(m.cpu) {
      var m1, stale1 := LocateByTlb(m, va, write).0, StaleAfterLocate(m, stale, va, write);
      WalkGrows(m.cpu.ram, m.cpu.cr3, va, write);
      RamGrownIsReflexive(m.cpu.ram);
      forall v: u32 | v in s ensures MayLocate(m1, stale1, v, write) {
        assert MayLocate(m, stale, v, write);
        GrowthKeepsOutcome(m.cpu.ram, m1.cpu.ram, m.cpu.cr3, v, write);
      }
    }
  }

  /** An entry that an address of s hits is not undermined by a copy that spares the tables of s. */
  lemma HitNotUndermined(cpu: Cpu, e: Entry, va: u32, pa: nat, n: nat, s: iset<u32>)
    requires PagingOn(cpu) && va in s && e.tag == va / PAGE_SIZE && RangeSparesTables(cpu, pa, n, s)
    ensures !CopyUndermines(cpu, e, pa, n)
  {
    hide WalkReads;
    FirstOfPage(va);
    forall a: nat | pa <= a < pa + n ensures !Undermines(cpu, e, a) {
      assert !InTables(cpu, s, a);
      assert !WalkReads(cpu.ram, cpu.cr3, va, a);
      ReadsByPage(cpu.ram, cpu.cr3, va, va / PAGE_SIZE * PAGE_SIZE, a);
    }
  }

  lemma CopyKeepsClear(m: Machine, stale: set<SlotId>, pa: nat, d: seq<u8>, s: iset<u32>)
    requires m.tlb.Sized() && Clear(m, stale, s, true)
    requires pa + |d| <= RAM_SIZE && RangeSparesTables(m.cpu, pa, |d|, s)
    ensures Clear(CopiedTo(m, pa, d), StaleAfterCopy(m, stale, pa, |d|), s, true)
    ensures SameSpace(m.cpu, CopiedTo(m, pa, d).cpu, s)
  {
    hide Walk, CopyUndermines, Splice, RangeSparesTables, WalkReads;
    CopyKeepsSpace(m.cpu, pa, d, s);
    var m', stale' := CopiedTo(m, pa, d), StaleAfterCopy(m, stale, pa, |d|);
    if PagingOn(m.cpu) {
      forall va: u32 | va in s ensures MayLocate(m', stale', va, true) {
        assert MayLocate(m, stale, va, true);
        var e := m.tlb.Slot(va, true);
        if e.tag == va / PAGE_SIZE { HitNotUndermined(m.cpu, e, va, pa, |d|, s); }
      }
    }
  }

  /** A read may go through the TLB when no address of the block hits a stale entry. */
  lemma {:induction false} ClearBlockReads(m: Machine, stale: set<SlotId>, va: u32, n: nat, s: iset<u32>)
    requires m.tlb.Sized() && Clear(m, stale, s, false) && Within(va, n, s)
    ensures ReadsAllowed(m, stale, va, n)
    decreases n
  {
    hide LocateByTlb, StaleAfterLocate, MayLocate, Wrap;
    if n > 0 {
      assert va in s by { WithinTail(va, n, s); }
      LocateKeepsClear(m, stale, va, s, false);
      var (m1, pa) := LocateByTlb(m, va, false);
      if pa < RAM_SIZE {
        var k := ChunkSize(pa, n);
        WithinFrom(va, n, s, k);
        ClearBlockReads(m1, StaleAfterLocate(m, stale, va, false), Wrap(va + k), n - k, s);
      }
    }
  }

  lemma WithinFrom(va: u32, n: nat, s: iset<u32>, k: nat)
    requires Within(va, n, s) && k <= n
    ensures Within(Wrap(va + k), n - k, s)
  {
    hide Wrap;
    var va' := Wrap(va + k);
    forall j: nat | j < n - k ensures ByteVa(va', j) in s {
      WrapAgain(va, k, j);
      assert ByteVa(va, k + j) in s;
    }
  }

  /** A write may go through the TLB when moreover none of its bytes goes to the tables of the block itself. */
  lemma {:induction false} ClearBlockWrites(m: Machine, stale: set<SlotId>, va: u32, data: seq<u8>, s: iset<u32>)
    requires m.tlb.Sized() && Known(m, stale) && Clear(m, stale, s, true) && SparesTables(m.cpu, va, |data|, s)
    ensures WritesAllowed(m, stale, va, data)
    decreases |data|
  {
    hide ByteAddr, LocateByTlb, StaleAfterLocate, StaleAfterCopy, MayLocate, Wrap, Known, ChunkSpares, Splice;
    hide SparesTables, SameSpace, RangeSparesTables;
    if data != [] {
      SparedIsWithin(m.cpu, va, |data|, s);
      FirstChunkSpared(m.cpu, va, |data|, s);
      LocateIsByteAddr(m, stale, va, true);
      LocateKeepsClear(m, stale, va, s, true);
      var (m1, pa) := LocateByTlb(m, va, true);
      if pa < RAM_SIZE {
        var k := ChunkSize(pa, |data|);
        var stale1 := StaleAfterLocate(m, stale, va, true);
        LastByteOfPage(pa);
        CopyKeepsKnown(m1, stale1, pa, data[..k]);
        CopyKeepsClear(m1, stale1, pa, data[..k], s);
        var m2 := CopiedTo(m1, pa, data[..k]);
        AddressingKeepsSpace(m.cpu, va, true, s);
        SameSpaceTransitive(m.cpu, m1.cpu, m2.cpu, s);
        ChunkKeepsSpared(m.cpu, va, |data|, m2.cpu, k, s);
        ClearBlockWrites(m2, StaleAfterCopy(m1, stale1, pa, k), Wrap(va + k), data[k..], s);
      }
    }
  }

  lemma SparedIsWithin(cpu: Cpu, va: u32, n: nat, s: iset<u32>)
    requires n > 0 && SparesTables(cpu, va, n, s)
    ensures va in s
  {
    hide InTables;
    WithinTail(va, n, s);
  }

  /** After a chunk the rest of the block still spares the tables. */
  lemma ChunkKeepsSpared(cpu: Cpu, va: u32, n: nat, cpu': Cpu, k: nat, s: iset<u32>)
    requires k <= n && SparesTables(cpu, va, n, s) && SameSpace(cpu, cpu', s)
    ensures SparesTables(cpu', Wrap(va + k), n - k, s)
  {
    hide SameSpace, TableByte, ByteAddr, Within, Wrap;
    SameSpaceSameTargets(cpu, cpu', s);
    WithinFrom(va, n, s, k);
    var va' := Wrap(va + k);
    forall i: nat | i < n - k ensures Target(cpu', va', i, true) == Target(cpu, va, k + i, true) {
      WrapAgain(va, k, i);
      WithinAt(va, n, s, k + i);
    }
  }
}
