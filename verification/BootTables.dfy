/** The page directory nboxkrnl boots with, and the one address space it realises. */
module BootTables {
  import opened Words
  import opened Paging
  import opened SoftTlb
  import opened BlockCopy

  const PAGE_DIR: u32 := 0xF000

  /** Directory entry i after setup. */
  function BootEntry(i: nat): u32
    requires i < 0x400
  {
    if i < 32 then i * 0x40_0000 + 0xE3
    else if 0x200 <= i < 0x220 then 0x8000_0000 + (i - 0x200) * 0x40_0000 + 0xE3
    else if i == 0x300 then PAGE_DIR + 0x63
    else 0
  }

  /** The directory's words. */
  function Directory(ram: Ram): (d: seq<u32>)
    ensures |d| == 0x400
  {
    seq(0x400, i requires 0 <= i < 0x400 => Read32(ram, PAGE_DIR + 4 * i))
  }

  predicate TablesInPlace(ram: Ram) {
    forall i: nat :: i < 0x400 ==> Directory(ram)[i] == BootEntry(i)
  }

  predicate SameOutside(m: Ram, m': Ram) {
    forall a :: 0 <= a < RAM_SIZE && !(PAGE_DIR <= a < PAGE_DIR + PAGE_SIZE) ==> m'[a] == m[a]
  }

  /** What each virtual address means: identity, kernel mirror, the self-map window, or nothing. */
  function BootSpace(va: u32, write: bool): Outcome {
    if va < RAM_SIZE then Mapped(va)
    else if 0x8000_0000 <= va < 0x8000_0000 + RAM_SIZE then Mapped(va - 0x8000_0000)
    else if 0xC000_0000 <= va < 0xC040_0000 then
      // The directory read as a page table: entry `slot` names a frame.
      var slot, off := (va - 0xC000_0000) / PAGE_SIZE, va % PAGE_SIZE;
      if slot < 32 then Mapped(slot * LARGE_SIZE + off)
      else if 0x200 <= slot < 0x220 then Mapped((slot - 0x200) * LARGE_SIZE + off)
      else if slot == 0x300 then Mapped(PAGE_DIR + off)
      else NotPresent(write)
    else NotPresent(write)
  }

  method PutEntry(ram: array<u8>, i: nat, w: u32)
    requires ram.Length == RAM_SIZE && i < 0x400
    modifies ram
    ensures Directory(ram[..]) == Directory(old(ram[..]))[i := w]
    ensures SameOutside(old(ram[..]), ram[..])
  {
    hide Word, ByteOf;
    Store32(ram, PAGE_DIR + 4 * i, w);
    forall k: nat | k < 0x400 ensures Directory(ram[..])[k] == Directory(old(ram[..]))[i := w][k] {
      ReadAfterWrite(old(ram[..]), PAGE_DIR + 4 * i, w, PAGE_DIR + 4 * k);
    }
  }

  /** setup_page_tables: clear the directory page, then three groups of entries. */
  method SetupPageTables(ram: array<u8>)
    requires ram.Length == RAM_SIZE
    modifies ram
    ensures TablesInPlace(ram[..]) && SameOutside(old(ram[..]), ram[..])
  {
    for a := PAGE_DIR to PAGE_DIR + PAGE_SIZE
      invariant forall k :: PAGE_DIR <= k < a ==> ram[k] == 0
      invariant SameOutside(old(ram[..]), ram[..])
    {
      ram[a] := 0;
    }
    assert forall k: nat :: k < 0x400 ==> Directory(ram[..])[k] == 0;
    for i: nat := 0 to 32
      invariant SameOutside(old(ram[..]), ram[..])
      invariant forall k: nat :: k < 0x400 ==> Directory(ram[..])[k] == if k < i then BootEntry(k) else 0
    {
      PutEntry(ram, i, i * 0x40_0000 + 0xE3);
    }
    for i: nat := 0 to 32
      invariant SameOutside(old(ram[..]), ram[..])
      invariant forall k: nat :: k < 0x400 ==>
        Directory(ram[..])[k] == if k < 32 || 0x200 <= k < 0x200 + i then BootEntry(k) else 0
    {
      PutEntry(ram, 0x200 + i, 0x8000_0000 + i * 0x40_0000 + 0xE3);
    }
    PutEntry(ram, 0x300, PAGE_DIR + 0x63);
  }

  /** The flag bits and base of a large-page entry. */
  lemma LargeEntry(i: nat)
    requires i < 0x400
    ensures 0 <= i * 0x40_0000 + 0xE3 < TWO_32
    ensures var w: u32 := i * 0x40_0000 + 0xE3;
      Present(w) && Writable(w) && Large(w) && Marked(w, true) && w / LARGE_SIZE == i && PageBase(w) == i * LARGE_SIZE
  {
    var w: nat := i * 0x40_0000 + 0xE3;
    assert w / LARGE_SIZE == i && w % PAGE_SIZE == 0xE3 by {
      Unique(w, 0x40_0000, i, 0xE3);
      Unique(w, 0x1000, i * 0x400, 0xE3);
    }
    OddQuotient(w, 1, i * 0x20_0000 + 0x71, 0);
    OddQuotient(w, 2, i * 0x10_0000 + 0x38, 1);
    OddQuotient(w, 0x20, i * 0x1_0000 + 3, 3);
    OddQuotient(w, 0x40, i * 0x8000 + 1, 0x23);
    OddQuotient(w, 0x80, i * 0x4000, 0x63);
  }

  lemma OddQuotient(w: nat, d: nat, q: nat, r: nat)
    requires r < d && w == d * (2 * q + 1) + r
    ensures w / d % 2 == 1
  {
    Unique(w, d, 2 * q + 1, r);
  }

  lemma EntryRead(ram: Ram, i: nat)
    requires TablesInPlace(ram) && i < 0x400
    ensures Read32(ram, PAGE_DIR + 4 * i) == BootEntry(i)
  {
    hide Read32;
    assert Directory(ram)[i] == BootEntry(i);
  }

  lemma BootPde(va: u32)
    ensures AliasPa(PageBase(PAGE_DIR)) == PAGE_DIR && PdeAddr(PAGE_DIR, va) == PAGE_DIR + 4 * (va / LARGE_SIZE)
    ensures va / LARGE_SIZE < 0x400 && InRam(PdeAddr(PAGE_DIR, va))
  {
  }

  /** A large-page entry at directory index va / 4M maps va and leaves memory alone. */
  lemma LargeWalk(ram: Ram, va: u32, write: bool, i: nat)
    requires TablesInPlace(ram) && i < 0x400
    requires BootEntry(va / LARGE_SIZE) == i * 0x40_0000 + 0xE3
    ensures 0 <= i * 0x40_0000 + va % LARGE_SIZE < TWO_32
    ensures Walk(ram, PAGE_DIR, va, write) == Walked(Mapped(AliasPa(i * 0x40_0000 + va % LARGE_SIZE)), ram)
  {
    hide Read32, Present, Writable, Large, AliasPa, PageBase, TablesInPlace, BootEntry, PdeAddr, PastEnd, Overruns;
    BootPde(va);
    EntryRead(ram, va / LARGE_SIZE);
    LargeEntry(i);
  }

  /** Through the self-map the directory is its own page table. */
  lemma SelfMapWalk(ram: Ram, va: u32, write: bool)
    requires TablesInPlace(ram) && 0xC000_0000 <= va < 0xC040_0000
    ensures Walk(ram, PAGE_DIR, va, write) == Walked(BootSpace(va, write), ram)
  {
    hide Read32, TablesInPlace;
    BootPde(va);
    EntryRead(ram, 0x300);
    var slot := va / PAGE_SIZE % 0x400;
    assert slot == (va - 0xC000_0000) / PAGE_SIZE;
    EntryRead(ram, slot);
    var pde: u32 := PAGE_DIR + 0x63;
    assert Present(pde) && !Large(pde) && Marked(pde, false) && PteAddr(pde, va) == PAGE_DIR + 4 * slot;
    SelfMapSlot(slot, va, write);
  }

  lemma SelfMapSlot(slot: nat, va: u32, write: bool)
    requires slot < 0x400 && 0xC000_0000 <= va < 0xC040_0000 && slot == (va - 0xC000_0000) / PAGE_SIZE
    ensures var pte := BootEntry(slot);
      if Present(pte) then Writable(pte) && Marked(pte, true) && BootSpace(va, write) == Mapped(SmallPa(pte, va))
      else BootSpace(va, write) == NotPresent(write)
  {
    if slot < 32 {
      LargeEntry(slot);
    } else if 0x200 <= slot < 0x220 {
      LargeEntry(slot);
    }
  }

  /** The boot tables realise exactly this address space, for every address and access, and no walk
      through them ever changes RAM. */
  lemma BootAddressSpace(ram: Ram, va: u32, write: bool)
    requires TablesInPlace(ram)
    ensures Walk(ram, PAGE_DIR, va, write) == Walked(BootSpace(va, write), ram)
  {
    hide Walk, TablesInPlace;
    var i := va / LARGE_SIZE;
    assert va == i * 0x40_0000 + va % 0x40_0000;
    if i < 32 || 0x200 <= i < 0x220 {
      LargeWalk(ram, va, write, i);
    } else if i == 0x300 {
      SelfMapWalk(ram, va, write);
    } else {
      UnmappedWalk(ram, va, write);
    }
  }

  lemma UnmappedWalk(ram: Ram, va: u32, write: bool)
    requires TablesInPlace(ram) && BootEntry(va / LARGE_SIZE) == 0
    ensures Walk(ram, PAGE_DIR, va, write) == Walked(NotPresent(write), ram)
  {
    hide Read32, TablesInPlace, BootEntry;
    BootPde(va);
    EntryRead(ram, va / LARGE_SIZE);
  }

  // ---- Block copies in the boot address space ----

  predicate Booted(cpu: Cpu) { PagingOn(cpu) && cpu.cr3 == PAGE_DIR && TablesInPlace(cpu.ram) }

  /** RAM at its own addresses is translated by the first 32 directory entries alone. */
  lemma LowTables(ram: Ram, va: u32, a: nat)
    requires TablesInPlace(ram) && va < RAM_SIZE && WalkReads(ram, PAGE_DIR, va, a)
    ensures PAGE_DIR <= a < PAGE_DIR + 0x80
  {
    hide Read32, TablesInPlace, Present, Large;
    BootPde(va);
    EntryRead(ram, va / LARGE_SIZE);
    LargeEntry(va / LARGE_SIZE);
  }

  lemma LowTarget(cpu: Cpu, va: u32, i: nat)
    requires Booted(cpu) && va + i < RAM_SIZE
    ensures ByteVa(va, i) == va + i && Target(cpu, va, i, true) == va + i
  {
    hide Walk, TablesInPlace;
    WrapSmall(va + i);
    BootAddressSpace(cpu.ram, va + i, true);
  }

  /** Under the boot tables whatever is written to RAM at its own address reads back, unless it lands on those entries. */
  lemma BootWriteReadsBack(cpu: Cpu, va: u32, data: seq<u8>)
    requires Booted(cpu) && va + |data| <= RAM_SIZE
    requires va + |data| <= PAGE_DIR || PAGE_DIR + 0x80 <= va
    ensures var s := WriteBytes(cpu, va, data);
      s.ok && ReadBytes(s.cpu, va, |data|).ok && ReadBytes(s.cpu, va, |data|).data == data
  {
    hide WriteBytes, ReadBytes, Target, ByteVa, WalkReads, TablesInPlace, SameSpace, OthersKept, WordsGrown;
    var s := Block(va, |data|);
    forall i: nat | i < |data| ensures ByteVa(va, i) == va + i && Target(cpu, va, i, true) == va + i {
      LowTarget(cpu, va, i);
    }
    forall a: nat, v: u32 | v in s && WalkReads(cpu.ram, cpu.cr3, v, a) ensures PAGE_DIR <= a < PAGE_DIR + 0x80 {
      LowTables(cpu.ram, v, a);
    }
    assert SparesTables(cpu, va, |data|, s);
    WriteBytesEffect(cpu, va, data, s);
    WriteThenRead(cpu, va, data);
  }

  /** A write over the first of them is the one whose chunks and bytes differ. */
  lemma BootWriteUnmapsItself(cpu: Cpu, data: seq<u8>)
    requires Booted(cpu) && 2 <= |data| <= PAGE_SIZE && data[0] % 2 == 0
    ensures UnmapsItself(cpu, PAGE_DIR, data, 0)
  {
    hide Walk, TablesInPlace;
    BootAddressSpace(cpu.ram, PAGE_DIR, true);
    BootPde(PAGE_DIR);
  }
}
