/** What a translation does, from the bits of the two table entries alone: when it maps and where, when it faults and
    how, and which accessed and dirty bits it sets. */
module Translation {
  import opened Words
  import opened Paging
  import opened SoftTlb
  import opened BlockCopy

  /** RAM shows in two more 128 MB windows, at 2 GB and at 3.75 GB. */
  function Unalias(a: int): int { if a / 0x800_0000 in {0x10, 0x1E} then a % 0x800_0000 else a }

  lemma AliasIsWindow(a: u32)
    ensures AliasPa(a) == Unalias(a)
  {
  }

  /** The bound check of an entry's address; its sum is taken modulo 2^32. */
  predicate Checked(a: int) { (a + 4) % 0x1_0000_0000 <= 0x800_0000 }

  predicate Bit(w: int, n: nat)
    requires n in {0, 1, 5, 6, 7}
  {
    w / (if n == 0 then 1 else if n == 1 then 2 else if n == 5 then 0x20 else if n == 6 then 0x40 else 0x80) % 2 == 1
  }

  function DirectoryEntry(cr3: u32, va: u32): int { Unalias(cr3 / 0x1000 * 0x1000) + va / 0x40_0000 * 4 }

  function TableEntry(pde: u32, va: u32): int { Unalias(pde / 0x1000 * 0x1000) + va / 0x1000 % 0x400 * 4 }

  /** What the entries say. `dir` and `leaf` are the addresses of the entry looked at first and of the one that names
      the frame; they agree for a 4 MB page. */
  datatype Entries =
    | Absent                                        // an entry is out of bounds or not present
    | Found(dir: nat, leaf: nat, writable: bool, pa: int)
    | Overrun                                       // the wrapped check passed for an entry behind RAM

  function Entry(ram: Ram, a: int): Option<u32> {
    if 0 <= a && a + 4 <= 0x800_0000 then Some(Read32(ram, a)) else None
  }

  function EntriesOf(ram: Ram, cr3: u32, va: u32): Entries {
    var dir := DirectoryEntry(cr3, va);
    if !Checked(dir) then Absent
    else
      match Entry(ram, dir)
      case None => Overrun
      case Some(pde) =>
        if !Bit(pde, 0) then Absent
        else if Bit(pde, 7) then Found(dir, dir, Bit(pde, 1), Unalias(pde / 0x40_0000 * 0x40_0000 + va % 0x40_0000))
        else
          var tab := TableEntry(pde, va);
          if !Checked(tab) then Absent
          else
            match Entry(ram, tab)
            case None => Overrun
            case Some(pte) =>
              if !Bit(pte, 0) then Absent
              else Found(dir, tab, Bit(pte, 1), Unalias(pte / 0x1000 * 0x1000 + va % 0x1000))
  }

  /** Exactly these accessed and dirty bits: the accessed bit of both entries, the dirty bit of the one that names the
      frame and only on a write. No other bit of any word changes. */
  predicate MarksSet(m: Ram, m': Ram, dir: nat, leaf: nat, write: bool) {
    forall a: nat :: a % 4 == 0 && a + 4 <= 0x800_0000 ==> WordMarked(Read32(m, a), Read32(m', a), a in {dir, leaf}, a == leaf && write)
  }

  predicate WordMarked(w: u32, w': u32, accessed: bool, dirty: bool) {
    && w' % 0x20 == w % 0x20 && w' / 0x80 == w / 0x80
    && Bit(w', 5) == (Bit(w, 5) || accessed) && Bit(w', 6) == (Bit(w, 6) || dirty)
  }

  lemma MarkBits(w: u32, write: bool)
    ensures WordMarked(w, Mark(w, write), true, write)
  {
    var h, c, d := w / 0x80, w / 0x20 % 4, w % 0x20;
    assert w == 0x80 * h + 0x20 * c + d;
    MidField(h, c, d);
    MidField(h, c + (if Accessed(w) then 0 else 1) + (if !write || Dirty(w) then 0 else 2), d);
  }

  lemma MarkedNeedsNoMark(w: u32, write: bool)
    requires Marked(w, write)
    ensures Mark(w, write) == w
  {
  }

  lemma MarkAtWords(ram: Ram, at: nat, w: u32, write: bool, a: nat)
    requires at % 4 == 0 && at + 4 <= RAM_SIZE && a % 4 == 0 && a + 4 <= RAM_SIZE
    requires Marked(w, write) ==> Read32(ram, at) == w
    ensures Read32(MarkAt(ram, at, w, write), a) == if a == at then Mark(w, write) else Read32(ram, a)
  {
    hide Read32, Write32, Marked, Mark;
    if Marked(w, write) { MarkedNeedsNoMark(w, write); } else { ReadAfterWrite(ram, at, Mark(w, write), a); }
  }

  /** The addresses the walk computes are these. */
  lemma SameAddresses(cr3: u32, pde: u32, pte: u32, va: u32)
    ensures PdeAddr(cr3, va) == DirectoryEntry(cr3, va) && PteAddr(pde, va) == TableEntry(pde, va)
    ensures LargePa(pde, va) == Unalias(pde / 0x40_0000 * 0x40_0000 + va % 0x40_0000)
    ensures SmallPa(pte, va) == Unalias(pte / 0x1000 * 0x1000 + va % 0x1000)
  {
    hide Unalias, AliasPa;
    assert PageBase(cr3) == cr3 / 0x1000 * 0x1000 && PageBase(pde) == pde / 0x1000 * 0x1000;
    assert PageBase(pte) == pte / 0x1000 * 0x1000;
    AliasIsWindow(PageBase(cr3));
    AliasIsWindow(PageBase(pde));
    AliasIsWindow(pde / 0x40_0000 * 0x40_0000 + va % 0x40_0000);
    AliasIsWindow(PageBase(pte) + va % 0x1000);
  }

  lemma SameBits(w: u32)
    ensures Present(w) == Bit(w, 0) && Writable(w) == Bit(w, 1) && Large(w) == Bit(w, 7)
    ensures Accessed(w) == Bit(w, 5) && Dirty(w) == Bit(w, 6)
  {
  }

  lemma SameChecks(a: u32)
    ensures PastEnd(a) == !Checked(a) && (Overruns(a) <==> Checked(a) && a + 4 > 0x800_0000)
  {
  }

  lemma LargeMarks(ram: Ram, dir: nat, write: bool)
    requires dir % 4 == 0 && dir + 4 <= RAM_SIZE
    ensures MarksSet(ram, MarkAt(ram, dir, Read32(ram, dir), write), dir, dir, write)
  {
    hide Read32, Mark, Marked, MarkAt, Bit;
    var pde := Read32(ram, dir);
    var ram' := MarkAt(ram, dir, pde, write);
    forall a: nat | a % 4 == 0 && a + 4 <= 0x800_0000
      ensures WordMarked(Read32(ram, a), Read32(ram', a), a in {dir, dir}, a == dir && write)
    {
      MarkAtWords(ram, dir, pde, write, a);
      MarkBits(pde, write);
    }
  }

  /** Both entries may be the same word, as in a self-mapped directory. */
  lemma SmallMarks(ram: Ram, dir: nat, tab: nat, write: bool)
    requires dir % 4 == 0 && dir + 4 <= RAM_SIZE && tab % 4 == 0 && tab + 4 <= RAM_SIZE
    ensures var pde, pte := Read32(ram, dir), Read32(ram, tab);
      MarksSet(ram, MarkAt(MarkAt(ram, dir, pde, false), tab, pte, write), dir, tab, write)
  {
    hide Read32, Mark, Marked, MarkAt, Bit;
    var pde, pte := Read32(ram, dir), Read32(ram, tab);
    var ram1 := MarkAt(ram, dir, pde, false);
    var ram' := MarkAt(ram1, tab, pte, write);
    MarkAtWords(ram, dir, pde, false, tab);
    if dir == tab && Marked(pte, write) { MarkedForRead(pte, write); MarkedNeedsNoMark(pte, false); }
    forall a: nat | a % 4 == 0 && a + 4 <= 0x800_0000
      ensures WordMarked(Read32(ram, a), Read32(ram', a), a in {dir, tab}, a == tab && write)
    {
      MarkAtWords(ram, dir, pde, false, a);
      MarkAtWords(ram1, tab, pte, write, a);
      MarkBits(pde, false);
      MarkBits(pte, write);
    }
  }

  /** The whole of a translation without a TLB: address and accessed and dirty bits when the entries allow it; CR2, the
      error code, the stop of a compiled trace and untouched memory when they do not. Bit 0 of the error code tells a
      protected page from an absent one, bit 1 a write from a read. */
  lemma TranslationOutcome(cpu: Cpu, va: u32, write: bool, jit: bool)
    ensures var (cpu', pa) := TranslateByWalk(cpu, va, write, jit);
      var stop := if jit then 2 else cpu.stopReason;
      match EntriesOf(cpu.ram, cpu.cr3, va)
      case Found(dir, leaf, writable, frame) =>
        if write && !writable then pa == 0xFFFF_FFFF && cpu' == cpu.(cr2 := va, errorCode := 3, stopReason := stop)
        else pa == frame && cpu' == cpu.(ram := cpu'.ram) && MarksSet(cpu.ram, cpu'.ram, dir, leaf, write)
      case Absent => pa == 0xFFFF_FFFF && cpu' == cpu.(cr2 := va, errorCode := if write then 2 else 0, stopReason := stop)
      case Overrun => Walk(cpu.ram, cpu.cr3, va, write).outcome.Escapes?
    ensures Walk(cpu.ram, cpu.cr3, va, write).outcome.Escapes? ==> EntriesOf(cpu.ram, cpu.cr3, va).Overrun?
  {
    hide PdeAddr, PteAddr, LargePa, SmallPa, DirectoryEntry, TableEntry, Unalias, Bit, Present, Writable, Large;
    hide Read32, MarkAt, MarksSet, Checked, PastEnd, Overruns;
    var ram, dir := cpu.ram, PdeAddr(cpu.cr3, va);
    SameAddresses(cpu.cr3, 0, 0, va);
    TablesAreAligned(cpu.cr3, va);
    SameChecks(dir);
    if InRam(dir) {
      var pde := Read32(ram, dir);
      SameBits(pde);
      SameAddresses(cpu.cr3, pde, 0, va);
      TablesAreAligned(pde, va);
      LargeMarks(ram, dir, write);
      var tab := PteAddr(pde, va);
      SameChecks(tab);
      if InRam(tab) {
        var pte := Read32(ram, tab);
        SameBits(pte);
        SameAddresses(cpu.cr3, pde, pte, va);
        SmallMarks(ram, dir, tab, write);
      }
    }
  }

  // ---- Block copies ----

  /** Where byte i of a block lives: at its own address with CR0 bit 31 clear, otherwise where the entries say. */
  lemma TargetIs(cpu: Cpu, va: u32, i: nat, write: bool)
    requires !EntriesOf(cpu.ram, cpu.cr3, (va + i) % 0x1_0000_0000).Overrun?
    ensures Target(cpu, va, i, write)
      == if cpu.cr0 / 0x8000_0000 == 0 then (va + i) % 0x1_0000_0000
         else match EntriesOf(cpu.ram, cpu.cr3, (va + i) % 0x1_0000_0000)
           case Found(_, _, writable, frame) => if write && !writable then 0xFFFF_FFFF else frame
           case Absent => 0xFFFF_FFFF
  {
    hide Walk, EntriesOf;
    TranslationOutcome(cpu, (va + i) % 0x1_0000_0000, write, false);
  }

  /** With CR0 bit 31 clear a read of RAM returns its bytes and changes nothing. */
  lemma {:induction false} UnpagedRead(cpu: Cpu, va: u32, n: nat)
    requires cpu.cr0 / 0x8000_0000 == 0 && va + n <= RAM_SIZE
    ensures ReadBytes(cpu, va, n) == Copied(cpu, cpu.ram[va..va + n], true)
    decreases n
  {
    hide Walk;
    if n > 0 {
      hide Read32;
      UnpagedRead(cpu, va + 1, n - 1);
      assert cpu.ram[va..va + n] == [cpu.ram[va]] + cpu.ram[va + 1..va + n];
    }
  }

  /** And a write replaces exactly those bytes. */
  lemma {:induction false} UnpagedWrite(cpu: Cpu, va: u32, data: seq<u8>)
    requires cpu.cr0 / 0x8000_0000 == 0 && va + |data| <= RAM_SIZE
    ensures var s := WriteBytes(cpu, va, data);
      s == Stored(cpu.(ram := cpu.ram[..va] + data + cpu.ram[va + |data|..]), true)
    decreases |data|
  {
    hide Walk;
    if data == [] {
      assert cpu.ram == cpu.ram[..va] + [] + cpu.ram[va..];
    } else {
      var cpu1 := WithStore(cpu, va, data[0]);
      UnpagedWrite(cpu1, va + 1, data[1..]);
      assert cpu1.ram[..va + 1] + data[1..] + cpu1.ram[va + |data|..] == cpu.ram[..va] + data + cpu.ram[va + |data|..];
    }
  }
}
