/** The 32-bit two-level page walk (Intel SDM Vol. 3A section 4.3) and what its A/D updates preserve. */
module Paging {
  import opened Words

  const RAM_SIZE: u32 := 0x800_0000
  const CONTIGUOUS_BASE: u32 := 0x8000_0000
  const WRITE_COMBINED_BASE: u32 := 0xF000_0000
  const PAGE_SIZE: u32 := 0x1000
  const LARGE_SIZE: u32 := 0x40_0000
  const NO_PA: u32 := 0xFFFF_FFFF

  function AliasPa(pa: u32): u32 {
    if CONTIGUOUS_BASE <= pa < CONTIGUOUS_BASE + RAM_SIZE then pa - CONTIGUOUS_BASE
    else if WRITE_COMBINED_BASE <= pa < WRITE_COMBINED_BASE + RAM_SIZE then pa - WRITE_COMBINED_BASE
    else pa
  }

  // Page-table entry bits.
  predicate Present(w: u32) { w % 2 == 1 }
  predicate Writable(w: u32) { w / 2 % 2 == 1 }
  predicate Accessed(w: u32) { w / 0x20 % 2 == 1 }
  predicate Dirty(w: u32) { w / 0x40 % 2 == 1 }
  predicate Large(w: u32) { w / 0x80 % 2 == 1 }

  function PageBase(w: u32): u32 { w - w % PAGE_SIZE }

  /** The entry with its accessed bit set, and on a write its dirty bit too. */
  function Mark(w: u32, write: bool): (r: u32)
  {
    w + (if Accessed(w) then 0 else 0x20) + (if !write || Dirty(w) then 0 else 0x40)
  }

  predicate Marked(w: u32, write: bool) {
    Accessed(w) && (write ==> Dirty(w))
  }

  type Ram = m: seq<u8> | |m| == RAM_SIZE witness seq(0x800_0000, _ => 0)

  datatype Outcome = Mapped(pa: u32) | Fault(code: u32) | Escapes
  datatype Walked = Walked(outcome: Outcome, ram: Ram)

  function NotPresent(write: bool): Outcome { Fault(if write then 2 else 0) }
  function Protected(write: bool): Outcome { Fault(1 + if write then 2 else 0) }

  function PdeAddr(cr3: u32, va: u32): u32 {
    AliasPa(PageBase(cr3)) + va / LARGE_SIZE * 4
  }

  function PteAddr(pde: u32, va: u32): u32 {
    AliasPa(PageBase(pde)) + va / PAGE_SIZE % 0x400 * 4
  }

  /** The source's bound check, whose sum wraps at 32 bits. */
  predicate PastEnd(addr: u32) { Wrap(addr + 4) > RAM_SIZE }

  /** The wrapped check lets exactly the last word of the address space through. */
  predicate Overruns(addr: u32) { !PastEnd(addr) && addr + 4 > RAM_SIZE }

  function LargePa(pde: u32, va: u32): u32 {
    AliasPa(pde / LARGE_SIZE * LARGE_SIZE + va % LARGE_SIZE)
  }

  function SmallPa(pte: u32, va: u32): u32 {
    AliasPa(PageBase(pte) + va % PAGE_SIZE)
  }

  function MarkAt(ram: Ram, addr: nat, w: u32, write: bool): (r: Ram)
    requires addr + 4 <= RAM_SIZE
  {
    if Marked(w, write) then ram else Write32(ram, addr, Mark(w, write))
  }

  /** A walk that uses no TLB: its outcome and the memory it leaves. */
  function Walk(ram: Ram, cr3: u32, va: u32, write: bool): Walked {
    var pdeAddr := PdeAddr(cr3, va);
    if PastEnd(pdeAddr) then Walked(NotPresent(write), ram)
    else if Overruns(pdeAddr) then Walked(Escapes, ram)
    else
      var pde := Read32(ram, pdeAddr);
      if !Present(pde) then Walked(NotPresent(write), ram)
      else if Large(pde) then
        if write && !Writable(pde) then Walked(Protected(write), ram)
        else Walked(Mapped(LargePa(pde, va)), MarkAt(ram, pdeAddr, pde, write))
      else
        var pteAddr := PteAddr(pde, va);
        if PastEnd(pteAddr) then Walked(NotPresent(write), ram)
        else if Overruns(pteAddr) then Walked(Escapes, ram)
        else
          var pte := Read32(ram, pteAddr);
          if !Present(pte) then Walked(NotPresent(write), ram)
          else if write && !Writable(pte) then Walked(Protected(write), ram)
          else
            var ram1 := MarkAt(ram, pdeAddr, pde, false);
            Walked(Mapped(SmallPa(pte, va)), MarkAt(ram1, pteAddr, pte, write))
  }

  // ---- What marking an entry preserves ----

  /** w' is w with some of its A/D bits set and nothing else changed. */
  predicate Grown(w: u32, w': u32) {
    && w' % 0x20 == w % 0x20 && w' / 0x80 == w / 0x80
    && (Accessed(w) ==> Accessed(w'))
    && (Dirty(w) ==> Dirty(w'))
  }

  lemma LowField(h: int, d: int)
    requires 0 <= d < 0x20
    ensures (0x20 * h + d) % 2 == d % 2 && (0x20 * h + d) / 2 % 2 == d / 2 % 2
  {
    assert 0x20 * h + d - d % 2 == 2 * (0x10 * h + d / 2);
    assert (0x20 * h + d) / 2 == 0x10 * h + d / 2;
    assert 0x10 * h + d / 2 == 2 * (8 * h + d / 2 / 2) + d / 2 % 2;
  }

  lemma PageField(h: int, d: int)
    requires 0 <= d < 0x80
    ensures (0x80 * h + d) % PAGE_SIZE == 0x80 * (h % 0x20) + d
  {
  }

  lemma LargeField(h: int, d: int)
    requires 0 <= d < 0x80
    ensures (0x80 * h + d) / LARGE_SIZE == h / 0x8000
  {
  }

  lemma GrownKeepsFields(w: u32, w': u32)
    requires Grown(w, w')
    ensures Present(w') == Present(w) && Writable(w') == Writable(w) && Large(w') == Large(w)
    ensures PageBase(w') == PageBase(w) && w' / LARGE_SIZE == w / LARGE_SIZE
    ensures forall b :: Marked(w, b) ==> Marked(w', b)
  {
    LowField(w / 0x20, w % 0x20);
    LowField(w' / 0x20, w' % 0x20);
    PageField(w / 0x80, w % 0x80);
    PageField(w' / 0x80, w' % 0x80);
    LargeField(w / 0x80, w % 0x80);
    LargeField(w' / 0x80, w' % 0x80);
  }

  lemma MidField(h: int, c: int, d: int)
    requires 0 <= d < 0x20 && 0 <= c < 4
    ensures (0x80 * h + 0x20 * c + d) % 0x20 == d && (0x80 * h + 0x20 * c + d) / 0x80 == h
    ensures (0x80 * h + 0x20 * c + d) / 0x20 % 2 == c % 2
    ensures (0x80 * h + 0x20 * c + d) / 0x40 % 2 == c / 2
  {
    assert (0x80 * h + 0x20 * c + d) / 0x20 == 4 * h + c;
    assert (0x80 * h + 0x20 * c + d) / 0x40 == 2 * h + c / 2;
  }

  lemma MarkGrows(w: u32, write: bool)
    ensures Grown(w, Mark(w, write)) && Marked(Mark(w, write), write)
    ensures Marked(w, write) ==> Mark(w, write) == w
  {
    var h, c, d := w / 0x80, w / 0x20 % 4, w % 0x20;
    assert w == 0x80 * h + 0x20 * c + d;
    MidField(h, c, d);
    MidField(h, c + (if Accessed(w) then 0 else 1) + (if !write || Dirty(w) then 0 else 2), d);
  }

  /** m' is m with some A/D bits of aligned words set: all that walks ever do to memory. */
  predicate RamGrown(m: Ram, m': Ram) {
    forall a: nat {:trigger Read32(m', a)} {:trigger Read32(m, a)} ::
      a % 4 == 0 && a + 4 <= RAM_SIZE ==> Grown(Read32(m, a), Read32(m', a))
  }

  lemma RamGrownTransitive(m: Ram, m': Ram, m'': Ram)
    requires RamGrown(m, m') && RamGrown(m', m'')
    ensures RamGrown(m, m'')
  {
    forall a: nat | a % 4 == 0 && a + 4 <= RAM_SIZE ensures Grown(Read32(m, a), Read32(m'', a)) {
      assert Grown(Read32(m, a), Read32(m', a)) && Grown(Read32(m', a), Read32(m'', a));
    }
  }

  lemma TablesAreAligned(base: u32, va: u32)
    ensures PageBase(base) % 4 == 0 && AliasPa(PageBase(base)) % 4 == 0
    ensures PdeAddr(base, va) % 4 == 0 && PteAddr(base, va) % 4 == 0
  {
    assert base - base % PAGE_SIZE == 0x1000 * (base / 0x1000);
    assert AliasPa(PageBase(base)) % 4 == 0;
  }

  lemma GrownIsReflexive(w: u32)
    ensures Grown(w, w)
  {
  }

  lemma GrownTransitive(w: u32, w': u32, w'': u32)
    requires Grown(w, w') && Grown(w', w'')
    ensures Grown(w, w'')
  {
  }

  lemma WriteGrows(ram: Ram, addr: nat, w: u32)
    requires addr % 4 == 0 && addr + 4 <= RAM_SIZE
    requires Grown(Read32(ram, addr), w)
    ensures RamGrown(ram, Write32(ram, addr, w)) && Read32(Write32(ram, addr, w), addr) == w
  {
    hide Read32, Write32, Grown;
    forall a: nat | a % 4 == 0 && a + 4 <= RAM_SIZE
      ensures Grown(Read32(ram, a), Read32(Write32(ram, addr, w), a))
    {
      ReadAfterWrite(ram, addr, w, a);
      GrownIsReflexive(Read32(ram, a));
    }
    ReadAfterWrite(ram, addr, w, addr);
  }

  lemma MarkAtGrows(ram: Ram, addr: nat, w: u32, write: bool)
    requires addr % 4 == 0 && addr + 4 <= RAM_SIZE
    requires Grown(w, Read32(ram, addr)) && Grown(Read32(ram, addr), Mark(w, write))
    ensures RamGrown(ram, MarkAt(ram, addr, w, write))
    ensures Grown(Mark(w, write), Read32(MarkAt(ram, addr, w, write), addr))
  {
    MarkGrows(w, write);
    if Marked(w, write) {
      RamGrownIsReflexive(ram);
    } else {
      WriteGrows(ram, addr, Mark(w, write));
      GrownIsReflexive(Mark(w, write));
    }
  }

  /** The entry read before the PDE was marked may be that same word, as in a self-mapped directory. */
  lemma PteAfterPde(ram: Ram, pdeAddr: nat, pteAddr: nat, write: bool)
    requires pdeAddr % 4 == 0 && pteAddr % 4 == 0 && pdeAddr + 4 <= RAM_SIZE && pteAddr + 4 <= RAM_SIZE
    ensures var pde, pte := Read32(ram, pdeAddr), Read32(ram, pteAddr);
      var now := Read32(MarkAt(ram, pdeAddr, pde, false), pteAddr);
      Grown(pte, now) && Grown(now, Mark(pte, write))
  {
    hide Read32, Write32, Grown, Mark, Marked;
    var pde, pte := Read32(ram, pdeAddr), Read32(ram, pteAddr);
    MarkGrows(pte, write);
    MarkGrows(pde, false);
    GrownIsReflexive(pte);
    MarkForRead(pte, write);
    if !Marked(pde, false) {
      ReadAfterWrite(ram, pdeAddr, Mark(pde, false), pteAddr);
    }
  }

  lemma MarkForRead(w: u32, write: bool)
    ensures Grown(Mark(w, false), Mark(w, write))
  {
    hide Grown, Accessed;
    MarkGrows(w, write);
    MarkGrows(w, false);
    if write && !Dirty(w) {
      DirtyLater(w);
    } else {
      GrownIsReflexive(Mark(w, false));
    }
  }

  lemma DirtyLater(w: u32)
    requires !Dirty(w)
    ensures Grown(Mark(w, false), Mark(w, true))
  {
    var h, c, d := w / 0x80, w / 0x20 % 4, w % 0x20;
    assert w == 0x80 * h + 0x20 * c + d;
    MidField(h, c, d);
    MidField(h, 1, d);
    MidField(h, 3, d);
  }

  lemma RamGrownIsReflexive(m: Ram)
    ensures RamGrown(m, m)
  {
    forall a: nat | a % 4 == 0 && a + 4 <= RAM_SIZE ensures Grown(Read32(m, a), Read32(m, a)) {
      GrownIsReflexive(Read32(m, a));
    }
  }

  predicate InRam(addr: u32) { !PastEnd(addr) && !Overruns(addr) }

  /** The walk is mapped and every entry it uses already carries the bits it would set. */
  predicate Settled(ram: Ram, cr3: u32, va: u32, write: bool) {
    && Walk(ram, cr3, va, write).outcome.Mapped?
    && var pde := Read32(ram, PdeAddr(cr3, va));
    if Large(pde) then Marked(pde, write)
    else Marked(pde, false) && Marked(Read32(ram, PteAddr(pde, va)), write)
  }

  lemma SettledWalkKeepsRam(ram: Ram, cr3: u32, va: u32, write: bool)
    requires Settled(ram, cr3, va, write)
    ensures Walk(ram, cr3, va, write).ram == ram
  {
  }

  /** A/D updates anywhere, even inside the tables, change no walk's outcome. */
  lemma GrowthKeepsOutcome(m: Ram, m': Ram, cr3: u32, va: u32, write: bool)
    requires RamGrown(m, m')
    ensures Walk(m', cr3, va, write).outcome == Walk(m, cr3, va, write).outcome
  {
    TablesAreAligned(cr3, va);
    var pdeAddr := PdeAddr(cr3, va);
    if InRam(pdeAddr) {
      var pde, pde' := Read32(m, pdeAddr), Read32(m', pdeAddr);
      GrownKeepsFields(pde, pde');
      TablesAreAligned(pde, va);
      var pteAddr := PteAddr(pde, va);
      assert pteAddr == PteAddr(pde', va);
      if InRam(pteAddr) {
        GrownKeepsFields(Read32(m, pteAddr), Read32(m', pteAddr));
      }
    }
  }

  /** A mapped write walk leaves read walks mapped too, through the same entries. */
  lemma GrowthKeepsTranslation(m: Ram, m': Ram, cr3: u32, va: u32, write: bool)
    requires RamGrown(m, m') && Walk(m, cr3, va, write).outcome.Mapped?
    ensures Walk(m', cr3, va, write).outcome == Walk(m', cr3, va, false).outcome == Walk(m, cr3, va, write).outcome
    ensures Large(Read32(m', PdeAddr(cr3, va))) == Large(Read32(m, PdeAddr(cr3, va)))
    ensures PteAddr(Read32(m', PdeAddr(cr3, va)), va) == PteAddr(Read32(m, PdeAddr(cr3, va)), va)
  {
    hide Read32, Grown, Mark, Marked, Present, Writable, Large, PageBase, AliasPa, PdeAddr, LargePa, SmallPa, MarkAt;
    hide RamGrown;
    GrowthKeepsOutcome(m, m', cr3, va, write);
    TablesAreAligned(cr3, va);
    PdeGrows(m, m', PdeAddr(cr3, va));
  }

  lemma PdeGrows(m: Ram, m': Ram, addr: nat)
    requires RamGrown(m, m') && addr % 4 == 0 && addr + 4 <= RAM_SIZE
    ensures Present(Read32(m', addr)) == Present(Read32(m, addr)) && Large(Read32(m', addr)) == Large(Read32(m, addr))
    ensures PageBase(Read32(m', addr)) == PageBase(Read32(m, addr))
  {
    hide Read32, Grown, Present, Large, PageBase;
    GrownKeepsFields(Read32(m, addr), Read32(m', addr));
  }

  lemma MarkedForRead(w: u32, write: bool)
    requires Marked(w, write)
    ensures Marked(w, false)
  {
  }

  lemma GrowthKeepsSettled(m: Ram, m': Ram, cr3: u32, va: u32, write: bool)
    requires RamGrown(m, m') && Settled(m, cr3, va, write)
    ensures Settled(m', cr3, va, write)
  {
    GrowthKeepsOutcome(m, m', cr3, va, write);
    TablesAreAligned(cr3, va);
    var pdeAddr := PdeAddr(cr3, va);
    var pde := Read32(m, pdeAddr);
    GrownKeepsFields(pde, Read32(m', pdeAddr));
    TablesAreAligned(pde, va);
  }

  /** A walk only sets A/D bits, and afterwards walking the same page again sets nothing more. */
  lemma WalkGrows(ram: Ram, cr3: u32, va: u32, write: bool)
    ensures RamGrown(ram, Walk(ram, cr3, va, write).ram)
    ensures Walk(ram, cr3, va, write).outcome.Mapped? ==>
      var ram' := Walk(ram, cr3, va, write).ram;
      Settled(ram', cr3, va, write) && Settled(ram', cr3, va, false)
  {
    hide Read32, Write32, Grown, Mark, Marked, Present, Writable, Large, PageBase, AliasPa, PdeAddr, PteAddr;
    hide LargePa, SmallPa, MarkAt;
    var r := Walk(ram, cr3, va, write);
    if r.outcome.Mapped? {
      var pdeAddr := PdeAddr(cr3, va);
      var pde := Read32(ram, pdeAddr);
      TablesAreAligned(cr3, va);
      TablesAreAligned(pde, va);
      MarkGrows(pde, write);
      MarkGrows(pde, false);
      if Large(pde) {
        GrownIsReflexive(pde);
        MarkAtGrows(ram, pdeAddr, pde, write);
        GrownKeepsFields(Mark(pde, write), Read32(r.ram, pdeAddr));
        MarkedForRead(Read32(r.ram, pdeAddr), write);
      } else {
        var pteAddr := PteAddr(pde, va);
        var pte := Read32(ram, pteAddr);
        var ram1 := MarkAt(ram, pdeAddr, pde, false);
        GrownIsReflexive(pde);
        MarkAtGrows(ram, pdeAddr, pde, false);
        MarkGrows(pte, write);
        PteAfterPde(ram, pdeAddr, pteAddr, write);
        MarkAtGrows(ram1, pteAddr, pte, write);
        RamGrownTransitive(ram, ram1, r.ram);
        GrownKeepsFields(Mark(pde, false), Read32(ram1, pdeAddr));
        GrownKeepsFields(Read32(ram1, pdeAddr), Read32(r.ram, pdeAddr));
        GrownKeepsFields(Mark(pte, write), Read32(r.ram, pteAddr));
        MarkedForRead(Read32(r.ram, pteAddr), write);
      }
      GrowthKeepsTranslation(ram, r.ram, cr3, va, write);
    } else {
      RamGrownIsReflexive(ram);
    }
  }

  lemma SamePage(va: u32, va': u32)
    requires va / PAGE_SIZE == va' / PAGE_SIZE
    ensures va / LARGE_SIZE == va' / LARGE_SIZE
    ensures va % LARGE_SIZE == va / PAGE_SIZE % 0x400 * PAGE_SIZE + va % PAGE_SIZE
    ensures va' % LARGE_SIZE == va / PAGE_SIZE % 0x400 * PAGE_SIZE + va' % PAGE_SIZE
  {
    assert va / 0x40_0000 == va / 0x1000 / 0x400;
    assert va' / 0x40_0000 == va' / 0x1000 / 0x400;
  }

  /** Aliases start and end on page boundaries, so they commute with the page offset. */
  lemma AliasByPage(frame: int, off: u32, off': u32)
    requires 0 <= frame < 0x10_0000 && off < PAGE_SIZE && off' < PAGE_SIZE
    ensures 0 <= frame * PAGE_SIZE + off < TWO_32 && 0 <= frame * PAGE_SIZE + off' < TWO_32
    ensures var pa, pa' := AliasPa(frame * PAGE_SIZE + off), AliasPa(frame * PAGE_SIZE + off');
      pa % PAGE_SIZE == off && pa' == PageBase(pa) + off'
  {
  }

  /** Translation works page by page: it keeps the low twelve bits, also through the aliases. */
  lemma WalkByPage(ram: Ram, cr3: u32, va: u32, va': u32, write: bool)
    requires va / PAGE_SIZE == va' / PAGE_SIZE
    ensures var r, r' := Walk(ram, cr3, va, write), Walk(ram, cr3, va', write);
      && r'.ram == r.ram
      && (r.outcome.Mapped? ==>
           && r.outcome.pa % PAGE_SIZE == va % PAGE_SIZE
           && r'.outcome.Mapped? && r'.outcome.pa == PageBase(r.outcome.pa) + va' % PAGE_SIZE)
      && (!r.outcome.Mapped? ==> r'.outcome == r.outcome)
  {
    hide Read32, Write32, Grown, Mark, Marked, Present, Writable, Large, PageBase, AliasPa, LargePa, SmallPa, MarkAt;
    SamePage(va, va');
    var pdeAddr := PdeAddr(cr3, va);
    assert pdeAddr == PdeAddr(cr3, va');
    if InRam(pdeAddr) {
      var pde := Read32(ram, pdeAddr);
      if Large(pde) {
        LargePaByPage(pde, va, va');
      } else {
        var pteAddr := PteAddr(pde, va);
        assert pteAddr == PteAddr(pde, va');
        if InRam(pteAddr) {
          SmallPaByPage(Read32(ram, pteAddr), va, va');
        }
      }
    }
  }

  lemma SmallPaByPage(pte: u32, va: u32, va': u32)
    ensures SmallPa(pte, va) % PAGE_SIZE == va % PAGE_SIZE
    ensures SmallPa(pte, va') == PageBase(SmallPa(pte, va)) + va' % PAGE_SIZE
  {
    hide AliasPa;
    assert PageBase(pte) == pte / 0x1000 * 0x1000;
    AliasByPage(pte / PAGE_SIZE, va % PAGE_SIZE, va' % PAGE_SIZE);
  }

  lemma LargePaByPage(pde: u32, va: u32, va': u32)
    requires va / PAGE_SIZE == va' / PAGE_SIZE
    ensures LargePa(pde, va) % PAGE_SIZE == va % PAGE_SIZE
    ensures LargePa(pde, va') == PageBase(LargePa(pde, va)) + va' % PAGE_SIZE
  {
    hide AliasPa;
    SamePage(va, va');
    var frame := pde / LARGE_SIZE * 0x400 + va / PAGE_SIZE % 0x400;
    assert pde / 0x40_0000 * 0x40_0000 + va % LARGE_SIZE == frame * 0x1000 + va % 0x1000;
    AliasByPage(frame, va % PAGE_SIZE, va' % PAGE_SIZE);
  }
}
