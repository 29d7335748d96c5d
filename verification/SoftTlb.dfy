/** The 256-entry software TLB in front of the page walk, and why guests cannot observe it. */
module SoftTlb {
  import opened Words
  import opened Paging

  const ENTRIES := 256
  const INVALID_TAG: u32 := 0xFFFF_FFFF
  const STOP_PAGE_FAULT: u32 := 2

  type PageAddr = x: int | 0 <= x < TWO_32 && x % 0x1000 == 0

  datatype Entry = Entry(tag: u32, page: PageAddr)

  /** The guest-visible state a translation can touch. */
  datatype Cpu = Cpu(ram: Ram, cr0: u32, cr2: u32, cr3: u32, errorCode: u32, stopReason: u32)

  datatype Tlb = Tlb(read: seq<Entry>, write: seq<Entry>) {
    predicate Sized() { |read| == ENTRIES && |write| == ENTRIES }

    function Slot(va: u32, forWrite: bool): Entry
      requires Sized()
    {
      (if forWrite then write else read)[va / PAGE_SIZE % ENTRIES]
    }

    /** A fill goes to the table that was looked up; a write fill also serves later reads. */
    function Fill(va: u32, pa: u32, forWrite: bool): (t: Tlb)
      requires Sized()
      ensures t.Sized()
    {
      var i, e := va / PAGE_SIZE % ENTRIES, Entry(va / PAGE_SIZE, PageBase(pa));
      Tlb(read[i := e], if forWrite then write[i := e] else write)
    }

    function Drop(va: u32): (t: Tlb)
      requires Sized()
      ensures t.Sized()
    {
      var i := va / PAGE_SIZE % ENTRIES;
      Tlb(if read[i].tag == va / PAGE_SIZE then read[i := read[i].(tag := INVALID_TAG)] else read,
          if write[i].tag == va / PAGE_SIZE then write[i := write[i].(tag := INVALID_TAG)] else write)
    }

    function Flushed(): (t: Tlb)
      requires Sized()
      ensures t.Sized()
    {
      Tlb(seq(ENTRIES, i requires 0 <= i < ENTRIES => read[i].(tag := INVALID_TAG)),
          seq(ENTRIES, i requires 0 <= i < ENTRIES => write[i].(tag := INVALID_TAG)))
    }
  }

  // ---- The three operations slot by slot ----

  /** A fill changes the slot of its page in the read table, and on a write in the write table too, and no other. */
  lemma FillSetsSlots(t: Tlb, va: u32, pa: u32, forWrite: bool, va': u32, w: bool)
    requires t.Sized()
    ensures t.Fill(va, pa, forWrite).Slot(va', w)
      == if va' / 0x1000 % 0x100 == va / 0x1000 % 0x100 && (forWrite || !w) then Entry(va / 0x1000, pa / 0x1000 * 0x1000)
         else t.Slot(va', w)
  {
    assert PageBase(pa) == pa / 0x1000 * 0x1000;
  }

  /** INVLPG takes the tag of exactly the entries for its page, in both tables. */
  lemma DropClearsPage(t: Tlb, va: u32, va': u32, w: bool)
    requires t.Sized()
    ensures var e := t.Slot(va', w);
      t.Drop(va).Slot(va', w)
        == if va' / 0x1000 % 0x100 == va / 0x1000 % 0x100 && e.tag == va / 0x1000 then Entry(0xFFFF_FFFF, e.page) else e
  {
  }

  lemma FlushClearsAll(t: Tlb, va: u32, w: bool)
    requires t.Sized()
    ensures t.Flushed().Slot(va, w) == Entry(0xFFFF_FFFF, t.Slot(va, w).page)
  {
  }

  datatype Machine = Machine(cpu: Cpu, tlb: Tlb)

  function FaultState(cpu: Cpu, va: u32, code: u32, jit: bool): Cpu {
    cpu.(cr2 := va, errorCode := code, stopReason := if jit then STOP_PAGE_FAULT else cpu.stopReason)
  }

  /** Reference: a translation that always walks. `jit` marks calls from compiled code, which also stop the trace. */
  function TranslateByWalk(cpu: Cpu, va: u32, write: bool, jit: bool): (Cpu, u32) {
    var w := Walk(cpu.ram, cpu.cr3, va, write);
    match w.outcome
    case Mapped(pa) => (cpu.(ram := w.ram), pa)
    case Fault(code) => (FaultState(cpu, va, code, jit), NO_PA)
    case Escapes => (cpu, NO_PA)
  }

  function TranslateByTlb(m: Machine, va: u32, write: bool, jit: bool): (r: (Machine, u32))
    requires m.tlb.Sized()
    ensures r.0.tlb.Sized()
  {
    var e := m.tlb.Slot(va, write);
    if e.tag == va / PAGE_SIZE then (m, e.page + va % PAGE_SIZE)
    else
      var (cpu, pa) := TranslateByWalk(m.cpu, va, write, jit);
      var mapped := Walk(m.cpu.ram, m.cpu.cr3, va, write).outcome.Mapped?;
      (Machine(cpu, if mapped then m.tlb.Fill(va, pa, write) else m.tlb), pa)
  }

  // ---- Runs of guest activity ----

  datatype Event =
    | Translate(va: u32, write: bool, jit: bool)
    | Invlpg(va: u32)
    | MovCr0(value: u32)
    | MovCr3(value: u32)
    | Store(addr: u32, byte: u8)

  function WithStore(cpu: Cpu, addr: u32, byte: u8): Cpu {
    if addr < RAM_SIZE then cpu.(ram := cpu.ram[addr := byte]) else cpu
  }

  /** One event on the machine that has no TLB; the second part is the address handed back. */
  function StepByWalk(cpu: Cpu, ev: Event): (Cpu, u32) {
    match ev
    case Translate(va, write, jit) => TranslateByWalk(cpu, va, write, jit)
    case Invlpg(_) => (cpu, 0)
    case MovCr0(v) => (cpu.(cr0 := v), 0)
    case MovCr3(v) => (cpu.(cr3 := v), 0)
    case Store(a, b) => (WithStore(cpu, a, b), 0)
  }

  function StepByTlb(m: Machine, ev: Event): (r: (Machine, u32))
    requires m.tlb.Sized()
    ensures r.0.tlb.Sized()
  {
    match ev
    case Translate(va, write, jit) => TranslateByTlb(m, va, write, jit)
    case Invlpg(va) => (m.(tlb := m.tlb.Drop(va)), 0)
    case MovCr0(v) => (Machine(m.cpu.(cr0 := v), m.tlb.Flushed()), 0)
    case MovCr3(v) => (Machine(m.cpu.(cr3 := v), m.tlb.Flushed()), 0)
    case Store(a, b) => (m.(cpu := WithStore(m.cpu, a, b)), 0)
  }

  function RunByWalk(cpu: Cpu, evs: seq<Event>): (Cpu, seq<u32>)
    decreases |evs|
  {
    if evs == [] then (cpu, [])
    else
      var (cpu1, out) := StepByWalk(cpu, evs[0]);
      var (cpu2, outs) := RunByWalk(cpu1, evs[1..]);
      (cpu2, [out] + outs)
  }

  function RunByTlb(m: Machine, evs: seq<Event>): (Machine, seq<u32>)
    requires m.tlb.Sized()
    decreases |evs|
  {
    if evs == [] then (m, [])
    else
      var (m1, out) := StepByTlb(m, evs[0]);
      var (m2, outs) := RunByTlb(m1, evs[1..]);
      (m2, [out] + outs)
  }

  // ---- Coherence ----

  /** Whether byte `a` belongs to a table word the walk of `va` reads. */
  predicate WalkReads(ram: Ram, cr3: u32, va: u32, a: nat) {
    var pdeAddr := PdeAddr(cr3, va);
    InRam(pdeAddr) &&
    (pdeAddr <= a < pdeAddr + 4
     || (var pde := Read32(ram, pdeAddr);
         Present(pde) && !Large(pde) && InRam(PteAddr(pde, va)) && PteAddr(pde, va) <= a < PteAddr(pde, va) + 4))
  }

  /** A live entry says what a walk of its page would find, and that walk has no bits left to set. */
  predicate EntryTrue(cpu: Cpu, e: Entry, slot: nat, write: bool) {
    e.tag == INVALID_TAG ||
    (e.tag < 0x10_0000 && e.tag % ENTRIES == slot
     && Settled(cpu.ram, cpu.cr3, e.tag * PAGE_SIZE, write)
     && Walk(cpu.ram, cpu.cr3, e.tag * PAGE_SIZE, write).outcome == Mapped(e.page))
  }

  /** One of the 512 TLB slots. */
  datatype SlotId = ReadSlot(index: nat) | WriteSlot(index: nat)

  function SlotFor(va: u32, write: bool): SlotId {
    if write then WriteSlot(va / PAGE_SIZE % ENTRIES) else ReadSlot(va / PAGE_SIZE % ENTRIES)
  }

  /** Every entry is true, but for those in the slots of `stale`. */
  predicate CoherentBut(m: Machine, stale: set<SlotId>) {
    m.tlb.Sized() &&
    forall i :: 0 <= i < ENTRIES ==>
      && (ReadSlot(i) !in stale ==> EntryTrue(m.cpu, m.tlb.read[i], i, false))
      && (WriteSlot(i) !in stale ==> EntryTrue(m.cpu, m.tlb.write[i], i, true))
  }

  predicate Coherent(m: Machine) { CoherentBut(m, {}) }

  // ---- Which entries guest stores have made stale ----

  /** A store to byte a changes a table word that the walk of a live entry reads. */
  predicate Undermines(cpu: Cpu, e: Entry, a: nat) {
    e.tag < 0x10_0000 && WalkReads(cpu.ram, cpu.cr3, e.tag * PAGE_SIZE, a)
  }

  /** The slots of va whose entry is for its page. */
  function SlotsOf(tlb: Tlb, va: u32): set<SlotId>
    requires tlb.Sized()
  {
    (if tlb.Slot(va, false).tag == va / PAGE_SIZE then {SlotFor(va, false)} else {})
    + (if tlb.Slot(va, true).tag == va / PAGE_SIZE then {SlotFor(va, true)} else {})
  }

  /** Stores make entries stale; a refill of the slot, INVLPG of the page and CR0 and CR3 writes cure them. */
  function StaleAfter(m: Machine, stale: set<SlotId>, ev: Event): set<SlotId>
    requires m.tlb.Sized()
  {
    match ev
    case Translate(va, write, _) =>
      if m.tlb.Slot(va, write).tag == va / PAGE_SIZE || !Walk(m.cpu.ram, m.cpu.cr3, va, write).outcome.Mapped? then stale
      else stale - {SlotFor(va, write), SlotFor(va, false)}
    case Invlpg(va) => stale - SlotsOf(m.tlb, va)
    case MovCr0(_) => {}
    case MovCr3(_) => {}
    case Store(a, _) =>
      stale + (set i: nat | i < ENTRIES && Undermines(m.cpu, m.tlb.read[i], a) :: ReadSlot(i))
            + (set i: nat | i < ENTRIES && Undermines(m.cpu, m.tlb.write[i], a) :: WriteSlot(i))
  }

  /** Any store is allowed. A translation must not hit a stale entry, and no walk overruns memory. */
  predicate Allowed(m: Machine, stale: set<SlotId>, ev: Event)
    requires m.tlb.Sized()
  {
    match ev
    case Translate(va, write, _) =>
      && !Walk(m.cpu.ram, m.cpu.cr3, va, write).outcome.Escapes?
      && (m.tlb.Slot(va, write).tag == va / PAGE_SIZE ==> SlotFor(va, write) !in stale)
    case _ => true
  }

  predicate RunAllowed(m: Machine, stale: set<SlotId>, evs: seq<Event>)
    requires m.tlb.Sized()
    decreases |evs|
  {
    evs == [] || (Allowed(m, stale, evs[0]) && RunAllowed(StepByTlb(m, evs[0]).0, StaleAfter(m, stale, evs[0]), evs[1..]))
  }

  lemma EntrySurvivesGrowth(cpu: Cpu, ram': Ram, e: Entry, slot: nat, write: bool)
    requires RamGrown(cpu.ram, ram') && EntryTrue(cpu, e, slot, write)
    ensures EntryTrue(cpu.(ram := ram'), e, slot, write)
  {
    hide Walk, Settled, RamGrown;
    if e.tag != INVALID_TAG {
      GrowthKeepsSettled(cpu.ram, ram', cpu.cr3, e.tag * PAGE_SIZE, write);
      GrowthKeepsOutcome(cpu.ram, ram', cpu.cr3, e.tag * PAGE_SIZE, write);
    }
  }

  lemma StoreElsewhere(ram: Ram, cr3: u32, va: u32, write: bool, a: nat, b: u8)
    requires a < RAM_SIZE && !WalkReads(ram, cr3, va, a)
    ensures Walk(ram[a := b], cr3, va, write).outcome == Walk(ram, cr3, va, write).outcome
    ensures Settled(ram, cr3, va, write) ==> Settled(ram[a := b], cr3, va, write)
  {
    hide Mark, MarkAt, Write32, Present, Writable, Large, Marked, Word, LargePa, SmallPa, PteAddr, PdeAddr;
    var pdeAddr := PdeAddr(cr3, va);
    if InRam(pdeAddr) {
      assert Read32(ram[a := b], pdeAddr) == Read32(ram, pdeAddr);
      var pteAddr := PteAddr(Read32(ram, pdeAddr), va);
      if InRam(pteAddr) && Present(Read32(ram, pdeAddr)) && !Large(Read32(ram, pdeAddr)) {
        assert Read32(ram[a := b], pteAddr) == Read32(ram, pteAddr);
      }
    }
  }

  /** Such a store does not change either what the walk reads. */
  lemma StoreKeepsReads(ram: Ram, cr3: u32, va: u32, a: nat, b: u8, x: nat)
    requires a < RAM_SIZE && !WalkReads(ram, cr3, va, a)
    ensures WalkReads(ram[a := b], cr3, va, x) == WalkReads(ram, cr3, va, x)
  {
    hide Present, Large, Word, PteAddr, PdeAddr;
    if InRam(PdeAddr(cr3, va)) {
      assert Read32(ram[a := b], PdeAddr(cr3, va)) == Read32(ram, PdeAddr(cr3, va));
    }
  }

  /** A walk reads the same table words for all addresses of a page. */
  lemma ReadsByPage(ram: Ram, cr3: u32, va: u32, va': u32, a: nat)
    requires va / PAGE_SIZE == va' / PAGE_SIZE
    ensures WalkReads(ram, cr3, va', a) == WalkReads(ram, cr3, va, a)
  {
    hide Read32, Present, Large, AliasPa, PageBase;
    SamePage(va, va');
  }

  lemma EntrySurvivesStore(cpu: Cpu, a: u32, b: u8, e: Entry, slot: nat, write: bool)
    requires EntryTrue(cpu, e, slot, write) && !Undermines(cpu, e, a)
    ensures EntryTrue(WithStore(cpu, a, b), e, slot, write)
  {
    hide Walk, Settled, WalkReads;
    if e.tag != INVALID_TAG && a < RAM_SIZE {
      StoreElsewhere(cpu.ram, cpu.cr3, e.tag * PAGE_SIZE, write, a, b);
    }
  }

  /** A hit on an entry that is not stale returns what the walk would have returned, and the walk would have
      changed nothing. */
  lemma HitIsWalk(m: Machine, stale: set<SlotId>, va: u32, write: bool, jit: bool)
    requires CoherentBut(m, stale) && m.tlb.Slot(va, write).tag == va / PAGE_SIZE && SlotFor(va, write) !in stale
    ensures var (m', pa) := TranslateByTlb(m, va, write, jit);
      (m'.cpu, pa) == TranslateByWalk(m.cpu, va, write, jit)
    ensures TranslateByTlb(m, va, write, jit).0 == m
  {
    hide Walk, Settled;
    var e := m.tlb.Slot(va, write);
    assert EntryTrue(m.cpu, e, va / PAGE_SIZE % ENTRIES, write);
    var page := va / PAGE_SIZE * PAGE_SIZE;
    WalkByPage(m.cpu.ram, m.cpu.cr3, page, va, write);
    SettledWalkKeepsRam(m.cpu.ram, m.cpu.cr3, page, write);
  }

  function FilledEntry(va: u32, pa: u32): Entry { Entry(va / PAGE_SIZE, PageBase(pa)) }

  lemma FilledEntryTrue(cpu: Cpu, va: u32, write: bool, forRead: bool)
    requires Walk(cpu.ram, cpu.cr3, va, write).outcome.Mapped?
    requires forRead || write
    ensures var w := Walk(cpu.ram, cpu.cr3, va, write);
      EntryTrue(cpu.(ram := w.ram), FilledEntry(va, w.outcome.pa), va / PAGE_SIZE % ENTRIES, !forRead)
  {
    hide Walk, Settled, PageBase;
    FirstOfPage(va);
    PageIsSettled(cpu.ram, cpu.cr3, va, write, forRead);
  }

  lemma PageIsSettled(ram: Ram, cr3: u32, va: u32, write: bool, forRead: bool)
    requires Walk(ram, cr3, va, write).outcome.Mapped?
    requires forRead || write
    ensures 0 <= va / PAGE_SIZE * PAGE_SIZE < TWO_32
    ensures var w, page := Walk(ram, cr3, va, write), va / PAGE_SIZE * PAGE_SIZE;
      && Settled(w.ram, cr3, page, !forRead)
      && Walk(w.ram, cr3, page, !forRead).outcome == Mapped(PageBase(w.outcome.pa))
  {
    hide Walk, Settled, RamGrown, PageBase;
    var w := Walk(ram, cr3, va, write);
    var page := va / PAGE_SIZE * PAGE_SIZE;
    FirstOfPage(va);
    WalkGrows(ram, cr3, va, write);
    WalkAgain(ram, cr3, va, write);
    WalkByPage(w.ram, cr3, va, page, !forRead);
    SettledByPage(w.ram, cr3, va, page, !forRead);
  }

  lemma FirstOfPage(va: u32)
    ensures 0 <= va / PAGE_SIZE < 0x10_0000 && 0 <= va / PAGE_SIZE * PAGE_SIZE < TWO_32
    ensures va / PAGE_SIZE * PAGE_SIZE / PAGE_SIZE == va / PAGE_SIZE
    ensures va / PAGE_SIZE * PAGE_SIZE % PAGE_SIZE == 0
  {
  }

  lemma SettledByPage(ram: Ram, cr3: u32, va: u32, va': u32, write: bool)
    requires va / PAGE_SIZE == va' / PAGE_SIZE && Settled(ram, cr3, va, write)
    ensures Settled(ram, cr3, va', write)
  {
    hide Walk, Read32, Large, Marked;
    SamePage(va, va');
    WalkByPage(ram, cr3, va, va', write);
  }

  /** Walking again, for a read or as before, gives the same address. */
  lemma WalkAgain(ram: Ram, cr3: u32, va: u32, write: bool)
    requires Walk(ram, cr3, va, write).outcome.Mapped?
    ensures var w := Walk(ram, cr3, va, write);
      Walk(w.ram, cr3, va, false).outcome == Walk(w.ram, cr3, va, write).outcome == w.outcome
  {
    hide Walk, RamGrown;
    WalkGrows(ram, cr3, va, write);
    GrowthKeepsTranslation(ram, Walk(ram, cr3, va, write).ram, cr3, va, write);
  }

  lemma TranslationKeepsCoherence(m: Machine, stale: set<SlotId>, va: u32, write: bool, jit: bool)
    requires CoherentBut(m, stale)
    ensures CoherentBut(TranslateByTlb(m, va, write, jit).0, StaleAfter(m, stale, Translate(va, write, jit)))
  {
    hide Walk, EntryTrue, RamGrown;
    var m' := TranslateByTlb(m, va, write, jit).0;
    var stale' := StaleAfter(m, stale, Translate(va, write, jit));
    if m.tlb.Slot(va, write).tag != va / PAGE_SIZE && Walk(m.cpu.ram, m.cpu.cr3, va, write).outcome.Mapped? {
      var ram' := Walk(m.cpu.ram, m.cpu.cr3, va, write).ram;
      WalkGrows(m.cpu.ram, m.cpu.cr3, va, write);
      FilledEntryTrue(m.cpu, va, write, true);
      if write { FilledEntryTrue(m.cpu, va, write, false); }
      forall i | 0 <= i < ENTRIES
        ensures ReadSlot(i) !in stale' ==> EntryTrue(m'.cpu, m'.tlb.read[i], i, false)
        ensures WriteSlot(i) !in stale' ==> EntryTrue(m'.cpu, m'.tlb.write[i], i, true)
      {
        if ReadSlot(i) !in stale { EntrySurvivesGrowth(m.cpu, ram', m.tlb.read[i], i, false); }
        if WriteSlot(i) !in stale { EntrySurvivesGrowth(m.cpu, ram', m.tlb.write[i], i, true); }
      }
    } else {
      FaultKeepsCoherence(m, stale, va, write, jit);
    }
  }

  lemma FaultKeepsCoherence(m: Machine, stale: set<SlotId>, va: u32, write: bool, jit: bool)
    requires CoherentBut(m, stale)
    requires m.tlb.Slot(va, write).tag == va / PAGE_SIZE || !Walk(m.cpu.ram, m.cpu.cr3, va, write).outcome.Mapped?
    ensures CoherentBut(TranslateByTlb(m, va, write, jit).0, stale)
  {
    hide Walk, Settled;
    var m' := TranslateByTlb(m, va, write, jit).0;
    assert m'.tlb == m.tlb && m'.cpu.ram == m.cpu.ram && m'.cpu.cr3 == m.cpu.cr3;
    forall i | 0 <= i < ENTRIES
      ensures ReadSlot(i) !in stale ==> EntryTrue(m'.cpu, m'.tlb.read[i], i, false)
      ensures WriteSlot(i) !in stale ==> EntryTrue(m'.cpu, m'.tlb.write[i], i, true)
    {
      assert ReadSlot(i) !in stale ==> EntryTrue(m.cpu, m.tlb.read[i], i, false);
      assert WriteSlot(i) !in stale ==> EntryTrue(m.cpu, m.tlb.write[i], i, true);
    }
  }

  lemma StoreKeepsCoherence(m: Machine, stale: set<SlotId>, a: u32, b: u8)
    requires CoherentBut(m, stale)
    ensures CoherentBut(StepByTlb(m, Store(a, b)).0, StaleAfter(m, stale, Store(a, b)))
  {
    hide Walk, EntryTrue, Undermines;
    var stale' := StaleAfter(m, stale, Store(a, b));
    forall i: nat | i < ENTRIES
      ensures ReadSlot(i) !in stale' ==> EntryTrue(WithStore(m.cpu, a, b), m.tlb.read[i], i, false)
      ensures WriteSlot(i) !in stale' ==> EntryTrue(WithStore(m.cpu, a, b), m.tlb.write[i], i, true)
    {
      if ReadSlot(i) !in stale' { EntrySurvivesStore(m.cpu, a, b, m.tlb.read[i], i, false); }
      if WriteSlot(i) !in stale' { EntrySurvivesStore(m.cpu, a, b, m.tlb.write[i], i, true); }
    }
  }

  /** CR0 and CR3 writes make every entry harmless, however stale it was. */
  lemma FlushCures(m: Machine, ev: Event)
    requires m.tlb.Sized() && (ev.MovCr0? || ev.MovCr3?)
    ensures Coherent(StepByTlb(m, ev).0)
  {
    hide Walk, Settled;
  }

  /** INVLPG makes the entries of its page harmless, however stale they were, and leaves the others as they are. */
  lemma InvlpgCures(m: Machine, stale: set<SlotId>, va: u32)
    requires CoherentBut(m, stale)
    ensures CoherentBut(StepByTlb(m, Invlpg(va)).0, stale - SlotsOf(m.tlb, va))
    ensures SlotsOf(StepByTlb(m, Invlpg(va)).0.tlb, va) == {}
  {
    hide Walk, Settled;
    var m', stale' := StepByTlb(m, Invlpg(va)).0, stale - SlotsOf(m.tlb, va);
    forall i | 0 <= i < ENTRIES
      ensures ReadSlot(i) !in stale' ==> EntryTrue(m'.cpu, m'.tlb.read[i], i, false)
      ensures WriteSlot(i) !in stale' ==> EntryTrue(m'.cpu, m'.tlb.write[i], i, true)
    {
      assert ReadSlot(i) !in stale ==> EntryTrue(m.cpu, m.tlb.read[i], i, false);
      assert WriteSlot(i) !in stale ==> EntryTrue(m.cpu, m.tlb.write[i], i, true);
    }
  }

  /** One event: same guest-visible state, same answer, and every entry not stale stays true. */
  lemma StepTransparent(m: Machine, stale: set<SlotId>, ev: Event)
    requires CoherentBut(m, stale) && Allowed(m, stale, ev)
    ensures var (m', out) := StepByTlb(m, ev);
      CoherentBut(m', StaleAfter(m, stale, ev)) && (m'.cpu, out) == StepByWalk(m.cpu, ev)
  {
    hide Walk, EntryTrue, Undermines, CoherentBut, SlotsOf;
    CoherentIsSized(m, stale);
    match ev
    case Translate(va, write, jit) =>
      TranslationKeepsCoherence(m, stale, va, write, jit);
      if m.tlb.Slot(va, write).tag == va / PAGE_SIZE {
        HitIsWalk(m, stale, va, write, jit);
      }
    case Store(a, b) => StoreKeepsCoherence(m, stale, a, b);
    case Invlpg(va) => InvlpgCures(m, stale, va);
    case _ => FlushCures(m, ev);
  }

  function StaleAfterRun(m: Machine, stale: set<SlotId>, evs: seq<Event>): set<SlotId>
    requires m.tlb.Sized()
    decreases |evs|
  {
    if evs == [] then stale else StaleAfterRun(StepByTlb(m, evs[0]).0, StaleAfter(m, stale, evs[0]), evs[1..])
  }

  /** Over any run in which no translation hits an entry that stores have made stale, the TLB is invisible: memory,
      faults and every returned address agree with the machine that always walks. */
  lemma {:induction false} TlbIsTransparent(m: Machine, stale: set<SlotId>, evs: seq<Event>)
    requires CoherentBut(m, stale) && RunAllowed(m, stale, evs)
    ensures var (m', outs) := RunByTlb(m, evs);
      CoherentBut(m', StaleAfterRun(m, stale, evs)) && (m'.cpu, outs) == RunByWalk(m.cpu, evs)
    decreases |evs|
  {
    hide CoherentBut, Allowed, StepByTlb, StepByWalk, StaleAfter;
    if evs != [] {
      CoherentIsSized(m, stale);
      StepTransparent(m, stale, evs[0]);
      TlbIsTransparent(StepByTlb(m, evs[0]).0, StaleAfter(m, stale, evs[0]), evs[1..]);
    }
  }

  lemma HitSlots(tlb: Tlb, va: u32, write: bool)
    requires tlb.Sized()
    ensures SlotFor(va, write) in SlotsOf(tlb, va) <==> tlb.Slot(va, write).tag == va / PAGE_SIZE
  {
  }

  lemma InvlpgThenUse(m: Machine, stale: set<SlotId>, va: u32, write: bool, jit: bool)
    requires CoherentBut(m, stale) && !Walk(m.cpu.ram, m.cpu.cr3, va, write).outcome.Escapes?
    ensures RunAllowed(m, stale, [Invlpg(va), Translate(va, write, jit)])
  {
    hide CoherentBut, Walk, StaleAfter;
    var t := Translate(va, write, jit);
    InvlpgCures(m, stale, va);
    CoherentIsSized(m, stale);
    var m1, stale1 := StepByTlb(m, Invlpg(va)).0, StaleAfter(m, stale, Invlpg(va));
    assert m1.cpu == m.cpu;
    HitSlots(m1.tlb, va, write);
    assert Allowed(m1, stale1, t);
    assert [t][1..] == [];
    assert RunAllowed(m1, stale1, [t]);
    assert [Invlpg(va), t][1..] == [t];
    assert Allowed(m, stale, Invlpg(va));
  }

  /** The way a guest edits its tables: any stores, INVLPG of the page, then use. */
  lemma {:induction false} EditThenInvlpg(m: Machine, stale: set<SlotId>, stores: seq<Event>, va: u32, write: bool, jit: bool)
    requires CoherentBut(m, stale) && forall ev :: ev in stores ==> ev.Store?
    requires var cpu := RunByWalk(m.cpu, stores).0; !Walk(cpu.ram, cpu.cr3, va, write).outcome.Escapes?
    ensures RunAllowed(m, stale, stores + [Invlpg(va), Translate(va, write, jit)])
    ensures var evs := stores + [Invlpg(va), Translate(va, write, jit)];
      var (m', outs) := RunByTlb(m, evs);
      (m'.cpu, outs) == RunByWalk(m.cpu, evs)
    decreases |stores|
  {
    hide CoherentBut, StaleAfter, Walk, WithStore;
    CoherentIsSized(m, stale);
    var use := [Invlpg(va), Translate(va, write, jit)];
    var evs := stores + use;
    if stores == [] {
      assert evs == use;
      InvlpgThenUse(m, stale, va, write, jit);
    } else {
      assert evs[0] == stores[0] && evs[1..] == stores[1..] + use;
      assert stores[0].Store?;
      StepTransparent(m, stale, evs[0]);
      EditThenInvlpg(StepByTlb(m, evs[0]).0, StaleAfter(m, stale, evs[0]), stores[1..], va, write, jit);
    }
    TlbIsTransparent(m, stale, evs);
  }

  lemma CoherentIsSized(m: Machine, stale: set<SlotId>)
    requires CoherentBut(m, stale)
    ensures m.tlb.Sized()
  {
  }

  /** Not hitting a stale entry is needed for every live translation: unmapping it without INVLPG or a CR write goes
      unnoticed by the TLB and not by the walk. */
  lemma StaleEntryIsVisible(m: Machine, va: u32, write: bool, jit: bool)
    requires Coherent(m)
    requires Walk(m.cpu.ram, m.cpu.cr3, va, write).outcome.Mapped?
    requires Walk(m.cpu.ram, m.cpu.cr3, va, write).outcome.pa != NO_PA
    ensures var evs := [Translate(va, write, jit), Store(PdeAddr(m.cpu.cr3, va), 0), Translate(va, write, jit)];
      RunByTlb(m, evs).1 != RunByWalk(m.cpu, evs).1
  {
    hide Walk, Settled, CoherentBut, Allowed, PdeAddr, TranslateByTlb, TranslateByWalk, WithStore;
    var pdeAddr, t := PdeAddr(m.cpu.cr3, va), Translate(va, write, jit);
    var evs := [t, Store(pdeAddr, 0), t];
    assert evs[1..] == [Store(pdeAddr, 0), t] && evs[1..][1..] == [t] && [t][1..] == [];
    CoherentIsSized(m, {});
    StepTransparent(m, {}, t) by { RunStartsAllowed(m, va, write, jit); }
    var m1 := StepByTlb(m, t).0;
    var m2 := StepByTlb(m1, Store(pdeAddr, 0)).0;
    HitAfterTranslation(m, va, write, jit);
    UnmappedByStore(m.cpu, va, write, jit);
    RunOfThree(m, evs);
  }

  lemma RunStartsAllowed(m: Machine, va: u32, write: bool, jit: bool)
    requires m.tlb.Sized() && Walk(m.cpu.ram, m.cpu.cr3, va, write).outcome.Mapped?
    ensures Allowed(m, {}, Translate(va, write, jit))
  {
  }

  lemma RunOfThree(m: Machine, evs: seq<Event>)
    requires m.tlb.Sized() && |evs| == 3
    ensures var s1 := StepByTlb(m, evs[0]);
      var s2 := StepByTlb(s1.0, evs[1]);
      RunByTlb(m, evs).1 == [s1.1, s2.1, StepByTlb(s2.0, evs[2]).1]
    ensures var s1 := StepByWalk(m.cpu, evs[0]);
      var s2 := StepByWalk(s1.0, evs[1]);
      RunByWalk(m.cpu, evs).1 == [s1.1, s2.1, StepByWalk(s2.0, evs[2]).1]
  {
    hide StepByTlb, StepByWalk;
    var rest, last := evs[1..], evs[1..][1..];
    assert last[1..] == [] && rest[0] == evs[1] && last[0] == evs[2];
    var m1 := StepByTlb(m, evs[0]).0;
    var m2 := StepByTlb(m1, evs[1]).0;
    assert RunByTlb(m2, last).1 == [StepByTlb(m2, evs[2]).1];
    assert RunByTlb(m1, rest).1 == [StepByTlb(m1, evs[1]).1] + RunByTlb(m2, last).1;
    var c1 := StepByWalk(m.cpu, evs[0]).0;
    var c2 := StepByWalk(c1, evs[1]).0;
    assert RunByWalk(c2, last).1 == [StepByWalk(c2, evs[2]).1];
    assert RunByWalk(c1, rest).1 == [StepByWalk(c1, evs[1]).1] + RunByWalk(c2, last).1;
  }

  lemma UnmappedByStore(cpu: Cpu, va: u32, write: bool, jit: bool)
    requires Walk(cpu.ram, cpu.cr3, va, write).outcome.Mapped?
    ensures var cpu1 := WithStore(TranslateByWalk(cpu, va, write, jit).0, PdeAddr(cpu.cr3, va), 0);
      TranslateByWalk(cpu1, va, write, jit).1 == NO_PA
  {
    hide MarkAt, LargePa, SmallPa, PteAddr, PdeAddr, Large, Writable;
    var cpu1 := WithStore(TranslateByWalk(cpu, va, write, jit).0, PdeAddr(cpu.cr3, va), 0);
    EvenWord(cpu1.ram, PdeAddr(cpu.cr3, va));
  }

  lemma EvenWord(m: Ram, a: nat)
    requires a + 4 <= RAM_SIZE && m[a] % 2 == 0
    ensures !Present(Read32(m, a))
  {
    EvenSum(m[a], m[a + 1], m[a + 2], m[a + 3]);
  }

  lemma EvenSum(b0: int, b1: int, b2: int, b3: int)
    requires b0 % 2 == 0
    ensures Word(b0, b1, b2, b3) % 2 == 0
  {
    assert Word(b0, b1, b2, b3) == 2 * (b0 / 2 + 0x80 * b1 + 0x8000 * b2 + 0x80_0000 * b3);
  }

  /** After a mapped translation the TLB answers the same query by itself, whatever memory says by then. */
  lemma HitAfterTranslation(m: Machine, va: u32, write: bool, jit: bool)
    requires Coherent(m) && Walk(m.cpu.ram, m.cpu.cr3, va, write).outcome.Mapped?
    ensures var m1 := TranslateByTlb(m, va, write, jit).0;
      forall cpu: Cpu :: TranslateByTlb(Machine(cpu, m1.tlb), va, write, jit)
        == (Machine(cpu, m1.tlb), Walk(m.cpu.ram, m.cpu.cr3, va, write).outcome.pa)
  {
    hide Walk, Settled;
    WalkByPage(m.cpu.ram, m.cpu.cr3, va, va, write);
    if m.tlb.Slot(va, write).tag == va / PAGE_SIZE {
      HitIsWalk(m, {}, va, write, jit);
    }
  }

  /** A walk overruns memory exactly when it needs the last word of a table based at the top page. */
  lemma EscapesOnlyAtTopPage(ram: Ram, cr3: u32, va: u32, write: bool)
    ensures Walk(ram, cr3, va, write).outcome.Escapes? <==>
      || (PageBase(cr3) == 0xFFFF_F000 && va / LARGE_SIZE == 0x3FF)
      || (InRam(PdeAddr(cr3, va))
          && var pde := Read32(ram, PdeAddr(cr3, va));
          Present(pde) && !Large(pde) && PageBase(pde) == 0xFFFF_F000 && va / PAGE_SIZE % 0x400 == 0x3FF)
  {
    hide Read32, Present, Large, Writable, MarkAt, LargePa, SmallPa;
    OverrunsAtTop(cr3, va / LARGE_SIZE);
    if InRam(PdeAddr(cr3, va)) {
      OverrunsAtTop(Read32(ram, PdeAddr(cr3, va)), va / PAGE_SIZE % 0x400);
    }
  }

  lemma OverrunsAtTop(base: u32, index: int)
    requires 0 <= index < 0x400
    ensures 0 <= AliasPa(PageBase(base)) + index * 4 < TWO_32
    ensures Overruns(AliasPa(PageBase(base)) + index * 4) <==> PageBase(base) == 0xFFFF_F000 && index == 0x3FF
  {
    assert PageBase(base) == base / 0x1000 * 0x1000;
  }
}
