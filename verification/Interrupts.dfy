/** Interrupt delivery through the IDT and IRETD, with paging off, and how they nest. */
module Interrupts {
  import opened Words
  import opened Paging
  import opened HelperMemory

  const IF_BIT: bv32 := 0x200
  const ALWAYS_ONE: bv32 := 0x02
  const IRET_MASK: bv32 := 0x003F_7FD5

  datatype Cpu = Cpu(mem: seq<u8>, esp: u32, eip: u32, eflags: bv32, virtualIf: bool, idtBase: u32, idtLimit: u32) {
    predicate Valid() { |mem| == WINDOW_SIZE }
  }

  // ---- deliver_interrupt ----

  function GateAddress(c: Cpu, vector: u8): u32 { Wrap(c.idtBase + vector as int * 8) }

  function Handler(m: seq<u8>, gate: nat): u32
    requires gate + 8 <= |m|
  {
    Word(m[gate], m[gate + 1], m[gate + 6], m[gate + 7])
  }

  function Selector(m: seq<u8>, gate: nat): u32
    requires gate + 8 <= |m|
  {
    Word(m[gate + 2], m[gate + 3], 0, 0)
  }

  /** Present bit of the type byte, and the low nibble that tells interrupt gates from trap gates. */
  predicate GatePresent(typeAttr: u8) { typeAttr >= 0x80 }

  predicate ClearsIf(typeAttr: u8) { typeAttr % 16 == 0xE }

  function SavedFlags(eflags: bv32, virtualIf: bool): bv32 {
    (eflags & !IF_BIT) | (if virtualIf then IF_BIT else 0) | ALWAYS_ONE
  }

  /** EFLAGS as a word in memory, and back. */
  function WordOf(flags: bv32): u32 { flags as int }

  function FlagsOf(w: u32): bv32 { w as bv32 }

  lemma BackAndForth(f: bv32)
    ensures FlagsOf(WordOf(f)) == f
  {
  }

  function Push(c: Cpu, v: u32): (r: Cpu)
    requires c.Valid()
    ensures r.Valid()
  {
    var esp := Wrap(c.esp - 4);
    c.(esp := esp, mem := GuestWrite(c.mem, esp, v, 4))
  }

  /** Halted: the delivery gives up. Wild: the descriptor address wraps past its bound check. */
  datatype Delivery = Delivered(cpu: Cpu) | Halted | Wild

  function Deliver(c: Cpu, vector: u8, returnEip: u32, error: Option<u32>): (r: Delivery)
    requires c.Valid()
    ensures r.Delivered? ==> r.cpu.Valid()
  {
    var gate := GateAddress(c, vector);
    if vector as int * 8 + 7 > c.idtLimit then Halted
    else if Wrap(gate + 8) > RAM_SIZE then Halted
    else if gate + 8 > RAM_SIZE then Wild
    else if !GatePresent(c.mem[gate + 5]) then Halted
    else if c.esp < (if error.Some? then 16 else 12) || c.esp > RAM_SIZE then Halted
    else
      var framed := Push(Push(Push(c, WordOf(SavedFlags(c.eflags, c.virtualIf))), Selector(c.mem, gate)), returnEip);
      var c1 := if error.Some? then Push(framed, error.value) else framed;
      Delivered(c1.(virtualIf := c.virtualIf && !ClearsIf(c.mem[gate + 5]), eip := Handler(c.mem, gate)))
  }

  // ---- iret_helper ----

  function Iret(c: Cpu): (r: Cpu)
    requires c.Valid()
    ensures r.Valid()
  {
    var flags := FlagsOf(GuestRead(c.mem, Wrap(c.esp + 8), 4));
    c.(eip := GuestRead(c.mem, c.esp, 4),
       esp := Wrap(c.esp + 12),
       eflags := PoppedFlags(flags),
       virtualIf := PoppedIf(flags))
  }

  function PoppedFlags(f: bv32): bv32 { (f & IRET_MASK) | ALWAYS_ONE }

  predicate PoppedIf(f: bv32) { f & IF_BIT != 0 }

  /** IRETD with its frame in RAM: EIP and the flags from the frame, ESP past it. Of the flags, bits 1, 3, 5, 15 and 22 to
      31 are dropped and bit 1 is set again; bit 9 is the virtual interrupt flag. */
  lemma IretOutcome(c: Cpu)
    requires c.Valid() && c.esp + 12 <= 0x800_0000
    ensures var r, f := Iret(c), Read32(c.mem, c.esp + 8) as bv32;
      && r == c.(eip := Read32(c.mem, c.esp), esp := c.esp + 12, eflags := r.eflags, virtualIf := f & 0x200 == 0x200)
      && r.eflags == (f & 0x003F_7FD5) | 2
  {
    hide Read32, GuestRead, PoppedFlags, PoppedIf, FlagsOf;
    WrapSmall(c.esp + 8);
    WrapSmall(c.esp + 12);
    FrameWord(c.mem, c.esp);
    FrameWord(c.mem, c.esp + 8);
    FlagWord(Read32(c.mem, c.esp + 8));
  }

  lemma FrameWord(m: seq<u8>, a: nat)
    requires |m| == WINDOW_SIZE && a + 4 <= RAM_SIZE
    ensures GuestRead(m, a, 4) == Read32(m, a)
  {
  }

  lemma FlagWord(w: u32)
    ensures FlagsOf(w) == w as bv32
    ensures PoppedFlags(FlagsOf(w)) == (w as bv32 & 0x003F_7FD5) | 2
    ensures PoppedIf(FlagsOf(w)) <==> w as bv32 & 0x200 == 0x200
  {
  }

  // ---- One frame ----

  predicate Within(a: int, lo: int, hi: int) { lo <= a < hi }

  ghost function Range(lo: int, hi: int): iset<int> { iset a: int | Within(a, lo, hi) }

  /** A delivery without error code leaves exactly this frame and changes no other byte. */
  lemma FrameLayout(c: Cpu, vector: u8, returnEip: u32)
    requires c.Valid() && Deliver(c, vector, returnEip, None).Delivered?
    ensures var c1 := Deliver(c, vector, returnEip, None).cpu;
      && c1.esp == c.esp - 12 && 12 <= c.esp <= RAM_SIZE && c1.idtBase == c.idtBase && c1.idtLimit == c.idtLimit
      && Read32(c1.mem, c1.esp) == returnEip
      && Read32(c1.mem, c1.esp + 4) == Selector(c.mem, GateAddress(c, vector))
      && Read32(c1.mem, c1.esp + 8) == WordOf(SavedFlags(c.eflags, c.virtualIf))
      && SameOutside(c.mem, c1.mem, c1.esp, c.esp)
  {
    hide Read32, Write32, WordOf, SavedFlags, Handler, Selector, SameOutside;
    var gate := GateAddress(c, vector);
    WrapSmall(c.esp - 4);
    WrapSmall(c.esp - 8);
    WrapSmall(c.esp - 12);
    ThreeWords(c.mem, c.esp - 12, WordOf(SavedFlags(c.eflags, c.virtualIf)), Selector(c.mem, gate), returnEip);
  }

  /** Three words pushed one below the other. */
  lemma ThreeWords(m: seq<u8>, a: nat, x: u32, y: u32, z: u32)
    requires a + 12 <= |m|
    ensures var r := Write32(Write32(Write32(m, a + 8, x), a + 4, y), a, z);
      Read32(r, a) == z && Read32(r, a + 4) == y && Read32(r, a + 8) == x && SameOutside(m, r, a, a + 12)
  {
    hide Word, ByteOf, Read32;
    var m1 := Write32(m, a + 8, x);
    var m2 := Write32(m1, a + 4, y);
    ReadAfterWrite(m2, a, z, a);
    ReadAfterWrite(m2, a, z, a + 4);
    ReadAfterWrite(m2, a, z, a + 8);
    ReadAfterWrite(m1, a + 4, y, a + 4);
    ReadAfterWrite(m1, a + 4, y, a + 8);
    ReadAfterWrite(m, a + 8, x, a + 8);
  }

  /** Whether an interrupt is delivered: the descriptor lies within the IDT limit and in RAM and is present, and the
      frame of three words, or four with an error code, fits under an ESP in RAM. */
  predicate Deliverable(c: Cpu, vector: u8, words: nat)
    requires c.Valid()
  {
    var gate := (c.idtBase + vector as int * 8) % 0x1_0000_0000;
    vector as int * 8 + 7 <= c.idtLimit && gate + 8 <= 0x800_0000 && c.mem[gate + 5] / 0x80 == 1 && 4 * words <= c.esp <= 0x800_0000
  }

  /** When a delivery happens, and when its bound check wraps. */
  lemma DeliveryHappens(c: Cpu, vector: u8, returnEip: u32, error: Option<u32>)
    requires c.Valid()
    ensures var d := Deliver(c, vector, returnEip, error);
      && (d.Delivered? <==> Deliverable(c, vector, if error.Some? then 4 else 3))
      && (d.Wild? <==> vector as int * 8 + 7 <= c.idtLimit && (c.idtBase + vector as int * 8) % 0x1_0000_0000 >= 0xFFFF_FFF8)
  {
    hide Read32, Write32, WordOf, SavedFlags, Word;
  }

  /** Its whole frame, with or without an error code, and what it leaves alone. */
  lemma DeliveryOutcome(c: Cpu, vector: u8, returnEip: u32, error: Option<u32>)
    requires c.Valid() && Deliver(c, vector, returnEip, error).Delivered?
    ensures Deliverable(c, vector, if error.Some? then 4 else 3)
    ensures var words := if error.Some? then 4 else 3;
      var gate, c1 := (c.idtBase + vector as int * 8) % 0x1_0000_0000, Deliver(c, vector, returnEip, error).cpu;
      && c1.esp == c.esp - 4 * words && SameOutside(c.mem, c1.mem, c1.esp, c.esp)
      && Read32(c1.mem, c.esp - 4) == ((c.eflags & 0xFFFF_FDFF) | (if c.virtualIf then 0x202 else 2)) as int
      && Read32(c1.mem, c.esp - 8) == c.mem[gate + 2] + 0x100 * c.mem[gate + 3] as int
      && Read32(c1.mem, c.esp - 12) == returnEip
      && (error.Some? ==> Read32(c1.mem, c.esp - 16) == error.value)
      && c1.eip == Word(c.mem[gate], c.mem[gate + 1], c.mem[gate + 6], c.mem[gate + 7])
      && c1.virtualIf == (c.virtualIf && c.mem[gate + 5] % 0x10 != 14)
      && c1.eflags == c.eflags && c1.idtBase == c.idtBase && c1.idtLimit == c.idtLimit
  {
    hide Read32, Write32, WordOf, SavedFlags, Word, SameOutside;
    var gate := GateAddress(c, vector);
    SavedWord(c.eflags, c.virtualIf);
    DeliveryHappens(c, vector, returnEip, error);
    WrapSmall(c.esp - 4);
    WrapSmall(c.esp - 8);
    WrapSmall(c.esp - 12);
    var flags := WordOf(SavedFlags(c.eflags, c.virtualIf));
    ThreeWords(c.mem, c.esp - 12, flags, Selector(c.mem, gate), returnEip);
    SelectorWord(c.mem, gate);
    if error.Some? {
      WrapSmall(c.esp - 16);
      var m := Write32(Write32(Write32(c.mem, c.esp - 4, flags), c.esp - 8, Selector(c.mem, gate)), c.esp - 12, returnEip);
      FourthWord(c.mem, m, c.esp - 16, error.value);
    }
  }

  lemma SavedWord(eflags: bv32, virtualIf: bool)
    ensures SavedFlags(eflags, virtualIf) == (eflags & 0xFFFF_FDFF) | (if virtualIf then 0x202 else 2)
    ensures WordOf(SavedFlags(eflags, virtualIf)) == ((eflags & 0xFFFF_FDFF) | (if virtualIf then 0x202 else 2)) as int
  {
  }

  lemma SelectorWord(m: seq<u8>, gate: nat)
    requires gate + 8 <= |m|
    ensures Selector(m, gate) == m[gate + 2] + 0x100 * m[gate + 3] as int
  {
  }

  /** One more word pushed below three. */
  lemma FourthWord(m: seq<u8>, m1: seq<u8>, a: nat, w: u32)
    requires a + 16 <= |m| && SameOutside(m, m1, a + 4, a + 16)
    ensures var r := Write32(m1, a, w);
      && Read32(r, a) == w && Read32(r, a + 4) == Read32(m1, a + 4) && Read32(r, a + 8) == Read32(m1, a + 8)
      && Read32(r, a + 12) == Read32(m1, a + 12) && SameOutside(m, r, a, a + 16)
  {
    hide Word, ByteOf, Read32;
    ReadAfterWrite(m1, a, w, a);
    ReadAfterWrite(m1, a, w, a + 4);
    ReadAfterWrite(m1, a, w, a + 8);
    ReadAfterWrite(m1, a, w, a + 12);
  }

  /** A 32-bit gate descriptor (SDM Vol. 3A section 6.11): split offset, selector, type byte. */
  function GateBytes(handler: u32, selector: nat, typeAttr: u8): seq<u8>
    requires selector < 0x1_0000
  {
    [ByteOf(handler, 0), ByteOf(handler, 1), ByteOf(selector, 0), ByteOf(selector, 1), 0, typeAttr,
     ByteOf(handler, 2), ByteOf(handler, 3)]
  }

  /** A delivery through a gate descriptor enters its handler, pushes its selector, and clears the virtual interrupt
      flag exactly for an interrupt gate. */
  lemma GateEnters(c: Cpu, vector: u8, returnEip: u32, handler: u32, selector: nat, typeAttr: u8)
    requires c.Valid() && selector < 0x1_0000 && Deliver(c, vector, returnEip, None).Delivered?
    requires var gate := GateAddress(c, vector);
      gate + 8 <= |c.mem| && c.mem[gate..gate + 8] == GateBytes(handler, selector, typeAttr)
    ensures var c1 := Deliver(c, vector, returnEip, None).cpu;
      && c1.eip == handler && c1.esp + 8 <= |c1.mem| && Read32(c1.mem, c1.esp + 4) == selector
      && c1.virtualIf == (c.virtualIf && typeAttr % 16 != 0xE)
      && c1.eflags == c.eflags
  {
    hide SavedFlags, WordOf, GuestWrite, Read32, Handler, Selector, GateBytes;
    GateFields(c.mem, GateAddress(c, vector), handler, selector, typeAttr);
    FrameLayout(c, vector, returnEip);
  }

  lemma GateFields(m: seq<u8>, gate: nat, handler: u32, selector: nat, typeAttr: u8)
    requires selector < 0x1_0000 && gate + 8 <= |m| && m[gate..gate + 8] == GateBytes(handler, selector, typeAttr)
    ensures Handler(m, gate) == handler && Selector(m, gate) == selector && m[gate + 5] == typeAttr
  {
    hide Word, ByteOf;
    var g, b := m[gate..gate + 8], GateBytes(handler, selector, typeAttr);
    assert m[gate] == g[0] == b[0] && m[gate + 1] == g[1] == b[1] && m[gate + 2] == g[2] == b[2];
    assert m[gate + 3] == g[3] == b[3] && m[gate + 5] == g[5] == b[5];
    assert m[gate + 6] == g[6] == b[6] && m[gate + 7] == g[7] == b[7];
    BytesJoin(handler);
    SmallWord(selector);
  }

  lemma SmallWord(w: nat)
    requires w < 0x1_0000
    ensures Word(ByteOf(w, 0), ByteOf(w, 1), 0, 0) == w
  {
  }

  predicate SameOutside(m: seq<u8>, n: seq<u8>, lo: int, hi: int) {
    |m| == |n| && forall a :: 0 <= a < |m| && !(lo <= a < hi) ==> m[a] == n[a]
  }

  /** What IRETD restores of the flags that were saved. */
  predicate FlagsRestored(before: bv32, virtualIf: bool, after: bv32) {
    && after & IRET_MASK & !(IF_BIT | ALWAYS_ONE) == before & IRET_MASK & !(IF_BIT | ALWAYS_ONE)
    && (after & IF_BIT != 0 <==> virtualIf)
    && after & ALWAYS_ONE != 0
    && after & !(IRET_MASK | ALWAYS_ONE) == 0
  }

  lemma SavedFlagsReturn(eflags: bv32, virtualIf: bool)
    ensures var f := SavedFlags(eflags, virtualIf);
      && (f & IF_BIT != 0 <==> virtualIf) && FlagsRestored(eflags, virtualIf, (f & IRET_MASK) | ALWAYS_ONE)
  {
  }

  /** IRETD at an intact frame undoes the delivery, whatever happened to the registers in between. */
  lemma IretUndoes(c: Cpu, vector: u8, returnEip: u32, c2: Cpu)
    requires c.Valid() && c2.Valid() && Deliver(c, vector, returnEip, None).Delivered?
    requires var c1 := Deliver(c, vector, returnEip, None).cpu;
      c2.esp == c1.esp && SameOn(c1.mem, c2.mem, Range(c1.esp, c.esp))
    ensures var r := Iret(c2);
      && r.eip == returnEip && r.esp == c.esp && r.virtualIf == c.virtualIf
      && FlagsRestored(c.eflags, c.virtualIf, r.eflags) && r.mem == c2.mem
  {
    hide Word, WordOf, FlagsOf, SavedFlags, FlagsRestored, Deliver;
    var c1 := Deliver(c, vector, returnEip, None).cpu;
    FrameLayout(c, vector, returnEip);
    assert Read32(c2.mem, c1.esp) == Read32(c1.mem, c1.esp);
    assert Read32(c2.mem, c1.esp + 8) == Read32(c1.mem, c1.esp + 8);
    WrapSmall(c1.esp + 8);
    WrapSmall(c1.esp + 12);
    BackAndForth(SavedFlags(c.eflags, c.virtualIf));
    SavedFlagsReturn(c.eflags, c.virtualIf);
  }

  // ---- Nesting ----

  /** What code at one level does: work that moves EIP, flags, virtual IF, ESP and memory, and further interrupts, each
      with the acts of its own handler up to its IRETD. */
  datatype Acts =
    | Done
    | Work(eip: u32, eflags: bv32, virtualIf: bool, esp: u32, mem: seq<u8>, next: Acts)
    | Interrupt(vector: u8, returnEip: u32, handler: Acts, next: Acts)

  /** Finished, or a delivery failed, or work broke the rules. */
  datatype Result = Finished(cpu: Cpu) | Stopped | Trespassed

  /** The rules of work: it leaves the protected bytes alone, keeps ESP at or below `top`, where its level began, and
      leaves room above `floor` for the frames still to come. */
  ghost predicate MayWork(acts: Acts, c: Cpu, keep: iset<int>, floor: nat, top: nat)
    requires acts.Work?
  {
    SameOn(c.mem, acts.mem, keep) && floor + 12 * Depth(acts.next) <= acts.esp <= top
  }

  /** Runs the acts of a level that began with ESP at `top` and must end with it there. An interrupt's handler is a
      level of its own, begun below its frame; everything from that frame up to `top` is protected from it. */
  ghost function Run(acts: Acts, c: Cpu, keep: iset<int>, floor: nat, top: nat): (r: Result)
    requires c.Valid()
    ensures r.Finished? ==> r.cpu.Valid()
  {
    match acts
    case Done => if c.esp == top then Finished(c) else Trespassed
    case Work(eip, eflags, virtualIf, esp, mem, next) =>
      if MayWork(acts, c, keep, floor, top) then Run(next, Worked(c, acts), keep, floor, top) else Trespassed
    case Interrupt(vector, returnEip, handler, next) =>
      match Deliver(c, vector, returnEip, None)
      case Delivered(c1) =>
        (match Run(handler, c1, keep + Range(c1.esp, top), floor, c1.esp)
         case Finished(c2) => Run(next, Iret(c2), keep, floor, top)
         case other => other)
      case _ => Stopped
  }

  function Worked(c: Cpu, w: Acts): Cpu
    requires w.Work?
  {
    c.(eip := w.eip, eflags := w.eflags, virtualIf := w.virtualIf, esp := w.esp, mem := w.mem)
  }

  function Max(a: nat, b: nat): nat { if a < b then b else a }

  function Depth(acts: Acts): nat {
    match acts
    case Done => 0
    case Work(_, _, _, _, _, next) => Depth(next)
    case Interrupt(_, _, handler, next) => Max(1 + Depth(handler), Depth(next))
  }

  function Vectors(acts: Acts): set<u8> {
    match acts
    case Done => {}
    case Work(_, _, _, _, _, next) => Vectors(next)
    case Interrupt(v, _, handler, next) => {v} + Vectors(handler) + Vectors(next)
  }

  /** A present gate inside the limit and RAM, whose bytes are protected. */
  ghost predicate GoodGate(c: Cpu, vector: u8, keep: iset<int>)
    requires c.Valid()
  {
    var gate := GateAddress(c, vector);
    && vector as int * 8 + 7 <= c.idtLimit && gate + 8 <= RAM_SIZE && GatePresent(c.mem[gate + 5])
    && forall a :: gate <= a < gate + 8 ==> a in keep
  }

  /** Gates present, room for every level, nothing protected where frames and stack data go. */
  ghost predicate Ready(acts: Acts, c: Cpu, keep: iset<int>, floor: nat, top: nat)
    requires c.Valid()
  {
    && (forall v :: v in Vectors(acts) ==> GoodGate(c, v, keep))
    && floor + 12 * Depth(acts) <= c.esp <= top <= RAM_SIZE
    && (forall a :: floor <= a < top ==> a !in keep)
  }

  lemma SameGates(acts: Acts, c: Cpu, d: Cpu, keep: iset<int>, more: iset<int>)
    requires c.Valid() && d.Valid() && SameOn(c.mem, d.mem, keep) && keep <= more
    requires d.idtBase == c.idtBase && d.idtLimit == c.idtLimit
    requires forall v :: v in Vectors(acts) ==> GoodGate(c, v, keep)
    ensures forall v :: v in Vectors(acts) ==> GoodGate(d, v, more)
  {
    forall v | v in Vectors(acts) ensures GoodGate(d, v, more) {
      assert GoodGate(c, v, keep);
      assert GateAddress(c, v) + 5 in keep;
    }
  }

  /** A delivery from a ready state goes through, and its handler is ready in turn. */
  lemma DeliveryReady(c: Cpu, acts: Acts, keep: iset<int>, floor: nat, top: nat)
    requires c.Valid() && acts.Interrupt? && Ready(acts, c, keep, floor, top)
    ensures var d := Deliver(c, acts.vector, acts.returnEip, None);
      && d.Delivered? && d.cpu.esp == c.esp - 12
      && Ready(acts.handler, d.cpu, keep + Range(d.cpu.esp, top), floor, d.cpu.esp)
      && SameOn(c.mem, d.cpu.mem, keep)
  {
    hide GateAddress, Vectors, Handler, Selector, SavedFlags, Push, GuestWrite;
    var v := acts.vector;
    VectorsOf(acts);
    assert GoodGate(c, v, keep);
    WrapSmall(GateAddress(c, v) + 8);
    var c1 := Deliver(c, v, acts.returnEip, None).cpu;
    FrameLayout(c, v, acts.returnEip);
    SameGates(acts.handler, c, c1, keep, keep + Range(c1.esp, top));
  }

  lemma VectorsOf(acts: Acts)
    requires acts.Interrupt?
    ensures acts.vector in Vectors(acts) && Vectors(acts.handler) <= Vectors(acts) && Vectors(acts.next) <= Vectors(acts)
  {
  }

  /** However deep interrupts nest, wherever their handlers move ESP and whatever else they do in between: from a ready
      state no delivery fails, and a level that finishes has its ESP back and every protected byte as it was. */
  lemma {:induction false} NestingKeepsStack(acts: Acts, c: Cpu, keep: iset<int>, floor: nat, top: nat)
    requires c.Valid() && Ready(acts, c, keep, floor, top)
    ensures !Run(acts, c, keep, floor, top).Stopped?
    ensures Run(acts, c, keep, floor, top).Finished? ==> var r := Run(acts, c, keep, floor, top).cpu;
      r.esp == top && r.idtBase == c.idtBase && r.idtLimit == c.idtLimit && SameOn(c.mem, r.mem, keep)
    decreases acts
  {
    hide Deliver, Iret, GoodGate, SameOn;
    match acts
    case Done => SameItself(c.mem, keep);
    case Work(_, _, _, _, mem, next) =>
      if MayWork(acts, c, keep, floor, top) {
        SameSize(c.mem, mem, keep);
        var d := Worked(c, acts);
        SameGates(next, c, d, keep, keep);
        NestingKeepsStack(next, d, keep, floor, top);
        if Run(next, d, keep, floor, top).Finished? { SameTwice(c.mem, mem, Run(next, d, keep, floor, top).cpu.mem, keep); }
      }
    case Interrupt(vector, returnEip, handler, next) =>
      DeliveryReady(c, acts, keep, floor, top);
      var c1 := Deliver(c, vector, returnEip, None).cpu;
      var inner := keep + Range(c1.esp, top);
      NestingKeepsStack(handler, c1, inner, floor, c1.esp);
      if Run(handler, c1, inner, floor, c1.esp).Finished? {
        var c2 := Run(handler, c1, inner, floor, c1.esp).cpu;
        Bracket(c, vector, returnEip, c2, keep, top);
        var d := Iret(c2);
        VectorsOf(acts);
        SameLess(c.mem, d.mem, keep, Range(c.esp, top));
        SameGates(next, c, d, keep, keep);
        NestingKeepsStack(next, d, keep, floor, top);
        if Run(next, d, keep, floor, top).Finished? { SameTwice(c.mem, d.mem, Run(next, d, keep, floor, top).cpu.mem, keep); }
      }
  }

  lemma SameItself(m: seq<u8>, keep: iset<int>)
    ensures SameOn(m, m, keep)
  {
  }

  lemma SameLess(m: seq<u8>, n: seq<u8>, keep: iset<int>, more: iset<int>)
    requires SameOn(m, n, keep + more)
    ensures SameOn(m, n, keep)
  {
  }

  lemma SameTwice(l: seq<u8>, m: seq<u8>, n: seq<u8>, keep: iset<int>)
    requires SameOn(l, m, keep) && SameOn(m, n, keep)
    ensures SameOn(l, n, keep)
  {
  }

  /** One delivery and its IRETD around a handler that kept the stack above it. */
  lemma Bracket(c: Cpu, vector: u8, returnEip: u32, c2: Cpu, keep: iset<int>, top: nat)
    requires c.Valid() && c2.Valid() && Deliver(c, vector, returnEip, None).Delivered? && c.esp <= top <= RAM_SIZE
    requires var c1 := Deliver(c, vector, returnEip, None).cpu;
      && c2.esp == c1.esp && c2.idtBase == c1.idtBase && c2.idtLimit == c1.idtLimit
      && SameOn(c.mem, c1.mem, keep) && SameOn(c1.mem, c2.mem, keep + Range(c1.esp, top))
    ensures var r := Iret(c2);
      && r.eip == returnEip && r.esp == c.esp && r.virtualIf == c.virtualIf
      && FlagsRestored(c.eflags, c.virtualIf, r.eflags)
      && r.idtBase == c.idtBase && r.idtLimit == c.idtLimit
      && SameOn(c.mem, r.mem, keep + Range(c.esp, top))
  {
    hide Deliver, FlagsRestored;
    FrameLayout(c, vector, returnEip);
    IretUndoes(c, vector, returnEip, c2);
  }

  /** An interrupt and everything nested in it is invisible to what it interrupted: EIP, ESP, the virtual interrupt
      flag, the flags IRETD keeps, and the stack above ESP are those of the moment of delivery, and execution goes on
      from there. */
  lemma InterruptIsTransparent(
    vector: u8, returnEip: u32, handler: Acts, next: Acts, c: Cpu, keep: iset<int>, floor: nat, top: nat)
    requires c.Valid() && Ready(Interrupt(vector, returnEip, handler, next), c, keep, floor, top)
    requires Run(Interrupt(vector, returnEip, handler, next), c, keep, floor, top) != Trespassed
    ensures Deliver(c, vector, returnEip, None).Delivered?
    ensures var c1 := Deliver(c, vector, returnEip, None).cpu;
      var during := Run(handler, c1, keep + Range(c1.esp, top), floor, c1.esp);
      && during.Finished?
      && var r := Iret(during.cpu);
      && r.eip == returnEip && r.esp == c.esp && r.virtualIf == c.virtualIf
      && FlagsRestored(c.eflags, c.virtualIf, r.eflags) && SameOn(c.mem, r.mem, keep + Range(c.esp, top))
      && Run(Interrupt(vector, returnEip, handler, next), c, keep, floor, top) == Run(next, r, keep, floor, top)
  {
    hide Deliver, Iret, GoodGate, SameOn, FlagsRestored;
    var acts := Interrupt(vector, returnEip, handler, next);
    DeliveryReady(c, acts, keep, floor, top);
    var c1 := Deliver(c, vector, returnEip, None).cpu;
    var inner := keep + Range(c1.esp, top);
    NestingKeepsStack(handler, c1, inner, floor, c1.esp);
    Bracket(c, vector, returnEip, Run(handler, c1, inner, floor, c1.esp).cpu, keep, top);
  }

  // ---- In place ----

  class InterruptUnit {
    const window: array<u8>
    var esp: u32
    var eip: u32
    var eflags: bv32
    var virtualIf: bool
    var idtBase: u32
    var idtLimit: u32
    var halted: bool

    constructor (window: array<u8>, esp: u32, eip: u32, eflags: bv32, virtualIf: bool, idtBase: u32, idtLimit: u32)
      requires window.Length == WINDOW_SIZE
      ensures this.window == window && !halted
      ensures Abstract() == Cpu(window[..], esp, eip, eflags, virtualIf, idtBase, idtLimit)
    {
      this.window, this.esp, this.eip, this.eflags := window, esp, eip, eflags;
      this.virtualIf, this.idtBase, this.idtLimit, halted := virtualIf, idtBase, idtLimit, false;
    }

    ghost function Abstract(): (c: Cpu)
      reads this, window
      ensures window.Length == WINDOW_SIZE ==> c.Valid()
    {
      Cpu(window[..], esp, eip, eflags, virtualIf, idtBase, idtLimit)
    }

    method Push32(v: u32)
      requires window.Length == WINDOW_SIZE
      modifies this`esp, window
      ensures Abstract() == Push(old(Abstract()), v)
    {
      esp := Wrap(esp - 4);
      StoreAt(window, esp, v, 4);
    }

    /** deliver_interrupt. */
    method DeliverInterrupt(vector: u8, returnEip: u32, error: Option<u32>)
      requires window.Length == WINDOW_SIZE && Deliver(Abstract(), vector, returnEip, error) != Wild
      modifies this, window
      ensures match Deliver(old(Abstract()), vector, returnEip, error)
        case Delivered(c) => Abstract() == c && halted == old(halted)
        case _ => Abstract() == old(Abstract()) && halted
    {
      hide GuestWrite, Handler, Selector, SavedFlags, WordOf;
      if vector as int * 8 + 7 > idtLimit { halted := true; return; }
      var gate := Wrap(idtBase + vector as int * 8);
      if Wrap(gate + 8) > RAM_SIZE { halted := true; return; }
      var handler := HandlerOf(gate);
      var selector := SelectorOf(gate);
      var typeAttr := window[gate + 5];
      if !GatePresent(typeAttr) { halted := true; return; }
      if esp < (if error.Some? then 16 else 12) || esp > RAM_SIZE { halted := true; return; }
      var saved := WordOf(SavedFlags(eflags, virtualIf));
      Push32(saved);
      Push32(selector);
      Push32(returnEip);
      if error.Some? { Push32(error.value); }
      if ClearsIf(typeAttr) { virtualIf := false; }
      eip := handler;
    }

    method HandlerOf(gate: u32) returns (h: u32)
      requires window.Length == WINDOW_SIZE && gate + 8 <= RAM_SIZE
      ensures h == Handler(window[..], gate)
    {
      h := Word(window[gate], window[gate + 1], window[gate + 6], window[gate + 7]);
    }

    method SelectorOf(gate: u32) returns (s: u32)
      requires window.Length == WINDOW_SIZE && gate + 8 <= RAM_SIZE
      ensures s == Selector(window[..], gate)
    {
      s := Word(window[gate + 2], window[gate + 3], 0, 0);
    }

    /** iret_helper. */
    method Iretd()
      requires window.Length == WINDOW_SIZE
      modifies this
      ensures Abstract() == Iret(old(Abstract())) && halted == old(halted)
    {
      hide GuestRead, FlagsOf;
      var newEip := LoadAt(window, esp, 4);
      var flags := LoadAt(window, Wrap(esp + 8), 4);
      esp := Wrap(esp + 12);
      eip := newEip;
      eflags := (FlagsOf(flags) & IRET_MASK) | ALWAYS_ONE;
      virtualIf := FlagsOf(flags) & IF_BIT != 0;
    }
  }
}
