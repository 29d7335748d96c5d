/** The part of x86-64 that the emitter produces: decoding (Intel SDM Vol. 2A chapter 2) and execution. */
module HostCode {
  import opened Words

  const TWO_64 := 0x1_0000_0000_0000_0000

  // Host register numbers with a fixed role during a trace.
  const R12: nat := 12  // fast memory base
  const R13: nat := 13  // guest context
  const R14: nat := 14  // effective address
  const R15: nat := 15

  datatype Base = NoBase | BaseReg(r: nat) | Rip
  datatype Mem = Mem(base: Base, index: Option<nat>, scale: nat, disp: int)
  datatype Rm = RmReg(r: nat) | RmMem(m: Mem)

  datatype Insn =
    | MovImm(dst: nat, imm: u32)
    | Load(dst: nat, src: Rm, size: nat)
    | Store(to: Rm, from: nat, size: nat)
    | StoreImm(to: Rm, value: u32, size: nat)
    | LoadExtended(dst: nat, src: Rm, size: nat, signed: bool)
    | Lea(dst: nat, m: Mem)
    | Add(dst: nat, src: Rm)
    | Call(rel: int)
    | Jmp(rel: int)
    | Nop

  /** An instruction and how many bytes it takes. */
  datatype Decoded = Decoded(insn: Insn, len: nat)

  function Num(b: bool): nat { if b then 1 else 0 }

  function Disp8(b: seq<u8>, at: nat): Option<int> {
    if at < |b| then Some(Signed(b[at], 8)) else None
  }

  function Imm32(b: seq<u8>, at: nat): Option<u32> {
    if at + 4 <= |b| then Some(Read32(b, at)) else None
  }

  datatype RmAt = RmAt(rm: Rm, reg: nat, next: nat)

  /** Attach the displacement that `mod` asks for; `next` is where it starts. */
  function WithDisp(b: seq<u8>, next: nat, mod: nat, base: Base, index: Option<nat>, scale: nat, reg: nat): Option<RmAt> {
    if mod == 0 && base.BaseReg? then Some(RmAt(RmMem(Mem(base, index, scale, 0)), reg, next))
    else if mod == 1 then
      match Disp8(b, next)
      case None => None
      case Some(d) => Some(RmAt(RmMem(Mem(base, index, scale, d)), reg, next + 1))
    else
      match Imm32(b, next)
      case None => None
      case Some(w) => Some(RmAt(RmMem(Mem(base, index, scale, Signed(w, 32))), reg, next + 4))
  }

  /** ModRM, SIB and displacement at position `at`, under the REX bits. */
  function DecodeRm(b: seq<u8>, at: nat, r: bool, x: bool, bb: bool): Option<RmAt> {
    if at >= |b| then None
    else
      var mod, reg, rm := b[at] / 0x40, b[at] / 8 % 8 + 8 * Num(r), b[at] % 8;
      if mod == 3 then Some(RmAt(RmReg(rm + 8 * Num(bb)), reg, at + 1))
      else if rm == 4 then
        if at + 1 >= |b| then None
        else
          var s := b[at + 1];
          var idx := s / 8 % 8 + 8 * Num(x);
          var index := if idx == 4 then None else Some(idx);
          var scale := if s / 0x40 == 0 then 1 else if s / 0x40 == 1 then 2 else if s / 0x40 == 2 then 4 else 8;
          var base := if s % 8 == 5 && mod == 0 then NoBase else BaseReg(s % 8 + 8 * Num(bb));
          WithDisp(b, at + 2, mod, base, index, scale, reg)
      else if rm == 5 && mod == 0 then WithDisp(b, at + 1, mod, Rip, None, 1, reg)
      else WithDisp(b, at + 1, mod, BaseReg(rm + 8 * Num(bb)), None, 1, reg)
  }

  /** The instruction at the front of `b`, if it is one of the emitter's. */
  function Decode(b: seq<u8>): Option<Decoded> {
    var word := |b| > 0 && b[0] == 0x66;
    var at := Num(word);
    if at >= |b| then None
    else
      var rex := 0x40 <= b[at] <= 0x4F;
      var w, r := rex && b[at] / 8 % 2 == 1, rex && b[at] / 4 % 2 == 1;
      var x, bb := rex && b[at] / 2 % 2 == 1, rex && b[at] % 2 == 1;
      var o := at + Num(rex);
      if o >= |b| || w then None
      else DecodeOpcode(b, o, word, r, x, bb)
  }

  function OperandSize(word: bool): nat { if word then 2 else 4 }

  function DecodeOpcode(b: seq<u8>, o: nat, word: bool, r: bool, x: bool, bb: bool): Option<Decoded>
    requires o < |b|
  {
    var op := b[o];
    if op == 0x90 then Some(Decoded(Nop, o + 1))
    else if 0xB8 <= op <= 0xBF && !word then
      match Imm32(b, o + 1)
      case None => None
      case Some(v) => Some(Decoded(MovImm(op - 0xB8 + 8 * Num(bb), v), o + 5))
    else if op in {0xE8, 0xE9} && !word then
      match Imm32(b, o + 1)
      case None => None
      case Some(v) =>
        var rel := Signed(v, 32);
        Some(Decoded(if op == 0xE8 then Call(rel) else Jmp(rel), o + 5))
    else if op == 0x0F then
      if o + 1 >= |b| || b[o + 1] !in {0xB6, 0xB7, 0xBE, 0xBF} || word then None
      else
        match DecodeRm(b, o + 2, r, x, bb)
        case None => None
        case Some(m) =>
          Some(Decoded(LoadExtended(m.reg, m.rm, if b[o + 1] in {0xB6, 0xBE} then 1 else 2, b[o + 1] in {0xBE, 0xBF}), m.next))
    else
      match DecodeRm(b, o + 1, r, x, bb)
      case None => None
      case Some(m) => DecodeWithRm(b, op, m, word)
  }

  function DecodeWithRm(b: seq<u8>, op: u8, m: RmAt, word: bool): Option<Decoded> {
    if op == 0x8B then Some(Decoded(Load(m.reg, m.rm, OperandSize(word)), m.next))
    else if op == 0x8A then Some(Decoded(Load(m.reg, m.rm, 1), m.next))
    else if op == 0x89 then Some(Decoded(Store(m.rm, m.reg, OperandSize(word)), m.next))
    else if op == 0x88 then Some(Decoded(Store(m.rm, m.reg, 1), m.next))
    else if op == 0x8D && m.rm.RmMem? && !word then Some(Decoded(Lea(m.reg, m.rm.m), m.next))
    else if op == 0x03 && !word then Some(Decoded(Add(m.reg, m.rm), m.next))
    else if op == 0xC6 && m.reg % 8 == 0 && m.next < |b| then Some(Decoded(StoreImm(m.rm, b[m.next], 1), m.next + 1))
    else if op == 0xC7 && m.reg % 8 == 0 && word && m.next + 2 <= |b| then
      Some(Decoded(StoreImm(m.rm, b[m.next] + 0x100 * b[m.next + 1] as int, 2), m.next + 2))
    else if op == 0xC7 && m.reg % 8 == 0 && !word && m.next + 4 <= |b| then
      Some(Decoded(StoreImm(m.rm, Read32(b, m.next), 4), m.next + 4))
    else None
  }

  // ---- Execution of the effect-free part: address arithmetic into registers ----

  datatype Flags = Flags(cf: bool, pf: bool, af: bool, zf: bool, sf: bool, of: bool)

  /** Sixteen 64-bit registers, the arithmetic flags, and 32-bit loads from host memory. */
  datatype Host = Host(regs: seq<int>, flags: Flags, mem: int -> u32) {
    predicate Valid() {
      |regs| == 16 && forall i :: 0 <= i < 16 ==> 0 <= regs[i] < TWO_64
    }
  }

  function BaseValue(base: Base, h: Host): int {
    if base.BaseReg? && base.r < |h.regs| then h.regs[base.r] else 0
  }

  function IndexValue(index: Option<nat>, h: Host): int {
    if index.Some? && index.value < |h.regs| then h.regs[index.value] else 0
  }

  /** A 64-bit effective address. */
  function Address(m: Mem, h: Host): int {
    (BaseValue(m.base, h) + IndexValue(m.index, h) * m.scale + m.disp) % TWO_64
  }

  predicate EvenParity(low: u8) {
    (low % 2 + low / 2 % 2 + low / 4 % 2 + low / 8 % 2 + low / 0x10 % 2 + low / 0x20 % 2 + low / 0x40 % 2 + low / 0x80) % 2 == 0
  }

  function AddFlags(a: u32, b: u32): Flags {
    var sum := Wrap(a + b);
    Flags(a + b >= TWO_32, EvenParity(sum % 0x100), a % 0x10 + b % 0x10 >= 0x10, sum == 0, sum >= 0x8000_0000,
          Signed(a, 32) + Signed(b, 32) != Signed(sum, 32))
  }

  /** A 32-bit register write clears the upper half. */
  function SetReg(h: Host, r: nat, v: u32): Host {
    if r < |h.regs| then h.(regs := h.regs[r := v]) else h
  }

  function RmValue(rm: Rm, h: Host): u32 {
    match rm
    case RmReg(r) => if r < |h.regs| then Wrap(h.regs[r]) else 0
    case RmMem(m) => h.mem(Address(m, h))
  }

  function Exec(i: Insn, h: Host): Option<Host> {
    match i
    case MovImm(d, v) => Some(SetReg(h, d, v))
    case Load(d, s, 4) => if s.RmMem? && s.m.base.Rip? then None else Some(SetReg(h, d, RmValue(s, h)))
    case Lea(d, m) => if m.base.Rip? then None else Some(SetReg(h, d, Wrap(Address(m, h))))
    case Add(d, s) =>
      if (s.RmMem? && s.m.base.Rip?) || d >= |h.regs| then None
      else
        var a, b := Wrap(h.regs[d]), RmValue(s, h);
        Some(SetReg(h, d, Wrap(a + b)).(flags := AddFlags(a, b)))
    case Nop => Some(h)
    case _ => None
  }

  /** Decode and run straight-line code to its end. */
  function RunCode(b: seq<u8>, h: Host): Option<Host>
    decreases |b|
  {
    if b == [] then Some(h)
    else
      match Decode(b)
      case None => None
      case Some(d) =>
        if d.len == 0 || d.len > |b| then None
        else
          match Exec(d.insn, h)
          case None => None
          case Some(h') => RunCode(b[d.len..], h')
  }
}
