/** Fast memory accesses: how they are emitted, how the fault handler reads them back, and how it patches them. */
module Fastmem {
  import opened Words
  import opened HostCode
  import opened Emitter
  import EaEmitter

  const GP_ESP: nat := 4
  const REX_XB: u8 := 0x43
  const REX_RXB: u8 := 0x47
  const SIB_R12_R14: u8 := 0x34
  const NOP: u8 := 0x90
  const R8: nat := 8  // carries guest ESP
  const STORE_R8_TO_ESP: seq<u8> := [0x45, 0x89, 0x45, EaEmitter.CTX_GP_ESP]

  /** A patchable access to [R12 + R14]. */
  datatype Access =
    | Move(enc: nat, size: nat, load: bool)
    | Extend(enc: nat, size: nat, signed: bool, espInR8: bool)
    | Immediate(size: nat, value: u32)

  predicate Emittable(a: Access) {
    match a
    case Move(enc, size, _) => enc < 8 && size in {1, 2, 4}
    case Extend(enc, size, _, _) => enc < 8 && size in {1, 2}
    case Immediate(size, v) => size in {1, 2, 4} && (size == 1 ==> v < 0x100) && (size == 2 ==> v < 0x1_0000)
  }

  function AccessBytes(a: Access): seq<u8>
    requires Emittable(a)
  {
    match a
    case Move(enc, 1, load) => [REX_XB, if load then 0x8A else 0x88, enc * 8 + 4, SIB_R12_R14]
    case Move(enc, 2, load) => [0x66, REX_XB, if load then 0x8B else 0x89, enc * 8 + 4, SIB_R12_R14]
    case Move(enc, _, load) => [REX_XB, if load then 0x8B else 0x89, enc * 8 + 4, SIB_R12_R14]
    case Extend(enc, size, signed, esp) =>
      [if esp then REX_RXB else REX_XB, 0x0F,
       if size == 1 then (if signed then 0xBE else 0xB6) else (if signed then 0xBF else 0xB7),
       (if esp then 0 else enc * 8) + 4, SIB_R12_R14]
    case Immediate(1, v) => [REX_XB, 0xC6, 0x04, SIB_R12_R14, v]
    case Immediate(2, v) => [0x66, REX_XB, 0xC7, 0x04, SIB_R12_R14, v % 0x100, v / 0x100]
    case Immediate(_, v) =>
      [REX_XB, 0xC7, 0x04, SIB_R12_R14, ByteOf(v, 0), ByteOf(v, 1), ByteOf(v, 2), ByteOf(v, 3)]
  }

  /** A load into guest ESP goes to R8 and from there into the context. */
  function EspStore(a: Access): seq<u8> {
    if a.Extend? && a.espInR8 then STORE_R8_TO_ESP else []
  }

  /** The patchable region: the access with its store to guest ESP, padded with NOPs to at least five bytes. */
  function Region(a: Access): seq<u8>
    requires Emittable(a)
  {
    var b := AccessBytes(a) + EspStore(a);
    if |b| < 5 then b + seq(5 - |b|, _ => NOP) else b
  }

  /** emit_fastmem_op. */
  method EmitMove(e: Emitter, enc: nat, size: nat, load: bool)
    requires Emittable(Move(enc, size, load)) && e.Valid() && e.pos + 5 <= e.buf.Length
    modifies e`pos, e.buf
    ensures e.Valid() && e.Contents() == old(e.Contents()) + AccessBytes(Move(enc, size, load))
  {
    hide e.Contents;
    if size == 2 { e.Emit8(0x66); }
    e.Emit4(REX_XB, if size == 1 then (if load then 0x8A else 0x88) else if load then 0x8B else 0x89, enc * 8 + 4, SIB_R12_R14);
  }

  /** emit_fastmem_movzx and emit_fastmem_movsx. */
  method EmitExtend(e: Emitter, enc: nat, size: nat, signed: bool, espInR8: bool)
    requires Emittable(Extend(enc, size, signed, espInR8)) && e.Valid() && e.pos + 5 <= e.buf.Length
    modifies e`pos, e.buf
    ensures e.Valid() && e.Contents() == old(e.Contents()) + AccessBytes(Extend(enc, size, signed, espInR8))
  {
    hide e.Contents;
    var op := if size == 1 then (if signed then 0xBE else 0xB6) else (if signed then 0xBF else 0xB7);
    e.Emit4(if espInR8 then REX_RXB else REX_XB, 0x0F, op, (if espInR8 then 0 else enc * 8) + 4);
    e.Emit8(SIB_R12_R14);
  }

  /** emit_fastmem_store_imm32. */
  method EmitStoreImm32(e: Emitter, v: u32)
    requires e.Valid() && e.pos + 8 <= e.buf.Length
    modifies e`pos, e.buf
    ensures e.Valid() && e.Contents() == old(e.Contents()) + AccessBytes(Immediate(4, v))
  {
    hide e.Contents, ByteOf;
    e.Emit4(REX_XB, 0xC7, 0x04, SIB_R12_R14);
    e.Emit32(v);
  }

  /** emit_fastmem_store_imm16. */
  method EmitStoreImm16(e: Emitter, v: u32)
    requires v < 0x1_0000 && e.Valid() && e.pos + 7 <= e.buf.Length
    modifies e`pos, e.buf
    ensures e.Valid() && e.Contents() == old(e.Contents()) + AccessBytes(Immediate(2, v))
  {
    hide e.Contents;
    e.Emit8(0x66);
    e.Emit4(REX_XB, 0xC7, 0x04, SIB_R12_R14);
    e.Emit8(v % 0x100);
    e.Emit8(v / 0x100);
  }

  /** emit_fastmem_store_imm8. */
  method EmitStoreImm8(e: Emitter, v: u8)
    requires e.Valid() && e.pos + 5 <= e.buf.Length
    modifies e`pos, e.buf
    ensures e.Valid() && e.Contents() == old(e.Contents()) + AccessBytes(Immediate(1, v))
  {
    hide e.Contents;
    e.Emit4(REX_XB, 0xC6, 0x04, SIB_R12_R14);
    e.Emit8(v);
  }

  /** emit_store_r8_to_esp. */
  method EmitStoreR8ToEsp(e: Emitter)
    requires e.Valid() && e.pos + 4 <= e.buf.Length
    modifies e`pos, e.buf
    ensures e.Valid() && e.Contents() == old(e.Contents()) + STORE_R8_TO_ESP
  {
    hide e.Contents;
    e.Emit4(0x45, 0x89, 0x45, EaEmitter.CTX_GP_ESP);
  }

  method EmitAccess(e: Emitter, a: Access)
    requires Emittable(a) && e.Valid() && e.pos + 8 <= e.buf.Length
    modifies e`pos, e.buf
    ensures e.Valid() && e.Contents() == old(e.Contents()) + AccessBytes(a)
  {
    hide AccessBytes, e.Contents;
    match a {
      case Move(enc, size, load) => EmitMove(e, enc, size, load);
      case Extend(enc, size, signed, esp) => EmitExtend(e, enc, size, signed, esp);
      case Immediate(4, v) => EmitStoreImm32(e, v);
      case Immediate(2, v) => EmitStoreImm16(e, v);
      case Immediate(_, v) => EmitStoreImm8(e, v);
    }
  }

  /** A whole patchable site: the access, its store to guest ESP and its padding; `len` goes into the site table. */
  method EmitSite(e: Emitter, a: Access) returns (len: nat)
    requires Emittable(a) && e.Valid() && e.pos + 9 <= e.buf.Length
    modifies e`pos, e.buf
    ensures e.Valid() && e.Contents() == old(e.Contents()) + Region(a)
    ensures len == |Region(a)| == e.pos - old(e.pos)
  {
    hide AccessBytes;
    var start := e.pos;
    AccessLength(a);
    EmitAccess(e, a);
    assert |AccessBytes(a)| == e.pos - start;
    if a.Extend? && a.espInR8 { EmitStoreR8ToEsp(e); }
    assert e.Contents() == old(e.Contents()) + (AccessBytes(a) + EspStore(a));
    assert |AccessBytes(a) + EspStore(a)| == e.pos - start;
    e.PadTo(start, 5);
    len := e.pos - start;
  }

  lemma AccessLength(a: Access)
    requires Emittable(a)
    ensures |AccessBytes(a)| <= 8 && (a.Extend? ==> |AccessBytes(a)| == 5)
  {
  }

  // ---- The fault handler's decoder ----

  /** What the handler learns about the faulting access. */
  datatype Operands = ReadTo(reg: nat, size: nat) | WriteFrom(reg: nat, size: nat) | WriteValue(value: u32, size: nat)

  function ImmediateAt(b: seq<u8>, at: nat, size: nat): Option<Operands> {
    if size == 1 && at < |b| then Some(WriteValue(b[at], 1))
    else if size == 2 && at + 2 <= |b| then Some(WriteValue(b[at] + 0x100 * b[at + 1] as int, 2))
    else if size == 4 && at + 4 <= |b| then Some(WriteValue(Read32(b, at), 4))
    else None
  }

  function DecodeAccess(b: seq<u8>): Option<Operands> {
    var p := Num(|b| > 0 && b[0] == 0x66);
    if p + 4 > |b| then None
    else
      var rexR, opc := b[p] / 4 % 2 == 1, b[p + 1];
      var wide := if p == 1 then 2 else 4;
      if opc == 0x0F then
        var reg := if rexR then GP_ESP else b[p + 3] / 8 % 8;
        Some(ReadTo(reg, if b[p + 2] == 0xB6 || b[p + 2] == 0xBE then 1 else 2))
      else
        var reg := b[p + 2] / 8 % 8;
        if opc == 0x8B then Some(ReadTo(reg, wide))
        else if opc == 0x89 then Some(WriteFrom(reg, wide))
        else if opc == 0x8A then Some(ReadTo(reg, 1))
        else if opc == 0x88 then Some(WriteFrom(reg, 1))
        else if opc == 0xC7 then ImmediateAt(b, p + 4, wide)
        else if opc == 0xC6 then ImmediateAt(b, p + 4, 1)
        else None
  }

  /** The operands an access has. */
  function OperandsOf(a: Access): Operands {
    match a
    case Move(enc, size, true) => ReadTo(enc, size)
    case Move(enc, size, false) => WriteFrom(enc, size)
    case Extend(enc, size, _, esp) => ReadTo(if esp then GP_ESP else enc, size)
    case Immediate(size, v) => WriteValue(v, size)
  }

  /** Nothing but the seven opcodes of accesses is decoded. */
  lemma OtherOpcodesRefused(b: seq<u8>)
    requires DecodeAccess(b).Some?
    ensures |b| >= 4 && b[if b[0] == 0x66 then 2 else 1] in {0x0F, 0x88, 0x89, 0x8A, 0x8B, 0xC6, 0xC7}
  {
  }

  lemma RegionBytes(a: Access, tail: seq<u8>)
    requires Emittable(a)
    ensures |Region(a)| >= 5 && |Region(a)| >= |AccessBytes(a)| >= 4
    ensures forall i :: 0 <= i < |AccessBytes(a)| ==> (Region(a) + tail)[i] == AccessBytes(a)[i]
  {
    hide ByteOf;
  }

  /** The handler's decoder inverts the emitter on every access, whatever code follows. */
  lemma DecoderInvertsEmitter(a: Access, tail: seq<u8>)
    requires Emittable(a)
    ensures DecodeAccess(Region(a) + tail) == Some(OperandsOf(a))
  {
    hide Region, ByteOf, Word;
    RegionBytes(a, tail);
    var b, c := Region(a) + tail, AccessBytes(a);
    assert b[0] == c[0] && b[1] == c[1] && b[2] == c[2] && b[3] == c[3];
    if a.Move? {
      ModRmFields(a.enc);
      if a.size == 2 { assert b[4] == c[4]; }
    } else if a.Extend? {
      ModRmFields(a.enc);
      assert b[4] == c[4];
    } else if a.size == 4 {
      BytesJoin(a.value);
      assert b[4] == c[4] && b[5] == c[5] && b[6] == c[6] && b[7] == c[7];
    } else if a.size == 2 {
      assert b[4] == c[4] && b[5] == c[5] && b[6] == c[6];
    } else {
      assert b[4] == c[4];
    }
  }

  lemma ModRmFields(enc: nat)
    requires enc < 8
    ensures (enc * 8 + 4) / 8 % 8 == enc && (enc * 8 + 4) % 8 == 4 && (enc * 8 + 4) / 0x40 == 0
  {
  }

  const FAST_MEM := Mem(BaseReg(R12), Some(R14), 1, 0)

  /** The guest register a host register stands for; guest ESP travels in R8. */
  function GuestReg(host: nat): nat {
    if host == R8 then GP_ESP else host
  }

  /** The operands of a host instruction that touches [R12 + R14]. */
  function HostOperands(i: Insn): Option<Operands> {
    match i
    case Load(d, RmMem(m), size) => if m == FAST_MEM then Some(ReadTo(GuestReg(d), size)) else None
    case LoadExtended(d, RmMem(m), size, _) => if m == FAST_MEM then Some(ReadTo(GuestReg(d), size)) else None
    case Store(RmMem(m), s, size) => if m == FAST_MEM then Some(WriteFrom(GuestReg(s), size)) else None
    case StoreImm(RmMem(m), v, size) => if m == FAST_MEM then Some(WriteValue(v, size)) else None
    case _ => None
  }

  /** The x86-64 instruction an access is. */
  function InsnOf(a: Access): Insn {
    match a
    case Move(enc, size, load) => if load then Load(enc, RmMem(FAST_MEM), size) else Store(RmMem(FAST_MEM), enc, size)
    case Extend(enc, size, signed, esp) => LoadExtended(if esp then R8 else enc, RmMem(FAST_MEM), size, signed)
    case Immediate(size, v) => StoreImm(RmMem(FAST_MEM), v, size)
  }

  lemma FastMemRm(b: seq<u8>, at: nat, r: bool, reg: nat)
    requires at + 1 < |b| && reg < 8 && b[at] == reg * 8 + 4 && b[at + 1] == SIB_R12_R14
    ensures DecodeRm(b, at, r, true, true) == Some(RmAt(RmMem(FAST_MEM), reg + 8 * Num(r), at + 2))
  {
    ModRmFields(reg);
  }

  lemma MoveMeansItsOperands(a: Access, tail: seq<u8>)
    requires a.Move? && Emittable(a)
    ensures Decode(Region(a) + tail) == Some(Decoded(InsnOf(a), |AccessBytes(a)|))
    ensures HostOperands(InsnOf(a)) == Some(OperandsOf(a))
  {
    hide Region, ByteOf, Word, DecodeRm;
    RegionBytes(a, tail);
    var b, c := Region(a) + tail, AccessBytes(a);
    assert b[0] == c[0] && b[1] == c[1] && b[2] == c[2] && b[3] == c[3];
    if a.size == 2 {
      assert b[4] == c[4];
      FastMemRm(b, 3, false, a.enc);
    } else {
      FastMemRm(b, 2, false, a.enc);
    }
  }

  lemma ExtendMeansItsOperands(a: Access, tail: seq<u8>)
    requires a.Extend? && Emittable(a)
    ensures Decode(Region(a) + tail) == Some(Decoded(InsnOf(a), |AccessBytes(a)|))
    ensures HostOperands(InsnOf(a)) == Some(OperandsOf(a))
  {
    hide Region, ByteOf, Word, DecodeRm;
    RegionBytes(a, tail);
    var b, c := Region(a) + tail, AccessBytes(a);
    assert b[0] == c[0] && b[1] == c[1] && b[2] == c[2] && b[3] == c[3];
    assert b[4] == c[4];
    FastMemRm(b, 3, a.espInR8, if a.espInR8 then 0 else a.enc);
  }

  lemma StoreMeansItsOperands(a: Access, tail: seq<u8>)
    requires a.Immediate? && Emittable(a)
    ensures Decode(Region(a) + tail) == Some(Decoded(InsnOf(a), |AccessBytes(a)|))
    ensures HostOperands(InsnOf(a)) == Some(OperandsOf(a))
  {
    hide Region, ByteOf, Word, DecodeRm;
    RegionBytes(a, tail);
    var b, c := Region(a) + tail, AccessBytes(a);
    assert b[0] == c[0] && b[1] == c[1] && b[2] == c[2] && b[3] == c[3];
    if a.size == 2 {
      assert b[4] == c[4] && b[5] == c[5] && b[6] == c[6];
      FastMemRm(b, 3, false, 0);
    } else {
      FastMemRm(b, 2, false, 0);
      assert b[4] == c[4];
      if a.size == 4 {
        BytesJoin(a.value);
        assert b[5] == c[5] && b[6] == c[6] && b[7] == c[7];
      }
    }
  }

  /** Independently of the handler: as x86-64 code the access is exactly that load, extending load or store at
      [R12 + R14], and has the operands the handler finds. */
  lemma AccessMeansItsOperands(a: Access, tail: seq<u8>)
    requires Emittable(a)
    ensures Decode(Region(a) + tail) == Some(Decoded(InsnOf(a), |AccessBytes(a)|))
    ensures HostOperands(InsnOf(a)) == Some(OperandsOf(a))
  {
    hide Decode, Region, AccessBytes, HostOperands, OperandsOf, InsnOf, Emittable;
    match a
    case Move(_, _, _) => MoveMeansItsOperands(a, tail);
    case Extend(_, _, _, _) => ExtendMeansItsOperands(a, tail);
    case Immediate(_, _) => StoreMeansItsOperands(a, tail);
  }

  /** A region that loads into R8 goes on to store R8D as guest ESP, and ends there. */
  lemma EspStoreFollows(a: Access, tail: seq<u8>)
    requires Emittable(a) && a.Extend? && a.espInR8
    ensures var b := (Region(a) + tail)[|AccessBytes(a)|..];
      Decode(b) == Some(Decoded(Store(RmMem(Mem(BaseReg(R13), None, 1, EaEmitter.CTX_GP_ESP)), R8, 4), 4)) && b[4..] == tail
    ensures OperandsOf(a).reg * 4 == EaEmitter.CTX_GP_ESP
  {
    AccessLength(a);
    var b := (Region(a) + tail)[|AccessBytes(a)|..];
    assert Region(a) == AccessBytes(a) + STORE_R8_TO_ESP;
    assert b == STORE_R8_TO_ESP + tail;
    assert b[0] == 0x45 && b[1] == 0x89 && b[2] == 0x45 && b[3] == EaEmitter.CTX_GP_ESP;
  }

  /** Any other region has nothing but NOPs behind its access, up to five bytes. */
  lemma PaddingFollows(a: Access)
    requires Emittable(a) && !(a.Extend? && a.espInR8)
    ensures |Region(a)| == (if |AccessBytes(a)| < 5 then 5 else |AccessBytes(a)|)
    ensures forall i :: |AccessBytes(a)| <= i < |Region(a)| ==> Region(a)[i] == 0x90
  {
    AccessLength(a);
  }

  /** MOVZX r16, byte [mem] as emitted. */
  const MOVZX_WORD: seq<u8> := [REX_XB, 0x0F, 0xB6, 0x34, SIB_R12_R14]

  /** It is meant to load R14D, but REX 43 lacks the R bit: it loads ESI, and R14D keeps the effective address. */
  lemma WordMovzxLoadsEsi(tail: seq<u8>)
    ensures Decode(MOVZX_WORD + tail) == Some(Decoded(LoadExtended(6, RmMem(FAST_MEM), 1, false), 5))
    ensures DecodeAccess(MOVZX_WORD + tail) == Some(ReadTo(6, 1))
  {
    var b := MOVZX_WORD + tail;
    assert b[0] == REX_XB && b[1] == 0x0F && b[2] == 0xB6 && b[3] == 0x34 && b[4] == SIB_R12_R14;
    FastMemRm(b, 3, false, 6);
  }

  // ---- Patching ----

  function SizeIndex(size: nat): nat {
    if size <= 1 then 0 else if size == 2 then 1 else 2
  }

  /** Host addresses of the pre-generated helpers, by register and size. */
  datatype Helpers = Helpers(read: seq<seq<int>>, write: seq<seq<int>>, writeImm: seq<int>) {
    predicate Complete(lo: int, hi: int) {
      && |read| == 8 && |write| == 8 && |writeImm| == 3
      && (forall r :: 0 <= r < 8 ==> |read[r]| == 3 && |write[r]| == 3)
      && (forall r, s :: 0 <= r < 8 && 0 <= s < 3 ==> lo <= read[r][s] < hi && lo <= write[r][s] < hi)
      && (forall s :: 0 <= s < 3 ==> lo <= writeImm[s] < hi)
    }
  }

  function Rel32(from: int, target: int): u32 { Wrap(target - from) }

  /** The five bytes of CALL or JMP rel32 at host address `at`. */
  function BranchBytes(op: u8, at: int, target: int): (b: seq<u8>)
    ensures |b| == 5
  {
    var r := Rel32(at + 5, target);
    [op, ByteOf(r, 0), ByteOf(r, 1), ByteOf(r, 2), ByteOf(r, 3)]
  }

  /** Running the code at host address `at` transfers control to `target` with a CALL (or a JMP). */
  predicate BranchesTo(b: seq<u8>, at: int, target: int, call: bool) {
    var d := Decode(b);
    d.Some? && d.value.len == 5
    && (if call then d.value.insn.Call? else d.value.insn.Jmp?)
    && at + 5 + d.value.insn.rel == target
  }

  lemma BranchLands(call: bool, at: int, target: int, tail: seq<u8>)
    requires -0x8000_0000 <= target - (at + 5) < 0x8000_0000
    ensures BranchesTo(BranchBytes(if call then 0xE8 else 0xE9, at, target) + tail, at, target, call)
  {
    hide ByteOf, Word, Signed, Wrap;
    var op: u8 := if call then 0xE8 else 0xE9;
    var r := Rel32(at + 5, target);
    BytesJoin(r);
    SignedWrap(target - (at + 5));
    var c := BranchBytes(op, at, target);
    var b := c + tail;
    assert b[0] == op && b[1] == c[1] && b[2] == c[2] && b[3] == c[3] && b[4] == c[4];
  }

  /** A write-immediate thunk: R15D takes the value, then control goes to the shared tail. */
  predicate ThunkDoes(b: seq<u8>, at: int, value: u32, tail: int) {
    |b| >= 11 && Decode(b) == Some(Decoded(MovImm(R15, value), 6)) && BranchesTo(b[6..], at + 6, tail, false)
  }

  function ThunkBytes(at: int, value: u32, tail: int): (b: seq<u8>)
    ensures |b| == 11
  {
    [0x41, 0xBF, ByteOf(value, 0), ByteOf(value, 1), ByteOf(value, 2), ByteOf(value, 3)] + BranchBytes(0xE9, at + 6, tail)
  }

  lemma ThunkWorks(at: int, value: u32, tail: int, rest: seq<u8>)
    requires -0x8000_0000 <= tail - (at + 11) < 0x8000_0000
    ensures ThunkDoes(ThunkBytes(at, value, tail) + rest, at, value, tail)
  {
    hide ByteOf, Word, BranchesTo;
    BytesJoin(value);
    BranchLands(false, at + 6, tail, rest);
    var c := ThunkBytes(at, value, tail);
    var b := c + rest;
    assert b[0] == 0x41 && b[1] == 0xBF && b[2] == c[2] && b[3] == c[3] && b[4] == c[4] && b[5] == c[5];
    assert b[6..] == BranchBytes(0xE9, at + 6, tail) + rest;
  }

  /** Where the patched CALL must end up for these operands, given the code after patching. */
  predicate Serves(code: seq<u8>, base: int, h: Helpers, o: Operands, target: int)
    requires h.Complete(base, base + |code|)
  {
    match o
    case ReadTo(reg, size) => reg < 8 && target == h.read[reg][SizeIndex(size)]
    case WriteFrom(reg, size) => reg < 8 && target == h.write[reg][SizeIndex(size)]
    case WriteValue(v, size) =>
      && base <= target < base + |code|
      && ThunkDoes(code[target - base..], target, v, h.writeImm[SizeIndex(size)])
  }

  /** What the pre-generated helpers do. */
  datatype Service = Reads(reg: nat, size: nat) | Writes(reg: nat, size: nat) | WritesImmediate(size: nat)

  /** The helper tables as they are generated: one helper for each register and each of the sizes 1, 2 and 4. */
  predicate Generated(h: Helpers, does: map<int, Service>)
    requires |h.read| == 8 && |h.write| == 8 && |h.writeImm| == 3
    requires forall r :: 0 <= r < 8 ==> |h.read[r]| == 3 && |h.write[r]| == 3
  {
    && (forall r, i :: 0 <= r < 8 && 0 <= i < 3 ==>
          h.read[r][i] in does && does[h.read[r][i]] == Reads(r, [1, 2, 4][i]))
    && (forall r, i :: 0 <= r < 8 && 0 <= i < 3 ==>
          h.write[r][i] in does && does[h.write[r][i]] == Writes(r, [1, 2, 4][i]))
    && (forall i :: 0 <= i < 3 ==> h.writeImm[i] in does && does[h.writeImm[i]] == WritesImmediate([1, 2, 4][i]))
  }

  /** A patched site calls the helper for exactly its register and size; an immediate reaches, through the thunk that
      loads it, the helper for its size. */
  lemma ServedBySize(code: seq<u8>, base: int, h: Helpers, a: Access, target: int, does: map<int, Service>)
    requires h.Complete(base, base + |code|) && Generated(h, does) && Emittable(a)
    requires Serves(code, base, h, OperandsOf(a), target)
    ensures match OperandsOf(a)
      case ReadTo(reg, size) => target in does && does[target] == Reads(reg, size)
      case WriteFrom(reg, size) => target in does && does[target] == Writes(reg, size)
      case WriteValue(v, size) =>
        && base <= target < base + |code|
        && exists tail :: tail in does && does[tail] == WritesImmediate(size) && ThunkDoes(code[target - base..], target, v, tail)
  {
    hide ThunkDoes;
    var o := OperandsOf(a);
    var i := SizeIndex(o.size);
    assert [1, 2, 4][i] == o.size;
    if o.WriteFrom? { assert h.write[o.reg][i] in does; }
  }

  lemma NopRuns(b: seq<u8>, h: Host)
    requires b != [] && b[0] == NOP
    ensures RunCode(b, h) == RunCode(b[1..], h)
  {
  }

  /** A region that was NOPs runs through to what follows it. */
  lemma {:induction false} NopsSlide(n: nat, tail: seq<u8>, h: Host)
    ensures RunCode(seq(n, _ => NOP) + tail, h) == RunCode(tail, h)
  {
    if n == 0 {
      assert seq(0, _ => NOP) + tail == tail;
    } else {
      NopsSlide(n - 1, tail, h);
      hide RunCode;
      var b := seq(n, _ => NOP) + tail;
      assert b[1..] == seq(n - 1, _ => NOP) + tail;
      NopRuns(b, h);
    }
  }

  /** Nothing but the two stretches differs. */
  predicate OnlyChanged(m: seq<u8>, n: seq<u8>, at: int, len: int, at': int, len': int) {
    |n| == |m| && forall i {:trigger n[i]} :: 0 <= i < |m| && !(at <= i < at + len) && !(at' <= i < at' + len') ==> n[i] == m[i]
  }

  /** The executable allocation: emitted code first, then helpers, then the thunk slab. */
  class CodeSpace {
    const mem: array<u8>
    const base: int
    const thunkStart: nat
    const thunkCap: nat
    var thunkUsed: nat

    ghost predicate Valid()
      reads this
    {
      thunkStart + thunkCap <= mem.Length <= 0x4000_0000 && thunkUsed <= thunkCap
    }

    /** The slab has a whole slot left. */
    predicate HasRoom()
      reads this
    {
      Round16(thunkUsed) + 16 <= thunkCap
    }

    /** Steps 5 to 8 of the fault handler: decode the site, find or build the target, overwrite the region. */
    method PatchSite(rip: nat, patchLen: nat, h: Helpers) returns (patched: bool)
      requires Valid() && 5 <= patchLen && rip + patchLen <= thunkStart
      requires h.Complete(base, base + mem.Length)
      modifies this`thunkUsed, mem
      ensures Valid()
      ensures var o := DecodeAccess(old(mem[rip..]));
        && (patched <==> o.Some? && (o.value.WriteValue? ==> old(HasRoom())))
        && (!patched ==> mem[..] == old(mem[..]) && thunkUsed == old(thunkUsed))
        && (patched ==>
             && (exists target :: BranchesTo(mem[rip..], base + rip, target, true) && Serves(mem[..], base, h, o.value, target))
             && mem[rip + 5..rip + patchLen] == seq(patchLen - 5, _ => NOP)
             && thunkUsed == (if o.value.WriteValue? then Round16(old(thunkUsed)) + 16 else old(thunkUsed))
             && OnlyChanged(old(mem[..]), mem[..], rip, patchLen, thunkStart + Round16(old(thunkUsed)),
                            if o.value.WriteValue? then 11 else 0))
    {
      hide BranchesTo, ThunkDoes, DecodeAccess, Round16;
      var o := DecodeAccess(mem[rip..]);
      if o == None { return false; }
      DecodedRegister(mem[rip..]);
      var target: int;
      if o.value.WriteValue? {
        patched, target := BuildThunk(o.value.value, h.writeImm[SizeIndex(o.value.size)]);
        if !patched { return; }
      } else if o.value.ReadTo? {
        target := h.read[o.value.reg][SizeIndex(o.value.size)];
      } else {
        target := h.write[o.value.reg][SizeIndex(o.value.size)];
      }
      ghost var before := mem[..];
      PatchRegion(rip, patchLen, target);
      if o.value.WriteValue? {
        assert mem[..][target - base..] == before[target - base..];
      }
      assert Serves(mem[..], base, h, o.value, target);
      return true;
    }

    /** MOV R15D, imm32 followed by a JMP to the shared tail, in the next 16-byte slot of the slab. */
    method BuildThunk(value: u32, tail: int) returns (ok: bool, target: int)
      requires Valid() && base <= tail < base + mem.Length
      modifies this`thunkUsed, mem
      ensures Valid()
      ensures ok <==> old(HasRoom())
      ensures !ok ==> mem[..] == old(mem[..]) && thunkUsed == old(thunkUsed)
      ensures ok ==>
        && target == base + thunkStart + Round16(old(thunkUsed)) && thunkUsed == Round16(old(thunkUsed)) + 16
        && ThunkDoes(mem[..][target - base..], target, value, tail)
        && OnlyChanged(old(mem[..]), mem[..], 0, 0, target - base, 11)
    {
      hide ThunkDoes;
      var at := Round16(thunkUsed);
      if at + 16 > thunkCap { return false, 0; }
      target := base + thunkStart + at;
      WriteBytes(thunkStart + at, ThunkBytes(target, value, tail));
      thunkUsed := at + 16;
      ThunkWorks(target, value, tail, mem[thunkStart + at + 11..]);
      assert mem[..][target - base..] == ThunkBytes(target, value, tail) + mem[thunkStart + at + 11..];
      return true, target;
    }

    /** The region becomes a CALL to `target` and NOPs. */
    method PatchRegion(rip: nat, patchLen: nat, target: int)
      requires Valid() && 5 <= patchLen && rip + patchLen <= thunkStart && base <= target < base + mem.Length
      modifies mem
      ensures BranchesTo(mem[rip..], base + rip, target, true)
      ensures mem[rip + 5..rip + patchLen] == seq(patchLen - 5, _ => NOP)
      ensures mem[..rip] == old(mem[..rip]) && mem[rip + patchLen..] == old(mem[rip + patchLen..])
    {
      hide BranchesTo;
      WriteBytes(rip, BranchBytes(0xE8, base + rip, target) + seq(patchLen - 5, _ => NOP));
      assert mem[rip..] == BranchBytes(0xE8, base + rip, target) + mem[rip + 5..];
      BranchLands(true, base + rip, target, mem[rip + 5..]);
    }

    method WriteBytes(at: nat, b: seq<u8>)
      requires at + |b| <= mem.Length
      modifies mem
      ensures mem[..] == old(mem[..at]) + b + old(mem[at + |b|..])
    {
      forall k | 0 <= k < |b| {
        mem[at + k] := b[k];
      }
    }
  }

  /** The slab has room as long as one of its 16-byte slots is unused. */
  lemma RoomIsUnusedSlot(space: CodeSpace)
    ensures space.HasRoom() <==> (space.thunkUsed + 15) / 16 < space.thunkCap / 16
  {
  }

  lemma DecodedRegister(b: seq<u8>)
    ensures var o := DecodeAccess(b); o.Some? && !o.value.WriteValue? ==> o.value.reg < 8
  {
  }

  /** A site's whole life: emitted for access `a` and then faulting, it is patched to a call that serves exactly the
      operands of `a`; only an immediate store needs room in the slab. */
  method EmitAndPatch(e: Emitter, a: Access, space: CodeSpace, h: Helpers) returns (patched: bool)
    requires Emittable(a) && e.Valid() && space.Valid() && e.buf == space.mem && e.pos + 9 <= space.thunkStart
    requires h.Complete(space.base, space.base + space.mem.Length)
    modifies e`pos, e.buf, space`thunkUsed
    ensures e.Valid() && space.Valid() && e.pos == old(e.pos) + |Region(a)|
    ensures patched <==> (a.Immediate? ==> old(space.HasRoom()))
    ensures patched ==>
      var rip := old(e.pos);
      && (exists target :: BranchesTo(e.buf[rip..], space.base + rip, target, true)
                        && Serves(e.buf[..], space.base, h, OperandsOf(a), target))
      && e.buf[rip + 5..e.pos] == seq(|Region(a)| - 5, _ => NOP)
    ensures !patched ==> e.Contents() == old(e.Contents()) + Region(a)
  {
    hide BranchesTo, Serves, DecodeAccess, Region, Round16;
    var rip := e.pos;
    ghost var before := e.Contents();
    var len := EmitSite(e, a);
    RegionLength(a);
    assert e.buf[rip..] == Region(a) + e.buf[e.pos..] by {
      assert e.buf[..e.pos] == before + Region(a);
      assert e.buf[..] == e.buf[..e.pos] + e.buf[e.pos..];
    }
    DecoderInvertsEmitter(a, e.buf[e.pos..]);
    ghost var code := e.buf[..];
    patched := space.PatchSite(rip, len, h);
    if !patched { assert e.Contents() == code[..e.pos]; }
  }

  lemma RegionLength(a: Access)
    requires Emittable(a)
    ensures 5 <= |Region(a)| <= 9
  {
    hide ByteOf;
  }
}
