/** emit_ea_to_r14: compiling a guest memory operand into host code that leaves its address in R14D. */
module EaEmitter {
  import opened Words
  import opened HostCode
  import opened Emitter

  const ESP: nat := 4
  const EBP: nat := 5
  const CTX_GP_ESP: u8 := 16
  const CTX_FS_BASE: u8 := 100
  const CTX_GS_BASE: u8 := 104
  const REX_B: u8 := 0x41
  const REX_R: u8 := 0x44
  const REX_RB: u8 := 0x45

  datatype Segment = NoSegment | DS | SS | FS | GS | CS | ES
  datatype RegName = NoReg | Gp(enc: nat) | OtherReg

  /** A decoded guest memory operand. */
  datatype Operand = Operand(segment: Segment, base: RegName, index: RegName, scale: nat, hasDisp: bool, disp: int)

  /** What the guest decoder delivers: register numbers below 8, a signed 32-bit displacement that is
      zero when absent, and a scale of 1, 2, 4 or 8 with an index. */
  predicate Decodable(op: Operand) {
    && -0x8000_0000 <= op.disp < 0x8000_0000
    && (!op.hasDisp ==> op.disp == 0)
    && (op.base.Gp? ==> op.base.enc < 8)
    && (op.index.Gp? ==> op.index.enc < 8 && op.scale in {1, 2, 4, 8})
  }

  // ---- The bytes ----

  function DispBytes(d: int): (b: seq<u8>)
    ensures |b| == 4
  {
    var w := Wrap(d);
    [ByteOf(w, 0), ByteOf(w, 1), ByteOf(w, 2), ByteOf(w, 3)]
  }

  predicate Short(d: int) { -128 <= d <= 127 }

  function ScaleBits(scale: nat): nat {
    if scale == 2 then 1 else if scale == 4 then 2 else if scale == 8 then 3 else 0
  }

  const LOAD_ESP: seq<u8> := [REX_RB, 0x8B, 0x75, CTX_GP_ESP]

  /** LEA R14D, [r + disp] for a register whose low bits are `low`. */
  function LeaDisp(rex: u8, low: nat, d: int): (b: seq<u8>)
    requires low < 8
    ensures b != []
  {
    if Short(d) then [rex, 0x8D, 0x70 + low, d % 0x100] else [rex, 0x8D, 0xB0 + low] + DispBytes(d)
  }

  /** LEA R14D, [r + index*scale + disp]; `forceDisp` asks for a displacement byte even when it is zero. */
  function LeaSib(rex: u8, low: nat, index: nat, scaleBits: nat, d: int, forceDisp: bool): (b: seq<u8>)
    requires low < 8 && index < 8 && scaleBits < 4
    ensures b != []
  {
    var sib: u8 := scaleBits * 0x40 + index * 8 + low;
    if d == 0 && !forceDisp then [rex, 0x8D, 0x34, sib]
    else if Short(d) then [rex, 0x8D, 0x74, sib, d % 0x100]
    else [rex, 0x8D, 0xB4, sib] + DispBytes(d)
  }

  function BaseOnly(base: nat, d: int): seq<u8>
    requires base < 8
  {
    if base == ESP then LOAD_ESP + (if d != 0 then LeaDisp(REX_RB, 6, d) else [])
    else if d == 0 && base == EBP then [REX_R, 0x8D, 0x75, 0]
    else if d == 0 then [REX_R, 0x8B, 0xF0 + base]
    else LeaDisp(REX_R, base, d)
  }

  function WithIndex(base: RegName, index: nat, scaleBits: nat, d: int): seq<u8>
    requires index < 8 && scaleBits < 4 && (base.Gp? ==> base.enc < 8)
  {
    if !base.Gp? then [REX_R, 0x8D, 0x34, scaleBits * 0x40 + index * 8 + 5] + DispBytes(d)
    else if base.enc == ESP then LOAD_ESP + LeaSib(REX_RB, 6, index, scaleBits, d, false)
    else LeaSib(REX_R, base.enc, index, scaleBits, d, base.enc == EBP)
  }

  function SegmentAdd(s: Segment): seq<u8> {
    if s == FS then [REX_RB, 0x03, 0x75, CTX_FS_BASE]
    else if s == GS then [REX_RB, 0x03, 0x75, CTX_GS_BASE]
    else []
  }

  predicate Rejected(op: Operand) {
    op.segment == CS || op.segment == ES || op.base.OtherReg? || op.index.OtherReg? || op.index == Gp(ESP)
  }

  /** Base, index and displacement of an accepted operand. */
  function CoreBytes(op: Operand): seq<u8>
    requires Decodable(op) && !Rejected(op)
  {
    if op.index.Gp? then WithIndex(op.base, op.index.enc, ScaleBits(op.scale), op.disp)
    else if op.base.Gp? then BaseOnly(op.base.enc, op.disp)
    else [REX_B, 0xBE] + DispBytes(op.disp)
  }

  function EaBytes(op: Operand): Option<seq<u8>>
    requires Decodable(op)
  {
    if Rejected(op) then None else Some(CoreBytes(op) + SegmentAdd(op.segment))
  }

  /** Accepted are exactly the flat segments, FS and GS, with general registers or none as base and index and ESP not as
      index. */
  lemma RejectsExactly(op: Operand)
    requires Decodable(op)
    ensures EaBytes(op).Some? <==>
      && op.segment in {NoSegment, DS, SS, FS, GS}
      && (op.base.NoReg? || op.base.Gp?) && (op.index.NoReg? || (op.index.Gp? && op.index.enc != 4))
  {
  }

  /** The offsets follow from the context's layout: ESP is register 4; in front of the FS base are eight registers, EIP,
      EFLAGS, the next EIP and the stop reason, two host pointers, CR0, CR2, CR3 and CR4, GDTR and IDTR with padding, and
      two flags with theirs. */
  lemma ContextOffsets()
    ensures CTX_GP_ESP == ESP * 4 && CTX_GS_BASE == CTX_FS_BASE + 4
    ensures CTX_FS_BASE == 8 * 4 + 4 * 4 + 2 * 8 + 4 * 4 + 2 * (4 + 2 + 2) + (1 + 1 + 2)
  {
  }

  // ---- The guest's meaning ----

  datatype Guest = Guest(gp: seq<u32>, fsBase: u32, gsBase: u32)

  function RegValue(r: RegName, g: Guest): u32 {
    if r.Gp? && r.enc < |g.gp| then g.gp[r.enc] else 0
  }

  function SegmentBase(s: Segment, g: Guest): u32 {
    if s == FS then g.fsBase else if s == GS then g.gsBase else 0
  }

  /** The effective address the guest instruction names. */
  function GuestAddress(op: Operand, g: Guest): u32 {
    Wrap(SegmentBase(op.segment, g) + RegValue(op.base, g)
         + RegValue(op.index, g) * (if op.index.Gp? then op.scale else 1) + op.disp)
  }

  /** Guest registers live in the low halves of the host's, except ESP, FS and GS bases, which live in
      the context R13 points to. */
  predicate Mirrors(h: Host, g: Guest) {
    && h.Valid() && |g.gp| == 8
    && (forall i :: 0 <= i < 8 && i != ESP ==> Wrap(h.regs[i]) == g.gp[i])
    && h.mem((h.regs[R13] + CTX_GP_ESP) % TWO_64) == g.gp[ESP]
    && h.mem((h.regs[R13] + CTX_FS_BASE) % TWO_64) == g.fsBase
    && h.mem((h.regs[R13] + CTX_GS_BASE) % TWO_64) == g.gsBase
  }

  // ---- Each emitted form decodes to what it should, whatever code follows ----

  lemma DispDecodes(d: int)
    requires -0x8000_0000 <= d < 0x8000_0000
    ensures var b := DispBytes(d); Word(b[0], b[1], b[2], b[3]) == Wrap(d)
    ensures Signed(Wrap(d), 32) == d
  {
    hide ByteOf, Word, Signed, Wrap;
    BytesJoin(Wrap(d));
    SignedWrap(d);
  }

  lemma ShortDecodes(d: int)
    requires Short(d)
    ensures Signed(d % 0x100, 8) == d
  {
  }

  predicate IsR14Rex(rex: u8) { rex == REX_R || rex == REX_RB }

  lemma MovImmDecodes(d: int, tail: seq<u8>)
    requires -0x8000_0000 <= d < 0x8000_0000
    ensures Decode([REX_B, 0xBE] + DispBytes(d) + tail) == Some(Decoded(MovImm(R14, Wrap(d)), 6))
  {
    DispDecodes(d);
    var b := [REX_B, 0xBE] + DispBytes(d) + tail;
    assert b[2] == DispBytes(d)[0] && b[3] == DispBytes(d)[1] && b[4] == DispBytes(d)[2] && b[5] == DispBytes(d)[3];
  }

  lemma ContextOpDecodes(op: u8, offset: u8, tail: seq<u8>)
    requires op in {0x8B, 0x03} && offset < 0x80
    ensures var m := RmMem(Mem(BaseReg(R13), None, 1, offset));
      Decode([REX_RB, op, 0x75, offset] + tail) ==
        Some(Decoded(if op == 0x8B then Load(R14, m, 4) else Add(R14, m), 4))
  {
    var b := [REX_RB, op, 0x75, offset] + tail;
    assert b[0] == REX_RB && b[1] == op && b[2] == 0x75 && b[3] == offset;
  }

  lemma MovRegDecodes(base: nat, tail: seq<u8>)
    requires base < 8
    ensures Decode([REX_R, 0x8B, 0xF0 + base] + tail) == Some(Decoded(Load(R14, RmReg(base), 4), 3))
  {
    var b := [REX_R, 0x8B, 0xF0 + base] + tail;
    assert b[0] == REX_R && b[1] == 0x8B && b[2] == 0xF0 + base;
  }

  /** LEA into R14 is as good as its ModRM. */
  lemma LeaOpcode(b: seq<u8>)
    requires |b| > 2 && IsR14Rex(b[0]) && b[1] == 0x8D && b[2] / 8 % 8 == 6
    ensures Decode(b) == (match DecodeRm(b, 2, true, false, b[0] == REX_RB)
                          case None => None
                          case Some(m) => if m.rm.RmMem? then Some(Decoded(Lea(R14, m.rm.m), m.next)) else None)
  {
    hide Disp8, Imm32;
  }

  lemma RmWithDisp(b: seq<u8>, mod: nat, low: nat, bb: bool)
    requires |b| > 2 && mod in {1, 2} && low < 8 && low != 4 && b[2] == mod * 0x40 + 0x30 + low
    ensures DecodeRm(b, 2, true, false, bb) == WithDisp(b, 3, mod, BaseReg(low + 8 * Num(bb)), None, 1, R14)
  {
    hide WithDisp;
  }

  function ScaleOf(bits: nat): nat {
    if bits == 0 then 1 else if bits == 1 then 2 else if bits == 2 then 4 else 8
  }

  lemma SibFields(scaleBits: nat, index: nat, low: nat)
    requires scaleBits < 4 && index < 8 && low < 8
    ensures var s := scaleBits * 0x40 + index * 8 + low; s < 0x100 && s / 0x40 == scaleBits && s / 8 % 8 == index && s % 8 == low
  {
    assert (scaleBits * 0x40 + index * 8 + low) / 8 == scaleBits * 8 + index;
  }

  lemma RmWithSib(b: seq<u8>, mod: nat, scaleBits: nat, index: nat, low: nat, bb: bool)
    requires |b| > 3 && mod < 3 && low < 8 && index < 8 && index != 4 && scaleBits < 4
    requires b[2] == mod * 0x40 + 0x34 && b[3] == scaleBits * 0x40 + index * 8 + low
    ensures DecodeRm(b, 2, true, false, bb)
      == WithDisp(b, 4, mod, if low == 5 && mod == 0 then NoBase else BaseReg(low + 8 * Num(bb)), Some(index), ScaleOf(scaleBits), R14)
  {
    hide WithDisp;
    SibFields(scaleBits, index, low);
  }

  lemma Disp32At(b: seq<u8>, at: nat, d: int)
    requires at + 4 <= |b| && -0x8000_0000 <= d < 0x8000_0000
    requires b[at] == DispBytes(d)[0] && b[at + 1] == DispBytes(d)[1] && b[at + 2] == DispBytes(d)[2] && b[at + 3] == DispBytes(d)[3]
    ensures Imm32(b, at).Some? && Signed(Imm32(b, at).value, 32) == d
  {
    hide Signed, Wrap, ByteOf;
    DispDecodes(d);
  }

  lemma LeaDispDecodes(rex: u8, low: nat, d: int, tail: seq<u8>)
    requires IsR14Rex(rex) && low < 8 && low != 4 && -0x8000_0000 <= d < 0x8000_0000
    ensures var b := LeaDisp(rex, low, d);
      Decode(b + tail) == Some(Decoded(Lea(R14, Mem(BaseReg(low + 8 * Num(rex == REX_RB)), None, 1, d)), |b|))
  {
    hide Decode, DecodeRm, Signed, DispBytes, Imm32;
    var c := LeaDisp(rex, low, d);
    var b := c + tail;
    assert b[0] == rex && b[1] == 0x8D && b[2] == c[2] && b[3] == c[3];
    LeaOpcode(b);
    if Short(d) {
      ShortDecodes(d);
      RmWithDisp(b, 1, low, rex == REX_RB);
    } else {
      assert b[4] == c[4] && b[5] == c[5] && b[6] == c[6];
      Disp32At(b, 3, d);
      RmWithDisp(b, 2, low, rex == REX_RB);
    }
  }

  lemma LeaSibDecodes(rex: u8, low: nat, index: nat, scaleBits: nat, d: int, force: bool, tail: seq<u8>)
    requires IsR14Rex(rex) && low < 8 && index < 8 && index != 4 && scaleBits < 4
    requires -0x8000_0000 <= d < 0x8000_0000 && (low == 5 ==> force)
    ensures var b := LeaSib(rex, low, index, scaleBits, d, force);
      Decode(b + tail)
        == Some(Decoded(Lea(R14, Mem(BaseReg(low + 8 * Num(rex == REX_RB)), Some(index), ScaleOf(scaleBits), d)), |b|))
  {
    hide Decode, DecodeRm, Signed, DispBytes, Imm32;
    var c := LeaSib(rex, low, index, scaleBits, d, force);
    var b := c + tail;
    assert b[0] == rex && b[1] == 0x8D && b[2] == c[2] && b[3] == c[3];
    LeaOpcode(b);
    if d == 0 && !force {
      RmWithSib(b, 0, scaleBits, index, low, rex == REX_RB);
    } else if Short(d) {
      ShortDecodes(d);
      assert b[4] == c[4];
      RmWithSib(b, 1, scaleBits, index, low, rex == REX_RB);
    } else {
      assert b[4] == c[4] && b[5] == c[5] && b[6] == c[6] && b[7] == c[7];
      Disp32At(b, 4, d);
      RmWithSib(b, 2, scaleBits, index, low, rex == REX_RB);
    }
  }

  lemma NoBaseDecodes(index: nat, scaleBits: nat, d: int, tail: seq<u8>)
    requires index < 8 && index != 4 && scaleBits < 4 && -0x8000_0000 <= d < 0x8000_0000
    ensures var b := [REX_R, 0x8D, 0x34, scaleBits * 0x40 + index * 8 + 5] + DispBytes(d);
      Decode(b + tail) == Some(Decoded(Lea(R14, Mem(NoBase, Some(index), ScaleOf(scaleBits), d)), 8))
  {
    hide Decode, DecodeRm, Signed, DispBytes, Imm32;
    var c := [REX_R, 0x8D, 0x34, scaleBits * 0x40 + index * 8 + 5] + DispBytes(d);
    var b := c + tail;
    assert b[0] == REX_R && b[1] == 0x8D && b[2] == 0x34 && b[3] == c[3];
    assert b[4] == c[4] && b[5] == c[5] && b[6] == c[6] && b[7] == c[7];
    LeaOpcode(b);
    Disp32At(b, 4, d);
    RmWithSib(b, 0, scaleBits, index, 5, false);
  }

  // ---- Running them ----

  lemma RunOne(code: seq<u8>, tail: seq<u8>, d: Decoded, h: Host)
    requires code != [] && Decode(code + tail) == Some(d) && d.len == |code| && Exec(d.insn, h).Some?
    ensures RunCode(code + tail, h) == RunCode(tail, Exec(d.insn, h).value)
  {
    hide Decode, Exec;
    assert (code + tail)[d.len..] == tail;
  }

  lemma WrapOfMod64(x: int)
    ensures Wrap(x % TWO_64) == Wrap(x)
  {
    WrapPeriod(x % TWO_64, x / TWO_64 * TWO_32);
  }

  /** Truncation commutes with the address sum. */
  lemma WrapSum(b: int, i: int, scale: nat, d: int)
    requires scale in {1, 2, 4, 8}
    ensures Wrap(b + i * scale + d) == Wrap(Wrap(b) + Wrap(i) * scale + d)
  {
    var p, q := b / TWO_32, i / TWO_32;
    assert b == Wrap(b) + p * TWO_32 && i == Wrap(i) + q * TWO_32;
    assert i * scale == Wrap(i) * scale + q * scale * TWO_32;
    WrapPeriod(Wrap(b) + Wrap(i) * scale + d, p + q * scale);
  }

  /** What the code leaves: R14D is the address, every other register and memory as before. */
  ghost predicate Computes(h: Host, h': Host, v: u32) {
    |h.regs| == 16 && h'.regs == h.regs[R14 := v] && h'.mem == h.mem && h'.flags == h.flags
  }

  lemma LeaComputes(h: Host, base: Base, index: Option<nat>, scale: nat, d: int)
    requires h.Valid() && scale in {1, 2, 4, 8} && !base.Rip?
    requires base.BaseReg? ==> base.r < 16
    ensures Exec(Lea(R14, Mem(base, index, scale, d)), h).Some?
    ensures var b, i := BaseValue(base, h), IndexValue(index, h);
      Computes(h, Exec(Lea(R14, Mem(base, index, scale, d)), h).value, Wrap(Wrap(b) + Wrap(i) * scale + d))
  {
    hide Wrap;
    var b, i := BaseValue(base, h), IndexValue(index, h);
    WrapOfMod64(b + i * scale + d);
    WrapSum(b, i, scale, d);
  }

  /** The unsegmented part of the address. */
  function Offset(op: Operand, g: Guest): u32 {
    Wrap(RegValue(op.base, g) + RegValue(op.index, g) * (if op.index.Gp? then op.scale else 1) + op.disp)
  }

  /** Loading the guest ESP out of the context into R14. */
  lemma LoadEspRuns(h: Host, g: Guest, tail: seq<u8>)
    requires Mirrors(h, g)
    ensures RunCode(LOAD_ESP + tail, h) == RunCode(tail, SetReg(h, R14, g.gp[ESP]))
  {
    hide Decode, RunCode;
    ContextOpDecodes(0x8B, CTX_GP_ESP, tail);
    RunOne(LOAD_ESP, tail, Decoded(Load(R14, RmMem(Mem(BaseReg(R13), None, 1, CTX_GP_ESP)), 4), 4), h);
  }

  lemma CoreRuns(op: Operand, h: Host, g: Guest, tail: seq<u8>)
    requires Decodable(op) && !Rejected(op) && Mirrors(h, g)
    ensures RunCode(CoreBytes(op) + tail, h) == RunCode(tail, SetReg(h, R14, Offset(op, g)))
  {
    hide RunCode, Offset, CoreBytes;
    if op.index.Gp? {
      IndexedRuns(op, h, g, tail);
    } else if op.base.Gp? {
      BaseRuns(op, h, g, tail);
    } else {
      MovImmRuns(op, h, g, tail);
    }
  }

  lemma MovImmRuns(op: Operand, h: Host, g: Guest, tail: seq<u8>)
    requires Decodable(op) && !Rejected(op) && Mirrors(h, g) && !op.index.Gp? && !op.base.Gp?
    ensures RunCode(CoreBytes(op) + tail, h) == RunCode(tail, SetReg(h, R14, Offset(op, g)))
  {
    hide Decode, RunCode, Wrap, DispBytes;
    MovImmDecodes(op.disp, tail);
    RunOne([REX_B, 0xBE] + DispBytes(op.disp), tail, Decoded(MovImm(R14, Wrap(op.disp)), 6), h);
  }

  lemma RunLea(code: seq<u8>, tail: seq<u8>, m: Mem, h: Host, v: u32)
    requires h.Valid() && code != [] && Decode(code + tail) == Some(Decoded(Lea(R14, m), |code|))
    requires Exec(Lea(R14, m), h).Some? && Computes(h, Exec(Lea(R14, m), h).value, v)
    ensures RunCode(code + tail, h) == RunCode(tail, SetReg(h, R14, v))
  {
    hide Decode, RunCode;
    RunOne(code, tail, Decoded(Lea(R14, m), |code|), h);
    assert Exec(Lea(R14, m), h).value == SetReg(h, R14, v);
  }

  lemma BaseRuns(op: Operand, h: Host, g: Guest, tail: seq<u8>)
    requires Decodable(op) && !Rejected(op) && Mirrors(h, g) && !op.index.Gp? && op.base.Gp?
    ensures RunCode(CoreBytes(op) + tail, h) == RunCode(tail, SetReg(h, R14, Offset(op, g)))
  {
    hide Decode, RunCode, LeaDisp, Exec, Wrap, Computes;
    var base, d := op.base.enc, op.disp;
    if base == ESP {
      var h1 := SetReg(h, R14, g.gp[ESP]);
      if d == 0 {
        assert CoreBytes(op) == LOAD_ESP;
        LoadEspRuns(h, g, tail);
        WrapSmall(g.gp[ESP]);
      } else {
        assert CoreBytes(op) + tail == LOAD_ESP + (LeaDisp(REX_RB, 6, d) + tail);
        LoadEspRuns(h, g, LeaDisp(REX_RB, 6, d) + tail);
        LeaDispDecodes(REX_RB, 6, d, tail);
        LeaComputes(h1, BaseReg(R14), None, 1, d);
        WrapSmall(g.gp[ESP]);
        WrapSmall(0);
        RunLea(LeaDisp(REX_RB, 6, d), tail, Mem(BaseReg(R14), None, 1, d), h1, Offset(op, g));
        assert SetReg(h1, R14, Offset(op, g)) == SetReg(h, R14, Offset(op, g));
      }
    } else if d == 0 && base != EBP {
      MovRegDecodes(base, tail);
      MovRegRuns(base, tail, h, g);
      WrapSmall(g.gp[base]);
    } else {
      EbpForm(d);
      LeaDispDecodes(REX_R, base, d, tail);
      LeaComputes(h, BaseReg(base), None, 1, d);
      WrapSmall(0);
      assert CoreBytes(op) == LeaDisp(REX_R, base, d);
      RunLea(CoreBytes(op), tail, Mem(BaseReg(base), None, 1, d), h, Offset(op, g));
    }
  }

  /** EBP with no displacement is the short form with a zero byte. */
  lemma EbpForm(d: int)
    ensures d == 0 ==> [REX_R, 0x8D, 0x75, 0] == LeaDisp(REX_R, EBP, d)
  {
  }

  lemma MovRegRuns(base: nat, tail: seq<u8>, h: Host, g: Guest)
    requires Mirrors(h, g) && base < 8 && base != ESP
    requires Decode([REX_R, 0x8B, 0xF0 + base] + tail) == Some(Decoded(Load(R14, RmReg(base), 4), 3))
    ensures RunCode([REX_R, 0x8B, 0xF0 + base] + tail, h) == RunCode(tail, SetReg(h, R14, g.gp[base]))
  {
    hide Decode, RunCode;
    RunOne([REX_R, 0x8B, 0xF0 + base], tail, Decoded(Load(R14, RmReg(base), 4), 3), h);
  }

  lemma IndexedRuns(op: Operand, h: Host, g: Guest, tail: seq<u8>)
    requires Decodable(op) && !Rejected(op) && Mirrors(h, g) && op.index.Gp?
    ensures RunCode(CoreBytes(op) + tail, h) == RunCode(tail, SetReg(h, R14, Offset(op, g)))
  {
    hide Decode, RunCode, LeaSib, Exec, Wrap, Computes, DispBytes;
    var index, sb, d := op.index.enc, ScaleBits(op.scale), op.disp;
    assert ScaleOf(sb) == op.scale;
    if !op.base.Gp? {
      NoBaseDecodes(index, sb, d, tail);
      LeaComputes(h, NoBase, Some(index), op.scale, d);
      WrapSmall(0);
      RunLea(CoreBytes(op), tail, Mem(NoBase, Some(index), op.scale, d), h, Offset(op, g));
    } else if op.base.enc == ESP {
      var h1 := SetReg(h, R14, g.gp[ESP]);
      var lea := LeaSib(REX_RB, 6, index, sb, d, false);
      assert CoreBytes(op) + tail == LOAD_ESP + (lea + tail);
      LoadEspRuns(h, g, lea + tail);
      LeaSibDecodes(REX_RB, 6, index, sb, d, false, tail);
      LeaComputes(h1, BaseReg(R14), Some(index), op.scale, d);
      WrapSmall(g.gp[ESP]);
      RunLea(lea, tail, Mem(BaseReg(R14), Some(index), op.scale, d), h1, Offset(op, g));
      assert SetReg(h1, R14, Offset(op, g)) == SetReg(h, R14, Offset(op, g));
    } else {
      LeaSibDecodes(REX_R, op.base.enc, index, sb, d, op.base.enc == EBP, tail);
      LeaComputes(h, BaseReg(op.base.enc), Some(index), op.scale, d);
      RunLea(CoreBytes(op), tail, Mem(BaseReg(op.base.enc), Some(index), op.scale, d), h, Offset(op, g));
    }
  }

  /** Compiling an operand preserves its meaning: the emitted bytes run to their end and change R14D alone
      (and, for FS and GS, the flags, by the segment addition). */
  lemma EaPreservesMeaning(op: Operand, h: Host, g: Guest)
    requires Decodable(op) && !Rejected(op) && Mirrors(h, g)
    ensures var r := RunCode(EaBytes(op).value, h);
      && r.Some?
      && r.value.regs == h.regs[R14 := GuestAddress(op, g)]
      && r.value.mem == h.mem
      && (op.segment !in {FS, GS} ==> r.value.flags == h.flags)
      && (op.segment in {FS, GS} ==> r.value.flags == AddFlags(Offset(op, g), SegmentBase(op.segment, g)))
  {
    hide Decode, RunCode, Exec, AddFlags, Wrap;
    var seg := SegmentAdd(op.segment);
    CoreRuns(op, h, g, seg);
    assert EaBytes(op).value == CoreBytes(op) + seg;
    var off := Offset(op, g);
    var h1 := SetReg(h, R14, off);
    OffsetPlusSegment(op, g);
    if op.segment in {FS, GS} {
      SegmentAddRuns(op.segment, h1, g, off) by { StillMirrors(h, g, off); }
    } else {
      RunNothing(h1);
    }
  }

  lemma OffsetPlusSegment(op: Operand, g: Guest)
    ensures Wrap(Offset(op, g) + SegmentBase(op.segment, g)) == GuestAddress(op, g)
  {
    hide Wrap;
    var x := RegValue(op.base, g) + RegValue(op.index, g) * (if op.index.Gp? then op.scale else 1) + op.disp;
    WrapAgain(0, x, SegmentBase(op.segment, g));
  }

  lemma StillMirrors(h: Host, g: Guest, v: u32)
    requires Mirrors(h, g)
    ensures Mirrors(SetReg(h, R14, v), g)
  {
  }

  lemma RunNothing(h: Host)
    ensures RunCode([], h) == Some(h)
  {
  }

  lemma SegmentAddRuns(s: Segment, h: Host, g: Guest, off: u32)
    requires s in {FS, GS} && Mirrors(h, g) && h.regs[R14] == off
    ensures RunCode(SegmentAdd(s), h)
      == Some(SetReg(h, R14, Wrap(off + SegmentBase(s, g))).(flags := AddFlags(off, SegmentBase(s, g))))
  {
    hide Decode, RunCode, AddFlags;
    var offset := if s == FS then CTX_FS_BASE else CTX_GS_BASE;
    var m := RmMem(Mem(BaseReg(R13), None, 1, offset));
    ContextOpDecodes(0x03, offset, []);
    assert SegmentAdd(s) == [REX_RB, 0x03, 0x75, offset];
    assert SegmentAdd(s) + [] == SegmentAdd(s);
    RunOne(SegmentAdd(s), [], Decoded(Add(R14, m), 4), h);
    RunNothing(Exec(Add(R14, m), h).value);
  }

  // ---- The emitter itself ----

  method EmitLoadEsp(e: Emitter)
    requires e.Valid() && e.pos + 4 <= e.buf.Length
    modifies e`pos, e.buf
    ensures e.Valid() && e.pos == old(e.pos) + 4 && e.Contents() == old(e.Contents()) + LOAD_ESP
  {
    hide e.Contents;
    e.Emit4(REX_RB, 0x8B, 0x75, CTX_GP_ESP);
  }

  method EmitDisp32(e: Emitter, d: int)
    requires e.Valid() && e.pos + 4 <= e.buf.Length
    modifies e`pos, e.buf
    ensures e.Valid() && e.pos == old(e.pos) + 4 && e.Contents() == old(e.Contents()) + DispBytes(d)
  {
    hide e.Contents, ByteOf;
    e.Emit32(Wrap(d));
  }

  method EmitLeaDisp(e: Emitter, rex: u8, low: nat, d: int)
    requires e.Valid() && e.pos + 7 <= e.buf.Length && low < 8
    modifies e`pos, e.buf
    ensures e.Valid() && e.pos <= old(e.pos) + 7 && e.Contents() == old(e.Contents()) + LeaDisp(rex, low, d)
  {
    hide e.Contents, DispBytes;
    var mod := if Short(d) then 1 else 2;
    e.Emit3(rex, 0x8D, mod * 0x40 + 6 * 8 + low);
    if Short(d) { e.Emit8(d % 0x100); } else { EmitDisp32(e, d); }
  }

  method EmitLeaSib(e: Emitter, rex: u8, low: nat, index: nat, scaleBits: nat, d: int, mod: nat)
    requires e.Valid() && e.pos + 8 <= e.buf.Length && low < 8 && index < 8 && scaleBits < 4
    requires mod < 3 && (mod == 0 ==> d == 0) && (mod == 1 ==> Short(d)) && (mod == 2 ==> !Short(d))
    modifies e`pos, e.buf
    ensures e.Valid() && e.pos <= old(e.pos) + 8
    ensures e.Contents() == old(e.Contents()) + LeaSib(rex, low, index, scaleBits, d, mod == 1)
  {
    hide e.Contents, DispBytes;
    e.Emit4(rex, 0x8D, mod * 0x40 + 6 * 8 + 4, scaleBits * 0x40 + index * 8 + low);
    if mod == 1 { e.Emit8(d % 0x100); } else if mod == 2 { EmitDisp32(e, d); }
  }

  method EmitSegment(e: Emitter, s: Segment)
    requires e.Valid() && e.pos + 4 <= e.buf.Length
    modifies e`pos, e.buf
    ensures e.Valid() && e.pos <= old(e.pos) + 4 && e.Contents() == old(e.Contents()) + SegmentAdd(s)
  {
    hide e.Contents;
    if s == FS || s == GS {
      e.Emit4(REX_RB, 0x03, 0x75, if s == FS then CTX_FS_BASE else CTX_GS_BASE);
    }
  }

  method EmitBaseOnly(e: Emitter, base: nat, d: int)
    requires e.Valid() && e.pos + 12 <= e.buf.Length && base < 8
    modifies e`pos, e.buf
    ensures e.Valid() && e.pos <= old(e.pos) + 12 && e.Contents() == old(e.Contents()) + BaseOnly(base, d)
  {
    hide e.Contents, LeaDisp, LOAD_ESP;
    if base == ESP {
      EmitLoadEsp(e);
      if d != 0 { EmitLeaDisp(e, REX_RB, 6, d); }
    } else if d == 0 && base == EBP {
      e.Emit4(REX_R, 0x8D, 0x40 + 6 * 8 + 5, 0);
    } else if d == 0 {
      e.Emit3(REX_R, 0x8B, 0xC0 + 6 * 8 + base);
    } else {
      EmitLeaDisp(e, REX_R, base, d);
    }
  }

  method EmitWithIndex(e: Emitter, base: RegName, index: nat, scaleBits: nat, d: int)
    requires e.Valid() && e.pos + 12 <= e.buf.Length
    requires index < 8 && scaleBits < 4 && (base.Gp? ==> base.enc < 8)
    modifies e`pos, e.buf
    ensures e.Valid() && e.pos <= old(e.pos) + 12
    ensures e.Contents() == old(e.Contents()) + WithIndex(base, index, scaleBits, d)
  {
    hide e.Contents, DispBytes;
    if !base.Gp? {
      e.Emit4(REX_R, 0x8D, 6 * 8 + 4, scaleBits * 0x40 + index * 8 + 5);
      EmitDisp32(e, d);
    } else if base.enc == ESP {
      EmitLoadEsp(e);
      EmitLeaSib(e, REX_RB, 6, index, scaleBits, d, if d == 0 then 0 else if Short(d) then 1 else 2);
    } else {
      var mod := if d == 0 then (if base.enc == EBP then 1 else 0) else if Short(d) then 1 else 2;
      EmitLeaSib(e, REX_R, base.enc, index, scaleBits, d, mod);
    }
  }

  /** emit_ea_to_r14: emits exactly those bytes, or rejects the operand and emits nothing. */
  method EmitEaToR14(e: Emitter, op: Operand) returns (ok: bool)
    requires Decodable(op) && e.Valid() && e.pos + 16 <= e.buf.Length
    modifies e`pos, e.buf
    ensures e.Valid() && ok == EaBytes(op).Some?
    ensures e.Contents() == old(e.Contents()) + if ok then EaBytes(op).value else []
  {
    hide e.Contents, CoreBytes, SegmentAdd, Rejected, Decodable;
    if Rejected(op) { return false; }
    ghost var before := e.Contents();
    EmitCore(e, op);
    EmitSegment(e, op.segment);
    Joined(before, CoreBytes(op), SegmentAdd(op.segment));
    return true;
  }

  lemma Joined(a: seq<u8>, b: seq<u8>, c: seq<u8>)
    ensures (a + b) + c == a + (b + c)
  {
  }

  /** Base, index and displacement of an accepted operand. */
  method EmitCore(e: Emitter, op: Operand)
    requires Decodable(op) && !Rejected(op) && e.Valid() && e.pos + 12 <= e.buf.Length
    modifies e`pos, e.buf
    ensures e.Valid() && e.pos <= old(e.pos) + 12 && e.Contents() == old(e.Contents()) + CoreBytes(op)
  {
    hide e.Contents, BaseOnly, WithIndex, SegmentAdd, DispBytes;
    if op.index.Gp? {
      EmitWithIndex(e, op.base, op.index.enc, ScaleBits(op.scale), op.disp);
    } else if op.base.Gp? {
      EmitBaseOnly(e, op.base.enc, op.disp);
    } else {
      e.Emit8(REX_B);
      e.Emit8(0xB8 + 6);
      EmitDisp32(e, op.disp);
    }
  }
}
