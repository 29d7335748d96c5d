/** Single commands of the push-buffer interpreter, from the bits of their words: kinds, addresses, bounds. */
module PushLaws {
  import opened Words
  import opened PushBuffer

  // ---- Header words ----

  /** The kind of every header word. */
  lemma HeaderKinds(h: u32)
    ensures var c := DecodeHeader(h);
      && (c.Jump? <==> h % 4 == 1 || (h % 4 == 0 && 0x2000_0000 <= h < 0x4000_0000))
      && (c.Call? <==> h % 4 == 2)
      && (c.Return? <==> h == 0x2_0000)
      && (c.Method? <==> h != 0 && h % 4 == 0 && h / 0x1_0000 % 4 == 0 && (h < 0x2000_0000 || 0x4000_0000 <= h < 0x6000_0000))
    ensures var c := DecodeHeader(h);
      && (c.Jump? ==> c.target == if h % 4 == 1 then h - 1 else h - 0x2000_0000)
      && (c.Call? ==> c.target == h - 2)
      && (c.Method? ==> c.m == h / 4 % 0x800 && c.subchannel == h / 0x2000 % 8 && c.count == h / 0x4_0000 % 0x800)
  {
  }

  // ---- Control flow ----

  /** The header word at GET. */
  function Fetched(cfg: Config, base: nat, g: Gpu): Option<u32>
    requires cfg.Valid() && g.Valid(cfg)
  {
    var at := (base + g.get) % 0x1_0000_0000;
    if at + 4 <= cfg.ramSize then Some(Read32(g.ram, at)) else None
  }

  /** GET and SUBROUTINE after a command that is no method: jumps in both forms, calls, which inside a call do nothing,
      returns, which outside one do nothing, and words stepped over. A saved address is 4-aligned, below 2^29 and tagged. */
  function NextGet(get: u32, subr: u32, h: u32): int {
    var next, inCall := (get + 4) % 0x1_0000_0000, subr % 2 == 1;
    if h % 4 == 1 then h - 1
    else if h % 4 == 2 then (if inCall then next else h - 2)
    else if h == 0x2_0000 then (if inCall then subr % 0x2000_0000 - subr % 4 else next)
    else if 0x2000_0000 <= h < 0x4000_0000 && h % 4 == 0 then h - 0x2000_0000
    else next
  }

  function NextSubr(get: u32, subr: u32, h: u32): int {
    var next, inCall := (get + 4) % 0x1_0000_0000, subr % 2 == 1;
    if h % 4 == 2 && !inCall then next % 0x2000_0000 - next % 4 + 1 else if h == 0x2_0000 && inCall then 0 else subr
  }

  /** What every command that is no method does, wherever the buffer is: it changes nothing else and takes one word. A
      header outside RAM blocks. */
  lemma ControlFlow(cfg: Config, base: nat, g: Gpu)
    requires cfg.Valid() && g.Valid(cfg)
    ensures Fetched(cfg, base, g).None? <==> Command1(cfg, base, g).Blocked?
    ensures Fetched(cfg, base, g).Some? && !DecodeHeader(Fetched(cfg, base, g).value).Method? ==>
      var h := Fetched(cfg, base, g).value;
      && 0 <= NextGet(g.get, g.subr, h) < TWO_32 && 0 <= NextSubr(g.get, g.subr, h) < TWO_32
      && Command1(cfg, base, g) == Ran(g.(get := NextGet(g.get, g.subr, h), subr := NextSubr(g.get, g.subr, h)), 1, false)
  {
    hide RunMethod, DecodeHeader, Read32, NextGet, NextSubr;
    if Fetched(cfg, base, g).Some? {
      var h := Fetched(cfg, base, g).value;
      HeaderGoes(g.get, g.subr, h);
      match DecodeHeader(h)
      case Method(m, sc, n) =>
        HeaderFields(h);
        MethodNeverBlocks(cfg, base, g.(get := Wrap(g.get + 4)), m, sc, n);
      case _ =>
    }
  }

  lemma MethodNeverBlocks(cfg: Config, base: nat, g: Gpu, m: nat, sc: nat, n: nat)
    requires cfg.Valid() && g.Valid(cfg) && sc < 8
    ensures !RunMethod(cfg, base, g, m, sc, n).Blocked?
  {
    hide Read32, NotifyEntry, NotifyWrites, MethodEffect;
  }

  /** The same from the decoded command. */
  lemma HeaderGoes(get: u32, subr: u32, h: u32)
    ensures var next := Wrap(get + 4);
      match DecodeHeader(h)
      case Skip => NextGet(get, subr, h) == next && NextSubr(get, subr, h) == subr
      case Jump(t) => NextGet(get, subr, h) == t && NextSubr(get, subr, h) == subr
      case Call(t) =>
        if subr % 2 == 1 then NextGet(get, subr, h) == next && NextSubr(get, subr, h) == subr
        else NextGet(get, subr, h) == t && NextSubr(get, subr, h) == next % 0x2000_0000 / 4 * 4 + 1
      case Return =>
        if subr % 2 == 1 then NextGet(get, subr, h) == subr % 0x2000_0000 / 4 * 4 && NextSubr(get, subr, h) == 0
        else NextGet(get, subr, h) == next && NextSubr(get, subr, h) == subr
      case Method(_, _, _) => true
  {
    hide DecodeHeader;
    HeaderKinds(h);
    Masked(Wrap(get + 4));
    Masked(subr);
  }

  lemma Masked(x: u32)
    ensures x % 0x2000_0000 / 4 * 4 == x % 0x2000_0000 - x % 4
  {
    var q, r := x / 0x2000_0000, x % 0x2000_0000;
    assert x == 4 * (0x800_0000 * q + r / 4) + r % 4;
    Unique(x, 4, 0x800_0000 * q + r / 4, r % 4);
  }

  // ---- Methods ----

  /** A method whose data do not fit RAM ends the tick with GET behind its header; one without data or of another
      number is stepped over; the reference fence ends the tick, nothing else does. */
  lemma MethodSteps(cfg: Config, base: nat, g: Gpu, m: nat, sc: nat, n: nat)
    requires cfg.Valid() && g.Valid(cfg) && sc < 8
    ensures var r, past := RunMethod(cfg, base, g, m, sc, n), (base + g.get + 4 * n) % 0x1_0000_0000;
      && (past > cfg.ramSize ==> r == Ran(g, 1, true))
      && (past <= cfg.ramSize && (n == 0 || m !in {0x14, 0x41, 0x60, 0x75C, 0x80, 0x82, 0x83}) ==>
            r == Ran(g.(get := (g.get + 4 * n) % 0x1_0000_0000), 1 + n, false))
      && (past <= cfg.ramSize && r.Ran? && n > 0 ==>
            r.words == 1 + n && r.gpu.get == (g.get + 4 * n) % 0x1_0000_0000 && r.gpu.subr == g.subr && r.last == (m == 0x75C))
      && (past <= cfg.ramSize && n > 0 && m in {0x14, 0x60, 0x75C, 0x80, 0x82, 0x83} && base + g.get + 4 <= cfg.ramSize ==> r.Ran?)
  {
    hide Read32, NotifyEntry, NotifyWrites;
  }

  // ---- DMA objects ----

  /** The flags and frame of an object: in RAM at the instance base when there is one and it reaches that far, but when
      both words are zero there, or it does not, in the device's own instance memory. */
  lemma ObjectWords(cfg: Config, ram: seq<u8>, offset: nat)
    requires cfg.Valid() && |ram| == cfg.ramSize
    ensures var o, at := ReadObject(cfg, ram, offset), cfg.praminBase + offset;
      var reaches := cfg.attached && offset + 12 <= cfg.praminSize;
      var empty := !reaches || (Read32(ram, at) == 0 && Read32(ram, at + 8) == 0);
      && (!empty ==> o.flags == Read32(ram, at) && o.frame == Read32(ram, at + 8))
      && (empty && offset + 12 <= 0x10_0000 ==> o.flags == Read32(cfg.pramin, offset) && o.frame == Read32(cfg.pramin, offset + 8))
      && (empty && offset + 12 > 0x10_0000 ==> o.flags == 0 && o.frame == 0)
  {
    hide Read32;
  }

  /** Bits 31 to 12 of the address come from the frame, bits 11 to 0 from the top of the flags, within 128 MB. */
  lemma AddressBits(o: DmaObject)
    ensures var a := ObjectAddress(o);
      a < 0x800_0000 && a / 0x1000 == o.frame / 0x1000 % 0x8000 && a % 0x1000 == o.flags / 0x10_0000
  {
    var page, low := o.frame / 0x1000, o.flags / 0x10_0000;
    assert o.frame - o.frame % 0x1000 == 0x1000 * page;
    Unique(0x1000 * page + low, 0x800_0000, page / 0x8000, 0x1000 * (page % 0x8000) + low);
    Unique(0x1000 * (page % 0x8000) + low, 0x1000, page % 0x8000, low);
  }

  /** NOTIFY zeroes the last word of entry `data` of the subchannel's notifier object, when it has one and the entry lies
      in RAM; it changes nothing else. */
  lemma NotifyZeroes(cfg: Config, g: Gpu, sc: nat, data: u32)
    requires cfg.Valid() && g.Valid(cfg) && sc < 8
    requires ObjectAddress(ReadObject(cfg, g.ram, g.notifier[sc] as int * 16 % 0x1_0000_0000)) + data * 16 + 16 < 0x1_0000_0000
    ensures var entry := ObjectAddress(ReadObject(cfg, g.ram, g.notifier[sc] as int * 16 % 0x1_0000_0000)) + data * 16;
      MethodEffect(cfg, g, 0x41, sc, data)
        == if g.notifier[sc] != 0 && entry + 16 <= cfg.ramSize then g.(ram := Write32(g.ram, entry + 12, 0)) else g
  {
    hide ReadObject, ObjectAddress, Write32;
    var entry := ObjectAddress(ReadObject(cfg, g.ram, g.notifier[sc] as int * 16 % 0x1_0000_0000)) + data * 16;
    WrapSmall(entry);
    WrapSmall(entry + 16);
  }

  /** A NOTIFY whose entry lies behind RAM is stepped over; only one whose bound check wraps leaves the model. */
  lemma NotifyBounds(cfg: Config, base: nat, g: Gpu, sc: nat, n: nat)
    requires cfg.Valid() && g.Valid(cfg) && sc < 8 && n > 0
    requires (base + g.get + 4 * n) % 0x1_0000_0000 <= cfg.ramSize && base + g.get + 4 <= cfg.ramSize
    ensures var r, data := RunMethod(cfg, base, g, 0x41, sc, n), Read32(g.ram, base + g.get);
      var entry := (ObjectAddress(ReadObject(cfg, g.ram, g.notifier[sc] as int * 16 % 0x1_0000_0000)) + data * 16) % 0x1_0000_0000;
      && (r.Wild? <==> g.notifier[sc] != 0 && 0 <= entry - 0xFFFF_FFF0 <= cfg.ramSize)
      && (r.Ran? && (g.notifier[sc] == 0 || entry + 16 > cfg.ramSize) ==> r.gpu.ram == g.ram)
  {
    hide ReadObject, ObjectAddress, Read32;
  }

  // ---- Between ticks ----

  /** After a tick GET is mirrored in word 1 of the channel's 64-byte RAMFC entry, when that lies in instance memory. */
  lemma MirrorWord(cfg: Config, g: Gpu, a: nat)
    requires cfg.Valid() && g.Valid(cfg) && a < cfg.ramSize
    ensures var at := cfg.praminBase + 16 * (cfg.ramfc / 0x1000 % 0x2000) + 64 * (cfg.push1 % 0x20) + 4;
      WriteBack(cfg, g) == g.(ram := WriteBack(cfg, g).ram) && |WriteBack(cfg, g).ram| == cfg.ramSize
      && WriteBack(cfg, g).ram[a]
         == if cfg.attached && at + 4 <= cfg.praminBase + cfg.praminSize && at <= a < at + 4 then ByteOf(g.get, a - at) else g.ram[a]
  {
    hide ByteOf;
  }

  /** The registers an active tick leaves: GET valid, DMA_GET equal to it, status idle exactly at PUT. */
  lemma TickRegisters(cfg: Config, p: Pusher, budget: nat)
    requires cfg.Valid() && p.gpu.Valid(cfg) && cfg.pushEnabled && cfg.push0Enabled
    requires p.getValid && p.gpu.get != cfg.put
    ensures var r := Tick(cfg, p, budget);
      r.getValid && r.dmaGet == r.gpu.get && r.status == if r.gpu.get == cfg.put then 0x10 else 0
  {
    hide Loop, ResolveBase, WriteBack;
  }
}
