/** The NV2A push-buffer interpreter: DMA objects, single commands and whole ticks. */
module PushBuffer {
  import opened Words

  const PRAMIN_SIZE := 0x10_0000
  const STATUS_IDLE: u32 := 0x10

  /** Registers a tick reads but never writes. `attached` says instance memory lives in guest RAM. */
  datatype Config = Config(
    ramSize: nat, pushEnabled: bool, push0Enabled: bool, put: u32, dmaInstance: u32, ramfc: u32, push1: u32,
    attached: bool, praminBase: nat, praminSize: nat, pramin: seq<u8>)
  {
    predicate Valid() {
      ramSize < 0x8000_0001 && praminBase + praminSize <= ramSize && |pramin| == PRAMIN_SIZE
    }
  }

  /** What commands read and write. */
  datatype Gpu = Gpu(
    ram: seq<u8>, get: u32, subr: u32, cacheRef: u32, refCnt: u32,
    surfaceFormat: u32, surfaceColor: u32, surfacePitch: u32, notifier: seq<u32>)
  {
    predicate Valid(cfg: Config) { |ram| == cfg.ramSize && |notifier| == 8 }
  }

  /** The pusher between ticks. */
  datatype Pusher = Pusher(gpu: Gpu, getValid: bool, dmaGet: u32, status: u32)

  // ---- DMA objects ----

  datatype DmaObject = DmaObject(flags: u32, frame: u32)

  /** A DMA object: from guest RAM when instance memory is there, else (or if that reads as zero) from PRAMIN. */
  function ReadObject(cfg: Config, ram: seq<u8>, offset: nat): DmaObject
    requires cfg.Valid() && |ram| == cfg.ramSize
  {
    var inRam := cfg.attached && offset + 12 <= cfg.praminSize;
    var o := if inRam then DmaObject(Read32(ram, cfg.praminBase + offset), Read32(ram, cfg.praminBase + offset + 8))
             else DmaObject(0, 0);
    if o.flags == 0 && o.frame == 0 && offset + 12 <= PRAMIN_SIZE
    then DmaObject(Read32(cfg.pramin, offset), Read32(cfg.pramin, offset + 8))
    else o
  }

  function ObjectAddress(o: DmaObject): nat {
    (o.frame - o.frame % 0x1000 + o.flags / 0x10_0000) % 0x800_0000
  }

  function ResolveBase(cfg: Config, ram: seq<u8>): nat
    requires cfg.Valid() && |ram| == cfg.ramSize
  {
    ObjectAddress(ReadObject(cfg, ram, cfg.dmaInstance % 0x1_0000 * 16))
  }

  // ---- Commands ----

  datatype Command =
    | Skip
    | Jump(target: u32)
    | Call(target: u32)
    | Return
    | Method(m: nat, subchannel: nat, count: nat)

  /** The kind of a header word, tested in the interpreter's order. */
  function DecodeHeader(h: u32): Command {
    if h == 0 then Skip
    else if h / 0x2000_0000 == 1 && h % 4 == 0 then Jump(h % 0x2000_0000)
    else if h % 4 == 1 then Jump(h - h % 4)
    else if h % 4 == 2 then Call(h - h % 4)
    else if h == 0x2_0000 then Return
    else if h / 0x2000_0000 in {0, 2} && h / 0x1_0000 % 4 == 0 && h % 4 == 0 then
      Method(h / 4 % 0x800, h / 0x2000 % 8, h / 0x4_0000 % 0x800)
    else Skip
  }

  lemma HeaderFields(w: u32)
    ensures DecodeHeader(w).Method? ==> DecodeHeader(w).subchannel < 8 && DecodeHeader(w).count < 0x800
  {
  }

  /** The header words a driver writes. */
  function MethodHeader(m: nat, subchannel: nat, count: nat, increasing: bool): nat {
    m * 4 + subchannel * 0x2000 + count * 0x4_0000 + if increasing then 0 else 0x4000_0000
  }

  /** Every method header decodes to its fields; the one that is zero is a NOP. */
  lemma MethodDecodes(m: nat, subchannel: nat, count: nat, increasing: bool)
    requires m < 0x800 && subchannel < 8 && count < 0x800
    ensures var h := MethodHeader(m, subchannel, count, increasing);
      h < TWO_32 && DecodeHeader(h) == if h == 0 then Skip else Method(m, subchannel, count)
  {
    var k := if increasing then 0 else 0x1000;
    var h := MethodHeader(m, subchannel, count, increasing);
    var q := subchannel * 0x800 + count * 0x1_0000 + k * 0x1_0000;
    assert h == 4 * (m + q);
    Fields(m, subchannel, count, k);
  }

  /** The fields of a header, from its quarter. */
  lemma Fields(m: nat, sc: nat, count: nat, k: nat)
    requires m < 0x800 && sc < 8 && count < 0x800 && k in {0, 0x1000}
    ensures var h := 4 * (m + sc * 0x800 + (count + k) * 0x1_0000);
      && h % 4 == 0 && h / 4 % 0x800 == m && h / 0x2000 % 8 == sc && h / 0x1_0000 % 4 == 0
      && h / 0x4_0000 % 0x800 == count && h / 0x2000_0000 == k / 0x800
  {
    var h, top := 4 * (m + sc * 0x800 + (count + k) * 0x1_0000), count + k;
    Unique(h, 4, m + sc * 0x800 + top * 0x1_0000, 0);
    Unique(h / 4, 0x800, sc + top * 0x20, m);
    Unique(h, 0x2000, sc + top * 0x20, 4 * m);
    Unique(h / 0x2000, 8, top * 4, sc);
    Unique(h, 0x1_0000, top * 4, 4 * m + 0x2000 * sc);
    Unique(h / 0x1_0000, 4, top, 0);
    Unique(h, 0x4_0000, top, 4 * m + 0x2000 * sc);
    Unique(top, 0x800, k / 0x800, count);
    Unique(h, 0x2000_0000, k / 0x800, 0x4_0000 * count + 4 * m + 0x2000 * sc);
  }

  /** Both jump encodings and the call encoding decode to their target. */
  lemma TargetsDecode(q: nat)
    requires q < 0x4000_0000
    ensures DecodeHeader(4 * q + 1) == Jump(4 * q) && DecodeHeader(4 * q + 2) == Call(4 * q)
    ensures q < 0x800_0000 ==> DecodeHeader(0x2000_0000 + 4 * q) == Jump(4 * q)
  {
    assert (4 * q + 1) % 4 == 1 && (4 * q + 2) % 4 == 2;
    if q < 0x800_0000 {
      var h := 0x2000_0000 + 4 * q;
      assert h == 4 * (0x800_0000 + q) && h % 4 == 0 && h / 0x2000_0000 == 1 && h % 0x2000_0000 == 4 * q;
    }
  }

  /** A DMA object built for a base address in the first 128 MB resolves to it. */
  lemma ObjectResolves(page: nat, low: nat, limit: nat)
    requires page < 0x8000 && low < 0x1000 && limit < 0x10_0000
    ensures ObjectAddress(DmaObject(low * 0x10_0000 + limit, page * 0x1000)) == page * 0x1000 + low
  {
    assert (low * 0x10_0000 + limit) / 0x10_0000 == low;
  }

  const SET_REFERENCE := 0x14
  const PGRAPH_REFERENCE := 0x75C
  const SET_NOTIFIES := 0x60
  const NOTIFY := 0x41
  const SURFACE_FORMAT := 0x80
  const SURFACE_COLOR := 0x82
  const SURFACE_PITCH := 0x83

  predicate UsesData(m: nat) {
    m in {SET_REFERENCE, PGRAPH_REFERENCE, SET_NOTIFIES, NOTIFY, SURFACE_FORMAT, SURFACE_COLOR, SURFACE_PITCH}
  }

  /** Where NOTIFY writes its completion, before the bound check. */
  function NotifyEntry(cfg: Config, g: Gpu, subchannel: nat, data: u32): u32
    requires cfg.Valid() && g.Valid(cfg) && subchannel < 8
  {
    Wrap(ObjectAddress(ReadObject(cfg, g.ram, Wrap(g.notifier[subchannel] as int * 16))) + data * 16)
  }

  predicate NotifyWrites(cfg: Config, g: Gpu, subchannel: nat, data: u32)
    requires cfg.Valid() && g.Valid(cfg) && subchannel < 8
  {
    g.notifier[subchannel] != 0 && Wrap(NotifyEntry(cfg, g, subchannel, data) + 16) <= cfg.ramSize
  }

  /** The effect of a method on its first data word. */
  function MethodEffect(cfg: Config, g: Gpu, m: nat, subchannel: nat, data: u32): (r: Gpu)
    requires cfg.Valid() && g.Valid(cfg) && subchannel < 8
    ensures r.Valid(cfg) && r.get == g.get && r.subr == g.subr
  {
    if m == SET_REFERENCE then g.(cacheRef := data)
    else if m == PGRAPH_REFERENCE then g.(refCnt := data)
    else if m == SET_NOTIFIES then g.(notifier := g.notifier[subchannel := data])
    else if m == NOTIFY then
      if NotifyWrites(cfg, g, subchannel, data) && NotifyEntry(cfg, g, subchannel, data) + 16 <= cfg.ramSize
      then g.(ram := Write32(g.ram, NotifyEntry(cfg, g, subchannel, data) + 12, 0))
      else g
    else if m == SURFACE_FORMAT then g.(surfaceFormat := data)
    else if m == SURFACE_COLOR then g.(surfaceColor := data)
    else if m == SURFACE_PITCH then g.(surfacePitch := data)
    else g
  }

  /** One command: the new state, the words consumed, and whether the tick ends with it.
      Blocked: the header is outside RAM. Wild: a wrapped check lets an access outside RAM through. */
  datatype Outcome = Ran(gpu: Gpu, words: nat, last: bool) | Blocked | Wild

  function Command1(cfg: Config, base: nat, g: Gpu): (r: Outcome)
    requires cfg.Valid() && g.Valid(cfg)
    ensures r.Ran? ==> r.words > 0 && r.gpu.Valid(cfg)
  {
    var phys := Wrap(base + g.get);
    if phys + 4 > cfg.ramSize then Blocked
    else
      var next := g.(get := Wrap(g.get + 4));
      match DecodeHeader(Read32(g.ram, phys))
      case Skip => Ran(next, 1, false)
      case Jump(t) => Ran(g.(get := t), 1, false)
      case Call(t) =>
        if g.subr % 2 == 1 then Ran(next, 1, false)
        else Ran(g.(subr := next.get % 0x2000_0000 / 4 * 4 + 1, get := t), 1, false)
      case Return =>
        if g.subr % 2 == 1 then Ran(g.(get := g.subr % 0x2000_0000 / 4 * 4, subr := 0), 1, false)
        else Ran(next, 1, false)
      case Method(m, sc, n) => RunMethod(cfg, base, next, m, sc, n)
  }

  /** A method command whose header has been consumed. One that does not fit RAM ends the tick there. */
  function RunMethod(cfg: Config, base: nat, g: Gpu, m: nat, sc: nat, n: nat): (r: Outcome)
    requires cfg.Valid() && g.Valid(cfg) && sc < 8
    ensures r.Ran? ==> r.words > 0 && r.gpu.Valid(cfg)
  {
    if Wrap(base + g.get + n * 4) > cfg.ramSize then Ran(g, 1, true)
    else if n == 0 || !UsesData(m) then Ran(g.(get := Wrap(g.get + n * 4)), 1 + n, false)
    else if base + g.get + 4 > cfg.ramSize then Wild
    else
      var data := Read32(g.ram, base + g.get);
      if m == NOTIFY && NotifyWrites(cfg, g, sc, data) && NotifyEntry(cfg, g, sc, data) + 16 > cfg.ramSize then Wild
      else
        var g' := MethodEffect(cfg, g, m, sc, data);
        Ran(g'.(get := Wrap(g.get + n * 4)), 1 + n, m == PGRAPH_REFERENCE)
  }

  // ---- Ticks ----

  /** Commands until GET meets PUT, the budget is used up, or a command ends the tick. */
  function Loop(cfg: Config, base: nat, g: Gpu, budget: int): (r: Gpu)
    requires cfg.Valid() && g.Valid(cfg)
    ensures r.Valid(cfg)
    decreases if budget < 0 then 0 else budget
  {
    if g.get == cfg.put || budget <= 0 then g
    else
      match Command1(cfg, base, g)
      case Blocked => g
      case Wild => g
      case Ran(g', words, last) => if last then g' else Loop(cfg, base, g', budget - words)
  }

  /** The RAMFC word that mirrors GET, if instance memory holds it. */
  function RamfcSlot(cfg: Config): Option<nat> {
    var a := cfg.praminBase + cfg.ramfc / 0x1000 % 0x2000 * 16 + cfg.push1 % 0x20 * 64 + 4;
    if cfg.attached && a + 4 <= cfg.praminBase + cfg.praminSize then Some(a) else None
  }

  function WriteBack(cfg: Config, g: Gpu): (r: Gpu)
    requires cfg.Valid() && g.Valid(cfg)
    ensures r.Valid(cfg)
  {
    match RamfcSlot(cfg)
    case None => g
    case Some(a) => g.(ram := Write32(g.ram, a, g.get))
  }

  /** tick_fifo with a dword budget. */
  function Tick(cfg: Config, p: Pusher, budget: nat): (r: Pusher)
    requires cfg.Valid() && p.gpu.Valid(cfg)
    ensures r.gpu.Valid(cfg)
  {
    if !cfg.pushEnabled || !cfg.push0Enabled then p
    else
      var p1 := if !p.getValid && cfg.put != 0 then p.(gpu := p.gpu.(get := p.dmaGet), getValid := true) else p;
      if !p1.getValid then p1
      else if p1.gpu.get == cfg.put then p1.(status := STATUS_IDLE)
      else
        var g := WriteBack(cfg, Loop(cfg, ResolveBase(cfg, p1.gpu.ram), p1.gpu, budget));
        Pusher(g, true, g.get, if g.get == cfg.put then STATUS_IDLE else 0)
  }

  function Ticks(cfg: Config, p: Pusher, budgets: seq<nat>): (r: Pusher)
    requires cfg.Valid() && p.gpu.Valid(cfg)
    ensures r.gpu.Valid(cfg)
    decreases |budgets|
  {
    if budgets == [] then p else Ticks(cfg, Tick(cfg, p, budgets[0]), budgets[1..])
  }
}
