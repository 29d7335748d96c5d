/** The pusher as it runs: registers, notifier table and guest RAM updated in place. */
module PushRuntime {
  import opened Words
  import opened PushBuffer

  const MAX_DWORDS_PER_TICK := 0x4_0000

  /** No command of this loop gets past a wrapped bound check. */
  predicate Tame(cfg: Config, base: nat, g: Gpu, budget: int)
    requires cfg.Valid() && g.Valid(cfg)
    decreases if budget < 0 then 0 else budget
  {
    g.get == cfg.put || budget <= 0 ||
    (match Command1(cfg, base, g)
     case Blocked => true
     case Wild => false
     case Ran(g', words, last) => last || Tame(cfg, base, g', budget - words))
  }

  class Fifo {
    var cfg: Config
    var ram: array<u8>
    var notifier: array<u32>
    var fifoGet: u32
    var fifoGetValid: bool
    var dmaGet: u32
    var status: u32
    var subr: u32
    var cacheRef: u32
    var refCnt: u32
    var surfaceFormat: u32
    var surfaceColor: u32
    var surfacePitch: u32

    ghost predicate Valid()
      reads this
    {
      cfg.Valid() && ram.Length == cfg.ramSize && notifier.Length == 8
    }

    ghost function Contents(): (g: Gpu)
      reads this, ram, notifier
      ensures Valid() ==> g.Valid(cfg)
    {
      Gpu(ram[..], fifoGet, subr, cacheRef, refCnt, surfaceFormat, surfaceColor, surfacePitch, notifier[..])
    }

    ghost function Abstract(): (p: Pusher)
      reads this, ram, notifier
      ensures Valid() ==> p.gpu.Valid(cfg)
    {
      Pusher(Contents(), fifoGetValid, dmaGet, status)
    }

    method FetchObject(offset: nat) returns (o: DmaObject)
      requires Valid()
      ensures o == ReadObject(cfg, ram[..], offset)
    {
      hide Word;
      o := DmaObject(0, 0);
      if cfg.attached && offset + 12 <= cfg.praminSize {
        var flags := Load32(ram, cfg.praminBase + offset);
        var frame := Load32(ram, cfg.praminBase + offset + 8);
        o := DmaObject(flags, frame);
      }
      if o.flags == 0 && o.frame == 0 && offset + 12 <= PRAMIN_SIZE {
        o := DmaObject(Read32(cfg.pramin, offset), Read32(cfg.pramin, offset + 8));
      }
    }

    /** NOTIFY: completion status 0 into the last word of the notifier entry. */
    method Notify(subchannel: nat, data: u32)
      requires Valid() && subchannel < 8
      requires NotifyWrites(cfg, Contents(), subchannel, data)
           ==> NotifyEntry(cfg, Contents(), subchannel, data) + 16 <= cfg.ramSize
      modifies ram
      ensures Valid() && Contents() == MethodEffect(cfg, old(Contents()), NOTIFY, subchannel, data)
    {
      hide ReadObject, ObjectAddress;
      var inst := notifier[subchannel];
      if inst != 0 {
        var o := FetchObject(Wrap(inst as int * 16));
        var entry := Wrap(ObjectAddress(o) + data * 16);
        if Wrap(entry as int + 16) <= cfg.ramSize {
          Store32(ram, entry + 12, 0);
        }
      }
    }

    /** A method command behind its header. Returns the words taken, or that the tick ends here. */
    method Dispatch(base: nat, m: nat, subchannel: nat, count: nat) returns (words: nat, last: bool)
      requires Valid() && subchannel < 8
      requires RunMethod(cfg, base, Contents(), m, subchannel, count) != Wild
      modifies this, ram, notifier
      ensures ram == old(ram) && notifier == old(notifier) && cfg == old(cfg) && Valid()
      ensures fifoGetValid == old(fifoGetValid) && dmaGet == old(dmaGet) && status == old(status)
      ensures RunMethod(cfg, base, old(Contents()), m, subchannel, count) == Ran(Contents(), words, last)
    {
      hide Read32, ReadObject, ObjectAddress, NotifyEntry, NotifyWrites;
      if Wrap(base + fifoGet + count * 4) > cfg.ramSize {
        return 1, true;
      }
      words, last := 1 + count, false;
      if count >= 1 && UsesData(m) {
        var data := Load32(ram, base + fifoGet);
        if m == SET_REFERENCE { cacheRef := data; }
        if m == PGRAPH_REFERENCE { refCnt := data; last := true; }
        if m == SET_NOTIFIES {
          notifier[subchannel] := data;
          assert notifier[..] == old(notifier[..])[subchannel := data];
        }
        if m == NOTIFY { Notify(subchannel, data); }
        if m == SURFACE_COLOR { surfaceColor := data; }
        if m == SURFACE_PITCH { surfacePitch := data; }
        if m == SURFACE_FORMAT { surfaceFormat := data; }
      }
      fifoGet := Wrap(fifoGet + count * 4);
    }

    /** One turn of the loop. `words` is zero when the header is outside RAM. */
    method Step(base: nat) returns (words: nat, last: bool)
      requires Valid() && Command1(cfg, base, Contents()) != Wild
      modifies this, ram, notifier
      ensures ram == old(ram) && notifier == old(notifier) && cfg == old(cfg) && Valid()
      ensures fifoGetValid == old(fifoGetValid) && dmaGet == old(dmaGet) && status == old(status)
      ensures words == 0 ==> Contents() == old(Contents())
      ensures Command1(cfg, base, old(Contents())) == if words == 0 then Blocked else Ran(Contents(), words, last)
    {
      hide Read32, DecodeHeader, RunMethod;
      words, last := 1, false;
      var phys := Wrap(base + fifoGet);
      if phys + 4 > cfg.ramSize { return 0, true; }
      var header := Load32(ram, phys);
      fifoGet := Wrap(fifoGet + 4);
      HeaderFields(header);
      match DecodeHeader(header) {
        case Skip =>
        case Jump(target) => fifoGet := target;
        case Call(target) =>
          if subr % 2 == 0 {
            subr := fifoGet % 0x2000_0000 / 4 * 4 + 1;
            fifoGet := target;
          }
        case Return =>
          if subr % 2 == 1 {
            fifoGet := subr % 0x2000_0000 / 4 * 4;
            subr := 0;
          }
        case Method(m, subchannel, count) =>
          words, last := Dispatch(base, m, subchannel, count);
      }
    }

    method TickFifo()
      requires Valid()
      requires
        var g := if !fifoGetValid && cfg.put != 0 then Contents().(get := dmaGet) else Contents();
        Tame(cfg, ResolveBase(cfg, ram[..]), g, MAX_DWORDS_PER_TICK)
      modifies this, ram, notifier
      ensures ram == old(ram) && notifier == old(notifier) && cfg == old(cfg) && Valid()
      ensures Abstract() == Tick(cfg, old(Abstract()), MAX_DWORDS_PER_TICK)
    {
      hide Command1, ReadObject, ObjectAddress, RamfcSlot;
      if !cfg.pushEnabled || !cfg.push0Enabled { return; }
      if !fifoGetValid && cfg.put != 0 {
        fifoGet, fifoGetValid := dmaGet, true;
      }
      if !fifoGetValid { return; }
      if fifoGet == cfg.put { status := STATUS_IDLE; return; }
      status := 0;
      var dmaObject := FetchObject(cfg.dmaInstance % 0x1_0000 * 16);
      var base := ObjectAddress(dmaObject);
      ghost var start := Contents();
      var consumed := 0;
      while fifoGet != cfg.put && consumed < MAX_DWORDS_PER_TICK
        invariant ram == old(ram) && notifier == old(notifier) && cfg == old(cfg) && Valid()
        invariant fifoGetValid && status == 0
        invariant Tame(cfg, base, Contents(), MAX_DWORDS_PER_TICK - consumed)
        invariant Loop(cfg, base, start, MAX_DWORDS_PER_TICK)
               == Loop(cfg, base, Contents(), MAX_DWORDS_PER_TICK - consumed)
        decreases MAX_DWORDS_PER_TICK - consumed
      {
        var words, last := Step(base);
        if words == 0 || last { break; }
        consumed := consumed + words;
      }
      assert Contents() == Loop(cfg, base, start, MAX_DWORDS_PER_TICK);
      MirrorGet();
      dmaGet := fifoGet;
      if fifoGet == cfg.put { status := STATUS_IDLE; }
    }

    /** GET into its RAMFC entry. */
    method MirrorGet()
      requires Valid()
      modifies ram
      ensures Contents() == WriteBack(cfg, old(Contents()))
    {
      var slot := RamfcSlot(cfg);
      if slot.Some? { Store32(ram, slot.value, fifoGet); }
    }
  }
}
