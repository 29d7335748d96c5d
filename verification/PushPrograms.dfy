/** Straight-line push buffers: their effect, CALL/RETURN as inlining, and draining to PUT. */
module PushPrograms {
  import opened Words
  import opened PushBuffer
  import opened PushRuns

  const RETURN_WORD: u32 := 0x2_0000

  // ---- Straight-line words and their effect, without addresses ----

  /** How many words the command at the head takes. */
  function CommandLength(ws: seq<u32>): (n: nat)
    requires ws != []
    ensures n > 0
  {
    match DecodeHeader(ws[0])
    case Method(_, _, n) => 1 + n
    case _ => 1
  }

  predicate StraightLine(ws: seq<u32>)
    decreases |ws|
  {
    ws == [] ||
    (var c := DecodeHeader(ws[0]);
     (c.Skip? || c.Method?) && CommandLength(ws) <= |ws| && StraightLine(ws[CommandLength(ws)..]))
  }

  /** No command ends a tick. */
  predicate FenceFree(ws: seq<u32>)
    requires StraightLine(ws)
    decreases |ws|
  {
    ws == [] ||
    (var c := DecodeHeader(ws[0]);
     !(c.Method? && c.m == PGRAPH_REFERENCE && c.count > 0) && FenceFree(ws[CommandLength(ws)..]))
  }

  function Commands(ws: seq<u32>): nat
    requires StraightLine(ws)
    decreases |ws|
  {
    if ws == [] then 0 else 1 + Commands(ws[CommandLength(ws)..])
  }

  /** The effect of the command at the head. */
  function HeadEffect(cfg: Config, g: Gpu, ws: seq<u32>): (r: Gpu)
    requires cfg.Valid() && g.Valid(cfg) && ws != [] && CommandLength(ws) <= |ws|
    ensures r.Valid(cfg) && r.get == g.get && r.subr == g.subr
  {
    match DecodeHeader(ws[0])
    case Method(m, sc, n) => if n == 0 then g else MethodEffect(cfg, g, m, sc, ws[1])
    case _ => g
  }

  /** What the words do to registers and RAM. */
  function Effects(cfg: Config, g: Gpu, ws: seq<u32>): (r: Gpu)
    requires cfg.Valid() && g.Valid(cfg) && StraightLine(ws)
    ensures r.Valid(cfg) && r.get == g.get && r.subr == g.subr
    decreases |ws|
  {
    if ws == [] then g else Effects(cfg, HeadEffect(cfg, g, ws), ws[CommandLength(ws)..])
  }

  /** The head command's completion write, if any, stays inside RAM and outside `keep`. */
  ghost predicate HeadSpares(cfg: Config, g: Gpu, ws: seq<u32>, keep: iset<int>)
    requires cfg.Valid() && g.Valid(cfg) && ws != [] && CommandLength(ws) <= |ws|
  {
    match DecodeHeader(ws[0])
    case Method(m, sc, n) =>
      m == NOTIFY && n > 0 && NotifyWrites(cfg, g, sc, ws[1]) ==>
        && NotifyEntry(cfg, g, sc, ws[1]) + 16 <= cfg.ramSize
        && (forall a :: NotifyEntry(cfg, g, sc, ws[1]) + 12 <= a < NotifyEntry(cfg, g, sc, ws[1]) + 16 ==> a !in keep)
    case _ => true
  }

  ghost predicate Spares(cfg: Config, g: Gpu, ws: seq<u32>, keep: iset<int>)
    requires cfg.Valid() && g.Valid(cfg) && StraightLine(ws)
    decreases |ws|
  {
    ws == [] || (HeadSpares(cfg, g, ws, keep) && Spares(cfg, HeadEffect(cfg, g, ws), ws[CommandLength(ws)..], keep))
  }

  /** The head command runs method m, on the given subchannel if one is asked for. */
  predicate HeadSets(ws: seq<u32>, m: nat, subchannel: Option<nat>)
    requires ws != []
  {
    var c := DecodeHeader(ws[0]);
    c.Method? && c.m == m && c.count > 0 && (subchannel == None || subchannel == Some(c.subchannel))
  }

  /** The data word of the last such command. */
  function LastData(ws: seq<u32>, m: nat, subchannel: Option<nat>): Option<u32>
    requires StraightLine(ws)
    decreases |ws|
  {
    if ws == [] then None
    else
      match LastData(ws[CommandLength(ws)..], m, subchannel)
      case Some(v) => Some(v)
      case None => if HeadSets(ws, m, subchannel) then Some(ws[1]) else None
  }

  function Or(v: Option<u32>, before: u32): u32 {
    match v case Some(x) => x case None => before
  }

  /** One command sets exactly the register it names, or zeroes the last word of the notifier entry, and leaves
      everything else. */
  lemma HeadRegisters(cfg: Config, g: Gpu, ws: seq<u32>)
    requires cfg.Valid() && g.Valid(cfg) && ws != [] && CommandLength(ws) <= |ws|
    ensures var r := HeadEffect(cfg, g, ws);
      && r.cacheRef == (if HeadSets(ws, 0x14, None) then ws[1] else g.cacheRef)
      && r.refCnt == (if HeadSets(ws, 0x75C, None) then ws[1] else g.refCnt)
      && r.surfaceFormat == (if HeadSets(ws, 0x80, None) then ws[1] else g.surfaceFormat)
      && r.surfaceColor == (if HeadSets(ws, 0x82, None) then ws[1] else g.surfaceColor)
      && r.surfacePitch == (if HeadSets(ws, 0x83, None) then ws[1] else g.surfacePitch)
      && (forall sc :: 0 <= sc < 8 ==>
            r.notifier[sc] == if HeadSets(ws, 0x60, Some(sc)) then ws[1] else g.notifier[sc])
      && (!HeadSets(ws, 0x41, None) ==> r.ram == g.ram)
      && (HeadSets(ws, 0x41, None) ==>
            var sc := DecodeHeader(ws[0]).subchannel;
            HeaderFields(ws[0]);
            var entry := NotifyEntry(cfg, g, sc, ws[1]);
            if NotifyWrites(cfg, g, sc, ws[1]) && entry + 16 <= cfg.ramSize
            then Read32(r.ram, entry + 12) == 0
                 && forall a :: 0 <= a < cfg.ramSize && !(entry + 12 <= a < entry + 16) ==> r.ram[a] == g.ram[a]
            else r.ram == g.ram)
  {
    hide DecodeHeader, NotifyWrites, NotifyEntry, Word;
    HeaderFields(ws[0]);
    if HeadSets(ws, 0x41, None) {
      var sc := DecodeHeader(ws[0]).subchannel;
      var entry := NotifyEntry(cfg, g, sc, ws[1]);
      if NotifyWrites(cfg, g, sc, ws[1]) && entry + 16 <= cfg.ramSize {
        ReadAfterWrite(g.ram, entry + 12, 0, entry + 12);
      }
    }
  }

  /** Every register holds what the last command for it said, and the old value without one. */
  lemma {:induction false} RegistersHoldLastData(cfg: Config, g: Gpu, ws: seq<u32>)
    requires cfg.Valid() && g.Valid(cfg) && StraightLine(ws)
    ensures var r := Effects(cfg, g, ws);
      && r.cacheRef == Or(LastData(ws, 0x14, None), g.cacheRef)
      && r.refCnt == Or(LastData(ws, 0x75C, None), g.refCnt)
      && r.surfaceFormat == Or(LastData(ws, 0x80, None), g.surfaceFormat)
      && r.surfaceColor == Or(LastData(ws, 0x82, None), g.surfaceColor)
      && r.surfacePitch == Or(LastData(ws, 0x83, None), g.surfacePitch)
      && (forall sc :: 0 <= sc < 8 ==> r.notifier[sc] == Or(LastData(ws, 0x60, Some(sc)), g.notifier[sc]))
    decreases |ws|
  {
    hide DecodeHeader, HeadEffect;
    if ws != [] {
      HeadRegisters(cfg, g, ws);
      RegistersHoldLastData(cfg, HeadEffect(cfg, g, ws), ws[CommandLength(ws)..]);
    }
  }

  // ---- Words in memory ----

  /** The words sit at `at`, inside RAM and inside the protected bytes, and PUT is not among them. */
  ghost predicate Placed(cfg: Config, base: nat, ram: seq<u8>, at: nat, ws: seq<u32>, keep: iset<int>)
    requires cfg.Valid() && |ram| == cfg.ramSize
  {
    && base + at + 4 * |ws| <= cfg.ramSize
    && (forall i :: 0 <= i < |ws| ==> Read32(ram, base + at + 4 * i) == ws[i])
    && (forall a :: base + at <= a < base + at + 4 * |ws| ==> a in keep)
    && !(at <= cfg.put < at + 4 * |ws|)
  }

  lemma PlacedSame(cfg: Config, base: nat, m: seq<u8>, n: seq<u8>, at: nat, ws: seq<u32>, keep: iset<int>)
    requires cfg.Valid() && |m| == cfg.ramSize && SameOn(m, n, keep) && Placed(cfg, base, m, at, ws, keep)
    ensures Placed(cfg, base, n, at, ws, keep)
  {
    hide Word;
    forall i | 0 <= i < |ws| ensures Read32(n, base + at + 4 * i) == ws[i] {
      assert Read32(m, base + at + 4 * i) == ws[i];
    }
  }

  lemma PlacedTail(cfg: Config, base: nat, m: seq<u8>, at: nat, ws: seq<u32>, k: nat, keep: iset<int>)
    requires cfg.Valid() && |m| == cfg.ramSize && Placed(cfg, base, m, at, ws, keep) && k <= |ws|
    ensures Placed(cfg, base, m, at + 4 * k, ws[k..], keep)
  {
    hide Read32;
    forall i | 0 <= i < |ws| - k ensures Read32(m, base + (at + 4 * k) + 4 * i) == ws[k..][i] {
      var j := k + i;
      assert Read32(m, base + at + 4 * j) == ws[j];
    }
  }

  lemma PlacedFront(cfg: Config, base: nat, m: seq<u8>, at: nat, ws: seq<u32>, k: nat, keep: iset<int>)
    requires cfg.Valid() && |m| == cfg.ramSize && Placed(cfg, base, m, at, ws, keep) && k <= |ws|
    ensures Placed(cfg, base, m, at, ws[..k], keep)
  {
    hide Read32;
  }

  // ---- One straight-line command ----

  lemma HeadKeeps(cfg: Config, g: Gpu, ws: seq<u32>, keep: iset<int>)
    requires cfg.Valid() && g.Valid(cfg) && ws != [] && CommandLength(ws) <= |ws| && HeadSpares(cfg, g, ws, keep)
    ensures SameOn(g.ram, HeadEffect(cfg, g, ws).ram, keep)
  {
    hide DecodeHeader, NotifyEntry, NotifyWrites, ByteOf;
  }

  /** The interpreter runs the head command with exactly its effect. */
  lemma HeadRuns(cfg: Config, base: nat, g: Gpu, ws: seq<u32>, keep: iset<int>)
    requires cfg.Valid() && g.Valid(cfg) && ws != [] && StraightLine(ws) && HeadSpares(cfg, g, ws, keep)
    requires Placed(cfg, base, g.ram, g.get, ws, keep)
    ensures g.get != cfg.put
    ensures var e := HeadEffect(cfg, g, ws);
      Command1(cfg, base, g) == Ran(e.(get := Wrap(g.get + 4 * CommandLength(ws))), CommandLength(ws),
                                    ws != [] && DecodeHeader(ws[0]).Method? && DecodeHeader(ws[0]).m == PGRAPH_REFERENCE
                                    && DecodeHeader(ws[0]).count > 0)
  {
    hide DecodeHeader, NotifyEntry, NotifyWrites, Read32, MethodEffect, RunMethod;
    WrapSmall(base + g.get);
    WrapSmall(g.get + 4);
    assert Read32(g.ram, base + g.get + 4 * 0) == ws[0];
    match DecodeHeader(ws[0])
    case Skip =>
    case Method(m, sc, n) =>
      HeaderFields(ws[0]);
      if n > 0 { assert Read32(g.ram, base + g.get + 4 * 1) == ws[1]; }
      MethodRuns(cfg, base, g, m, sc, n, if n > 0 then ws[1] else 0, keep);
  }

  lemma MethodRuns(cfg: Config, base: nat, g: Gpu, m: nat, sc: nat, n: nat, data: u32, keep: iset<int>)
    requires cfg.Valid() && g.Valid(cfg) && sc < 8 && base + g.get + 4 + n * 4 <= cfg.ramSize
    requires n > 0 ==> Read32(g.ram, base + g.get + 4) == data
    requires m == NOTIFY && n > 0 && NotifyWrites(cfg, g, sc, data) ==> NotifyEntry(cfg, g, sc, data) + 16 <= cfg.ramSize
    ensures RunMethod(cfg, base, g.(get := g.get + 4), m, sc, n) ==
            Ran((if n == 0 then g else MethodEffect(cfg, g, m, sc, data)).(get := Wrap(g.get + 4 + n * 4)), 1 + n,
                m == PGRAPH_REFERENCE && n > 0)
  {
    hide Read32, ObjectAddress, ReadObject;
    WrapSmall(base + (g.get + 4) + n * 4);
  }

  /** GET and SUBROUTINE play no part in effects. */
  lemma HeadIgnoresGet(cfg: Config, g: Gpu, ws: seq<u32>, x: u32, s: u32)
    requires cfg.Valid() && g.Valid(cfg) && ws != [] && CommandLength(ws) <= |ws|
    ensures HeadEffect(cfg, g.(get := x, subr := s), ws) == HeadEffect(cfg, g, ws).(get := x, subr := s)
  {
    hide DecodeHeader, MethodEffect;
    match DecodeHeader(ws[0])
    case Method(m, sc, n) => HeaderFields(ws[0]); if n > 0 { MethodIgnoresGet(cfg, g, m, sc, ws[1], x, s); }
    case _ =>
  }

  lemma MethodIgnoresGet(cfg: Config, g: Gpu, m: nat, sc: nat, data: u32, x: u32, s: u32)
    requires cfg.Valid() && g.Valid(cfg) && sc < 8
    ensures MethodEffect(cfg, g.(get := x, subr := s), m, sc, data) == MethodEffect(cfg, g, m, sc, data).(get := x, subr := s)
  {
    hide ObjectAddress, ReadObject, Write32;
  }

  lemma HeadSparesIgnoresGet(cfg: Config, g: Gpu, ws: seq<u32>, x: u32, s: u32, keep: iset<int>)
    requires cfg.Valid() && g.Valid(cfg) && ws != [] && CommandLength(ws) <= |ws|
    ensures HeadSpares(cfg, g.(get := x, subr := s), ws, keep) == HeadSpares(cfg, g, ws, keep)
  {
    hide DecodeHeader, ObjectAddress, ReadObject;
  }

  lemma {:induction false} EffectsIgnoreGet(cfg: Config, g: Gpu, ws: seq<u32>, x: u32, s: u32, keep: iset<int>)
    requires cfg.Valid() && g.Valid(cfg) && StraightLine(ws)
    ensures Effects(cfg, g.(get := x, subr := s), ws) == Effects(cfg, g, ws).(get := x, subr := s)
    ensures Spares(cfg, g.(get := x, subr := s), ws, keep) == Spares(cfg, g, ws, keep)
    decreases |ws|
  {
    hide HeadEffect, HeadSpares, CommandLength;
    if ws != [] {
      HeadIgnoresGet(cfg, g, ws, x, s);
      HeadSparesIgnoresGet(cfg, g, ws, x, s, keep);
      EffectsIgnoreGet(cfg, HeadEffect(cfg, g, ws), ws[CommandLength(ws)..], x, s, keep);
    }
  }

  // ---- Straight-line runs ----

  lemma {:induction false} StraightRuns(cfg: Config, base: nat, g: Gpu, ws: seq<u32>, keep: iset<int>)
    requires cfg.Valid() && g.Valid(cfg) && StraightLine(ws) && Spares(cfg, g, ws, keep)
    requires Placed(cfg, base, g.ram, g.get, ws, keep)
    ensures g.get + 4 * |ws| < TWO_32
    ensures Advance(cfg, base, g, Commands(ws)) == Effects(cfg, g, ws).(get := g.get + 4 * |ws|)
    ensures SameOn(g.ram, Effects(cfg, g, ws).ram, keep)
    decreases |ws|
  {
    hide HeadEffect, HeadSpares, CommandLength, Command1, Placed;
    PlacedFits(cfg, base, g, ws, keep);
    if ws != [] {
      var k, e := CommandLength(ws), HeadEffect(cfg, g, ws);
      HeadRuns(cfg, base, g, ws, keep);
      HeadKeeps(cfg, g, ws, keep);
      PlacedTail(cfg, base, g.ram, g.get, ws, k, keep);
      PlacedSame(cfg, base, g.ram, e.ram, g.get + 4 * k, ws[k..], keep);
      WrapSmall(g.get + 4 * k);
      var g' := e.(get := g.get + 4 * k);
      EffectsIgnoreGet(cfg, e, ws[k..], g.get + 4 * k, g.subr, keep);
      StraightRuns(cfg, base, g', ws[k..], keep);
    }
  }

  lemma PlacedFits(cfg: Config, base: nat, g: Gpu, ws: seq<u32>, keep: iset<int>)
    requires cfg.Valid() && g.Valid(cfg) && Placed(cfg, base, g.ram, g.get, ws, keep)
    ensures g.get + 4 * |ws| < TWO_32
  {
  }

  /** A well-formed straight-line buffer without fences, ending at PUT, is drained by one loop that can afford it. */
  lemma {:induction false} LoopDrains(cfg: Config, base: nat, g: Gpu, ws: seq<u32>, keep: iset<int>, budget: int)
    requires cfg.Valid() && g.Valid(cfg) && StraightLine(ws) && FenceFree(ws) && Spares(cfg, g, ws, keep)
    requires Placed(cfg, base, g.ram, g.get, ws, keep) && cfg.put == g.get + 4 * |ws| && budget >= |ws|
    ensures Loop(cfg, base, g, budget) == Effects(cfg, g, ws).(get := cfg.put)
    decreases |ws|
  {
    hide HeadEffect, HeadSpares, CommandLength, Command1, Placed;
    if ws != [] {
      var k, e := CommandLength(ws), HeadEffect(cfg, g, ws);
      HeadRuns(cfg, base, g, ws, keep);
      HeadKeeps(cfg, g, ws, keep);
      PlacedTail(cfg, base, g.ram, g.get, ws, k, keep);
      PlacedSame(cfg, base, g.ram, e.ram, g.get + 4 * k, ws[k..], keep);
      WrapSmall(g.get + 4 * k);
      EffectsIgnoreGet(cfg, e, ws[k..], g.get + 4 * k, g.subr, keep);
      LoopDrains(cfg, base, e.(get := g.get + 4 * k), ws[k..], keep, budget - k);
    }
  }

  /** The same for a whole tick: GET, DMA_GET and the status say that everything was taken. */
  lemma TickDrains(cfg: Config, p: Pusher, ws: seq<u32>, keep: iset<int>, budget: nat)
    requires cfg.Valid() && p.gpu.Valid(cfg) && Running(cfg, p)
    requires StraightLine(ws) && FenceFree(ws) && Spares(cfg, p.gpu, ws, keep) && budget >= |ws|
    requires Placed(cfg, ResolveBase(cfg, p.gpu.ram), p.gpu.ram, p.gpu.get, ws, keep)
    requires cfg.put == p.gpu.get + 4 * |ws|
    ensures var r := Tick(cfg, p, budget);
      && r.gpu == (if ws == [] then p.gpu else WriteBack(cfg, Effects(cfg, p.gpu, ws).(get := cfg.put)))
      && r.gpu.get == cfg.put && r.status == STATUS_IDLE && (ws != [] ==> r.dmaGet == cfg.put)
  {
    hide Loop, Placed, ResolveBase;
    LoopDrains(cfg, ResolveBase(cfg, p.gpu.ram), p.gpu, ws, keep, budget);
  }

  // ---- CALL, RETURN and JUMP ----

  /** A buffer with calls and jumps: plain words, one CALL of a straight-line body that ends in RETURN, or one JUMP, in the
      old or the new encoding, to where the buffer goes on. */
  datatype Item = Plain(words: seq<u32>) | Sub(target: u32, body: seq<u32>) | Hop(target: u32, early: bool)

  function JumpWord(t: u32, early: bool): int { if early then 0x2000_0000 + t else t + 1 }

  predicate WellFormed(items: seq<Item>)
    decreases |items|
  {
    items == [] || (WellFormed(items[1..]) && Encodable(items[0]))
  }

  predicate Encodable(item: Item) {
    match item
    case Plain(ws) => StraightLine(ws)
    case Sub(t, body) => t % 4 == 0 && t + 2 < TWO_32 && StraightLine(body)
    case Hop(t, early) => t % 4 == 0 && (early ==> t < 0x2000_0000)
  }

  /** Where the buffer that starts at `at` ends. */
  function End(at: nat, items: seq<Item>): nat
    decreases |items|
  {
    if items == [] then at
    else End(match items[0] case Plain(ws) => at + 4 * |ws| case Sub(_, _) => at + 4 case Hop(t, _) => t, items[1..])
  }

  /** The words an item stands for. */
  function Inlined(item: Item): seq<u32> {
    match item case Plain(ws) => ws case Sub(_, body) => body case Hop(_, _) => []
  }

  /** The buffer with every call replaced by the words it calls, and its pieces joined without jumps. */
  function Flat(items: seq<Item>): seq<u32>
    decreases |items|
  {
    if items == [] then [] else Inlined(items[0]) + Flat(items[1..])
  }

  /** The buffer and the bodies it calls, in memory; a return address is a 4-aligned one below 2^29. */
  ghost predicate Laid(cfg: Config, base: nat, ram: seq<u8>, at: nat, items: seq<Item>, keep: iset<int>)
    requires cfg.Valid() && |ram| == cfg.ramSize && WellFormed(items)
    decreases |items|
  {
    items == [] ||
    (match items[0]
     case Plain(ws) => Placed(cfg, base, ram, at, ws, keep) && Laid(cfg, base, ram, at + 4 * |ws|, items[1..], keep)
     case Sub(t, body) =>
       && at % 4 == 0 && at + 4 < 0x2000_0000
       && Placed(cfg, base, ram, at, [t + 2], keep) && Placed(cfg, base, ram, t, body + [RETURN_WORD], keep)
       && Laid(cfg, base, ram, at + 4, items[1..], keep)
     case Hop(t, early) =>
       Placed(cfg, base, ram, at, [JumpWord(t, early)], keep) && Laid(cfg, base, ram, t, items[1..], keep))
  }

  function ItemCommands(items: seq<Item>): nat
    requires WellFormed(items)
    decreases |items|
  {
    if items == [] then 0 else CommandsIn(items[0]) + ItemCommands(items[1..])
  }

  function CommandsIn(item: Item): nat
    requires Encodable(item)
  {
    match item case Plain(ws) => Commands(ws) case Sub(_, body) => Commands(body) + 2 case Hop(_, _) => 1
  }

  /** SUBROUTINE afterwards: any call clears it. */
  function SubrAfter(items: seq<Item>, s: u32): u32 {
    if exists i :: 0 <= i < |items| && items[i].Sub? then 0 else s
  }

  lemma {:induction false} LaidSame(cfg: Config, base: nat, m: seq<u8>, n: seq<u8>, at: nat, items: seq<Item>, keep: iset<int>)
    requires cfg.Valid() && |m| == cfg.ramSize && WellFormed(items)
    requires SameOn(m, n, keep) && Laid(cfg, base, m, at, items, keep)
    ensures Laid(cfg, base, n, at, items, keep)
    decreases |items|
  {
    hide SameOn, Placed;
    assert |n| == |m| by { SameSize(m, n, keep); }
    if items != [] {
      match items[0]
      case Plain(ws) =>
        PlacedSame(cfg, base, m, n, at, ws, keep);
        LaidSame(cfg, base, m, n, at + 4 * |ws|, items[1..], keep);
      case Sub(t, body) =>
        PlacedSame(cfg, base, m, n, at, [t + 2], keep);
        PlacedSame(cfg, base, m, n, t, body + [RETURN_WORD], keep);
        LaidSame(cfg, base, m, n, at + 4, items[1..], keep);
      case Hop(t, early) =>
        PlacedSame(cfg, base, m, n, at, [JumpWord(t, early)], keep);
        LaidSame(cfg, base, m, n, t, items[1..], keep);
    }
  }

  /** Concatenation of straight-line words is composition of effects. */
  lemma {:induction false} EffectsCompose(cfg: Config, g: Gpu, ws: seq<u32>, more: seq<u32>, keep: iset<int>)
    requires cfg.Valid() && g.Valid(cfg) && StraightLine(ws) && StraightLine(more)
    ensures StraightLine(ws + more)
    ensures Effects(cfg, g, ws + more) == Effects(cfg, Effects(cfg, g, ws), more)
    ensures Spares(cfg, g, ws + more, keep) == (Spares(cfg, g, ws, keep) && Spares(cfg, Effects(cfg, g, ws), more, keep))
    ensures Commands(ws + more) == Commands(ws) + Commands(more)
    decreases |ws|
  {
    hide HeadEffect, HeadSpares, DecodeHeader;
    if ws == [] {
      assert ws + more == more;
    } else {
      var k, e := CommandLength(ws), HeadEffect(cfg, g, ws);
      assert CommandLength(ws + more) == k;
      assert (ws + more)[k..] == ws[k..] + more;
      HeadPrefix(cfg, g, ws, more, keep);
      EffectsCompose(cfg, e, ws[k..], more, keep);
    }
  }

  lemma HeadPrefix(cfg: Config, g: Gpu, ws: seq<u32>, more: seq<u32>, keep: iset<int>)
    requires cfg.Valid() && g.Valid(cfg) && ws != [] && CommandLength(ws) <= |ws|
    ensures HeadEffect(cfg, g, ws + more) == HeadEffect(cfg, g, ws)
    ensures HeadSpares(cfg, g, ws + more, keep) == HeadSpares(cfg, g, ws, keep)
  {
    hide DecodeHeader, MethodEffect, NotifyEntry, NotifyWrites;
  }

  lemma {:induction false} FlatIsStraight(items: seq<Item>)
    requires WellFormed(items)
    ensures StraightLine(Flat(items))
    decreases |items|
  {
    if items != [] {
      FlatIsStraight(items[1..]);
      StraightAppend(Inlined(items[0]), Flat(items[1..]));
    }
  }

  lemma {:induction false} StraightAppend(ws: seq<u32>, more: seq<u32>)
    requires StraightLine(ws) && StraightLine(more)
    ensures StraightLine(ws + more)
    decreases |ws|
  {
    hide DecodeHeader;
    if ws == [] {
      assert ws + more == more;
    } else {
      var k := CommandLength(ws);
      assert (ws + more)[k..] == ws[k..] + more;
      StraightAppend(ws[k..], more);
    }
  }

  /** CALL, the body, RETURN: the effect of the body alone, with GET just past the CALL. */
  lemma CallRuns(cfg: Config, base: nat, g: Gpu, t: u32, body: seq<u32>, keep: iset<int>)
    requires cfg.Valid() && g.Valid(cfg) && StraightLine(body) && Spares(cfg, g, body, keep)
    requires t % 4 == 0 && t + 2 < TWO_32 && g.subr % 2 == 0 && g.get % 4 == 0 && g.get + 4 < 0x2000_0000
    requires Placed(cfg, base, g.ram, g.get, [t + 2], keep) && Placed(cfg, base, g.ram, t, body + [RETURN_WORD], keep)
    ensures Advance(cfg, base, g, Commands(body) + 2) == Effects(cfg, g, body).(get := g.get + 4, subr := 0)
    ensures SameOn(g.ram, Effects(cfg, g, body).ram, keep)
  {
    hide Commands, Effects, Spares, StraightLine, Placed, SameOn, Advance, Command1;
    var callee := g.(get := t, subr := g.get + 5);
    CallCommand(cfg, base, g, t, keep);
    AdvanceOne(cfg, base, g);
    BodyRuns(cfg, base, callee, body, g.get + 4, keep) by { EffectsIgnoreGet(cfg, g, body, t, g.get + 5, keep); }
    EffectsIgnoreGet(cfg, g, body, t, g.get + 5, keep);
    AdvanceMore(cfg, base, g, 1, Commands(body) + 1);
  }

  /** Inside a call: the body, then RETURN. */
  lemma BodyRuns(cfg: Config, base: nat, g: Gpu, body: seq<u32>, ret: u32, keep: iset<int>)
    requires cfg.Valid() && g.Valid(cfg) && StraightLine(body) && Spares(cfg, g, body, keep)
    requires g.subr == ret + 1 && ret % 4 == 0 && ret < 0x2000_0000
    requires Placed(cfg, base, g.ram, g.get, body + [RETURN_WORD], keep)
    ensures Advance(cfg, base, g, Commands(body) + 1) == Effects(cfg, g, body).(get := ret, subr := 0)
    ensures SameOn(g.ram, Effects(cfg, g, body).ram, keep)
  {
    hide Commands, Effects, Spares, StraightLine, Placed, SameOn, Advance, Command1;
    var whole := body + [RETURN_WORD];
    assert whole[..|body|] == body && whole[|body|..] == [RETURN_WORD];
    PlacedFront(cfg, base, g.ram, g.get, whole, |body|, keep);
    StraightRuns(cfg, base, g, body, keep);
    var end := Advance(cfg, base, g, Commands(body));
    PlacedTail(cfg, base, g.ram, g.get, whole, |body|, keep);
    PlacedSame(cfg, base, g.ram, end.ram, g.get + 4 * |body|, [RETURN_WORD], keep);
    ReturnCommand(cfg, base, end, ret, keep);
    AdvanceOne(cfg, base, end);
    AdvanceMore(cfg, base, g, Commands(body), 1);
  }

  lemma AdvanceOne(cfg: Config, base: nat, g: Gpu)
    requires cfg.Valid() && g.Valid(cfg) && g.get != cfg.put && Command1(cfg, base, g).Ran?
    ensures Advance(cfg, base, g, 1) == Command1(cfg, base, g).gpu
  {
    hide Command1;
    var g' := Command1(cfg, base, g).gpu;
    assert Advance(cfg, base, g', 0) == g';
  }

  lemma CallCommand(cfg: Config, base: nat, g: Gpu, t: u32, keep: iset<int>)
    requires cfg.Valid() && g.Valid(cfg) && t % 4 == 0 && t + 2 < TWO_32
    requires g.subr % 2 == 0 && g.get % 4 == 0 && g.get + 4 < 0x2000_0000
    requires Placed(cfg, base, g.ram, g.get, [t + 2], keep)
    ensures g.get != cfg.put
    ensures Command1(cfg, base, g) == Ran(g.(get := t, subr := g.get + 5), 1, false)
  {
    hide Read32, DecodeHeader, RunMethod;
    WrapSmall(base + g.get);
    WrapSmall(g.get + 4);
    assert Read32(g.ram, base + g.get + 4 * 0) == [t + 2][0];
    TargetsDecode(t / 4);
    assert 4 * (t / 4) == t;
    SavedAddress(g.get + 4);
  }

  lemma ReturnCommand(cfg: Config, base: nat, g: Gpu, ret: u32, keep: iset<int>)
    requires cfg.Valid() && g.Valid(cfg) && g.subr == ret + 1 && ret % 4 == 0 && ret < 0x2000_0000
    requires Placed(cfg, base, g.ram, g.get, [RETURN_WORD], keep)
    ensures g.get != cfg.put
    ensures Command1(cfg, base, g) == Ran(g.(get := ret, subr := 0), 1, false)
  {
    hide Read32, DecodeHeader, RunMethod;
    WrapSmall(base + g.get);
    assert Read32(g.ram, base + g.get + 4 * 0) == [RETURN_WORD][0];
    ReturnDecodes();
    SavedAddress(ret);
  }

  lemma ReturnDecodes()
    ensures DecodeHeader(RETURN_WORD) == Return
  {
  }

  /** The saved address comes back from its tagged form. */
  lemma SavedAddress(ret: u32)
    requires ret % 4 == 0 && ret < 0x2000_0000
    ensures (ret + 1) % 2 == 1 && (ret + 1) % 0x2000_0000 / 4 * 4 == ret && ret % 0x2000_0000 / 4 * 4 == ret
  {
    TaggedQuarter(ret / 4);
    assert ret % 0x2000_0000 == ret;
  }

  lemma TaggedQuarter(q: nat)
    requires q < 0x800_0000
    ensures (4 * q + 1) % 2 == 1 && (4 * q + 1) % 0x2000_0000 == 4 * q + 1 && (4 * q + 1) / 4 == q
  {
    assert 4 * q + 1 == 2 * (2 * q) + 1;
  }

  /** JUMP in either encoding goes to its target and does nothing else. */
  lemma JumpCommand(cfg: Config, base: nat, g: Gpu, t: u32, early: bool, keep: iset<int>)
    requires cfg.Valid() && g.Valid(cfg) && t % 4 == 0 && (early ==> t < 0x2000_0000)
    requires Placed(cfg, base, g.ram, g.get, [JumpWord(t, early)], keep)
    ensures g.get != cfg.put
    ensures Command1(cfg, base, g) == Ran(g.(get := t), 1, false)
    ensures !DecodeHeader(JumpWord(t, early)).Method?
  {
    hide Read32, DecodeHeader, RunMethod;
    WrapSmall(base + g.get);
    assert Read32(g.ram, base + g.get + 4 * 0) == [JumpWord(t, early)][0];
    TargetsDecode(t / 4);
    assert 4 * (t / 4) == t;
  }

  lemma JumpRuns(cfg: Config, base: nat, g: Gpu, t: u32, early: bool, keep: iset<int>)
    requires cfg.Valid() && g.Valid(cfg) && t % 4 == 0 && (early ==> t < 0x2000_0000)
    requires Placed(cfg, base, g.ram, g.get, [JumpWord(t, early)], keep)
    ensures Advance(cfg, base, g, 1) == g.(get := t)
    ensures SameOn(g.ram, g.ram, keep)
  {
    hide Command1, Placed, Advance;
    JumpCommand(cfg, base, g, t, early, keep);
    AdvanceOne(cfg, base, g);
  }

  /** A buffer with calls and jumps has the effect of its flattened words. */
  lemma {:induction false} CallsRun(cfg: Config, base: nat, g: Gpu, items: seq<Item>, keep: iset<int>)
    requires cfg.Valid() && g.Valid(cfg) && WellFormed(items) && StraightLine(Flat(items))
    requires Laid(cfg, base, g.ram, g.get, items, keep) && Spares(cfg, g, Flat(items), keep) && g.subr % 2 == 0
    ensures End(g.get, items) < TWO_32
    ensures Advance(cfg, base, g, ItemCommands(items))
         == Effects(cfg, g, Flat(items)).(get := End(g.get, items), subr := SubrAfter(items, g.subr))
    decreases |items|
  {
    hide Commands, Effects, Spares, StraightLine, Placed, SameOn, Advance;
    if items == [] {
      NothingRuns(cfg, base, g);
    } else {
      var rest, more := items[1..], Flat(items[1..]);
      FlatIsStraight(rest);
      var body, here := Inlined(items[0]), CommandsIn(items[0]);
      assert Flat(items) == body + more;
      NothingRuns(cfg, base, g);
      EffectsCompose(cfg, g, body, more, keep);
      match items[0] {
        case Plain(ws) => StraightRuns(cfg, base, g, ws, keep);
        case Sub(t, b) => CallRuns(cfg, base, g, t, b, keep);
        case Hop(t, early) => JumpRuns(cfg, base, g, t, early, keep);
      }
      var g' := Advance(cfg, base, g, here);
      LaidSame(cfg, base, g.ram, g'.ram, g'.get, rest, keep);
      EffectsIgnoreGet(cfg, Effects(cfg, g, body), more, g'.get, g'.subr, keep);
      CallsRun(cfg, base, g', rest, keep);
      AdvanceMore(cfg, base, g, here, ItemCommands(rest));
      SubrSplits(items, g.subr);
    }
  }

  lemma NothingRuns(cfg: Config, base: nat, g: Gpu)
    requires cfg.Valid() && g.Valid(cfg)
    ensures StraightLine([]) && Effects(cfg, g, []) == g && Advance(cfg, base, g, 0) == g
  {
  }

  lemma SubrSplits(items: seq<Item>, s: u32)
    requires items != []
    ensures SubrAfter(items, s) == SubrAfter(items[1..], if items[0].Sub? then 0 else s)
  {
    if i :| 0 <= i < |items[1..]| && items[1..][i].Sub? {
      assert items[i + 1].Sub?;
    }
    if i :| 1 <= i < |items| && items[i].Sub? {
      assert items[1..][i - 1].Sub?;
    }
  }

  /** CALL/RETURN is inlining and JUMP is joining: running the buffer with its calls and jumps, and running a flattened
      copy of it elsewhere in the same memory, end in the same state but for GET, which stands at the end of the
      respective buffer, and SUBROUTINE, which calls clear. */
  lemma CallIsInlining(cfg: Config, base: nat, g: Gpu, items: seq<Item>, copy: u32, keep: iset<int>)
    requires cfg.Valid() && g.Valid(cfg) && WellFormed(items) && StraightLine(Flat(items)) && g.subr % 2 == 0
    requires Laid(cfg, base, g.ram, g.get, items, keep) && Placed(cfg, base, g.ram, copy, Flat(items), keep)
    requires Spares(cfg, g, Flat(items), keep)
    ensures copy + 4 * |Flat(items)| < TWO_32
    ensures
      var called := Advance(cfg, base, g, ItemCommands(items));
      var inlined := Advance(cfg, base, g.(get := copy), Commands(Flat(items)));
      && called.get == End(g.get, items)
      && inlined.get == copy + 4 * |Flat(items)|
      && called == inlined.(get := called.get, subr := SubrAfter(items, g.subr))
  {
    hide Commands, Effects, Spares, StraightLine, Placed, SameOn, Advance, Laid, WellFormed;
    CallsRun(cfg, base, g, items, keep);
    EffectsIgnoreGet(cfg, g, Flat(items), copy, g.subr, keep);
    StraightRuns(cfg, base, g.(get := copy), Flat(items), keep);
  }
}
