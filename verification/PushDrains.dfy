/** Which layouts make a push buffer independent of budgets, and that any ticks then drain it, calls included. */
module PushDrains {
  import opened Words
  import opened PushBuffer
  import opened PushRuns
  import opened PushPrograms

  // ---- The layout ----

  /** The buffer's own DMA object, if it lies in RAM, is among the protected bytes. */
  ghost predicate BaseKept(cfg: Config, keep: iset<int>) {
    var offset := cfg.dmaInstance % 0x1_0000 * 16;
    cfg.attached && offset + 12 <= cfg.praminSize ==>
      forall a :: cfg.praminBase + offset <= a < cfg.praminBase + offset + 12 ==> a in keep
  }

  /** The mirrored GET word is not among them. */
  ghost predicate MirrorApart(cfg: Config, keep: iset<int>) {
    forall a :: a in keep ==> !InSlot(cfg, a)
  }

  /** The DMA object a NOTIFY at the head consults is not the mirrored word either. */
  predicate HeadApart(cfg: Config, g: Gpu, ws: seq<u32>)
    requires cfg.Valid() && g.Valid(cfg) && ws != [] && CommandLength(ws) <= |ws|
  {
    match DecodeHeader(ws[0])
    case Method(m, sc, n) => m == NOTIFY && n > 0 ==> ObjectAvoids(cfg, Wrap(g.notifier[sc] as int * 16))
    case _ => true
  }

  predicate ObjectsApart(cfg: Config, g: Gpu, ws: seq<u32>)
    requires cfg.Valid() && g.Valid(cfg) && StraightLine(ws)
    decreases |ws|
  {
    ws == [] || (HeadApart(cfg, g, ws) && ObjectsApart(cfg, HeadEffect(cfg, g, ws), ws[CommandLength(ws)..]))
  }

  /** Everything about a state but where GET stands. */
  ghost predicate Suits(cfg: Config, base: nat, g: Gpu, keep: iset<int>)
    requires cfg.Valid() && g.Valid(cfg)
  {
    BaseKept(cfg, keep) && MirrorApart(cfg, keep) && ResolveBase(cfg, g.ram) == base
  }

  lemma BaseStays(cfg: Config, base: nat, g: Gpu, h: Gpu, keep: iset<int>)
    requires cfg.Valid() && g.Valid(cfg) && h.Valid(cfg) && Suits(cfg, base, g, keep) && SameOn(g.ram, h.ram, keep)
    ensures Suits(cfg, base, h, keep)
  {
    hide Word, ObjectAddress;
    var offset := cfg.dmaInstance % 0x1_0000 * 16;
    if cfg.attached && offset + 12 <= cfg.praminSize {
      var at := cfg.praminBase + offset;
      assert Read32(g.ram, at) == Read32(h.ram, at) && Read32(g.ram, at + 8) == Read32(h.ram, at + 8);
    }
  }

  lemma BaseObjectApart(cfg: Config, keep: iset<int>)
    requires BaseKept(cfg, keep) && MirrorApart(cfg, keep)
    ensures ObjectAvoids(cfg, cfg.dmaInstance % 0x1_0000 * 16)
  {
    hide InSlot;
  }

  lemma KeptAvoids(cfg: Config, lo: int, n: nat, keep: iset<int>)
    requires MirrorApart(cfg, keep) && forall a :: lo <= a < lo + n ==> a in keep
    ensures Avoids(cfg, lo, n)
  {
    hide InSlot;
  }

  // ---- Calm commands ----

  lemma HeadCalm(cfg: Config, base: nat, g: Gpu, ws: seq<u32>, keep: iset<int>)
    requires cfg.Valid() && g.Valid(cfg) && ws != [] && StraightLine(ws) && HeadSpares(cfg, g, ws, keep)
    requires Placed(cfg, base, g.ram, g.get, ws, keep) && Suits(cfg, base, g, keep) && HeadApart(cfg, g, ws)
    ensures Calm(cfg, base, g)
  {
    hide Command1, DecodeHeader, Read32, Avoids, ResolveBase, ObjectAvoids, HeadEffect, MirrorApart;
    HeadRuns(cfg, base, g, ws, keep);
    WrapSmall(base + g.get);
    WrapSmall(g.get + 4);
    assert Read32(g.ram, base + g.get + 4 * 0) == ws[0];
    KeptAvoids(cfg, base + g.get, 4, keep);
    HeaderFields(ws[0]);
    var c := DecodeHeader(ws[0]);
    if c.Method? && c.count > 0 {
      KeptAvoids(cfg, base + g.get + 4, 4, keep);
    }
  }

  /** A command that is no method is calm wherever it is placed. */
  lemma PlainCalm(cfg: Config, base: nat, g: Gpu, w: u32, keep: iset<int>)
    requires cfg.Valid() && g.Valid(cfg) && Placed(cfg, base, g.ram, g.get, [w], keep) && Suits(cfg, base, g, keep)
    requires !DecodeHeader(w).Method? && Command1(cfg, base, g).Ran?
    ensures Calm(cfg, base, g)
  {
    hide Command1, DecodeHeader, Read32, Avoids, ResolveBase, MirrorApart;
    WrapSmall(base + g.get);
    assert Read32(g.ram, base + g.get + 4 * 0) == [w][0];
    KeptAvoids(cfg, base + g.get, 4, keep);
  }

  // ---- Calm stretches ----

  ghost predicate CalmFor(cfg: Config, base: nat, g: Gpu, n: nat)
    requires cfg.Valid() && g.Valid(cfg)
  {
    forall k: nat :: k < n ==> Calm(cfg, base, Advance(cfg, base, g, k))
  }

  lemma CalmJoins(cfg: Config, base: nat, g: Gpu, m: nat, n: nat)
    requires cfg.Valid() && g.Valid(cfg) && CalmFor(cfg, base, g, m) && CalmFor(cfg, base, Advance(cfg, base, g, m), n)
    ensures CalmFor(cfg, base, g, m + n)
  {
    hide Calm, Advance;
    forall k: nat | k < m + n ensures Calm(cfg, base, Advance(cfg, base, g, k)) {
      if k >= m {
        var j: nat := k - m;
        AdvanceMore(cfg, base, g, m, j);
      }
    }
  }

  lemma CalmOnce(cfg: Config, base: nat, g: Gpu)
    requires cfg.Valid() && g.Valid(cfg) && Calm(cfg, base, g)
    ensures CalmFor(cfg, base, g, 1)
  {
    hide Calm, Command1;
  }

  lemma {:induction false} StraightCalm(cfg: Config, base: nat, g: Gpu, ws: seq<u32>, keep: iset<int>)
    requires cfg.Valid() && g.Valid(cfg) && StraightLine(ws) && Spares(cfg, g, ws, keep) && ObjectsApart(cfg, g, ws)
    requires Placed(cfg, base, g.ram, g.get, ws, keep) && Suits(cfg, base, g, keep)
    ensures CalmFor(cfg, base, g, Commands(ws))
    decreases |ws|
  {
    hide HeadEffect, HeadSpares, HeadApart, CommandLength, Command1, Placed, Calm, Suits, Advance;
    if ws != [] {
      var k, e := CommandLength(ws), HeadEffect(cfg, g, ws);
      HeadCalm(cfg, base, g, ws, keep);
      CalmOnce(cfg, base, g);
      HeadRuns(cfg, base, g, ws, keep);
      AdvanceOne(cfg, base, g);
      HeadKeeps(cfg, g, ws, keep);
      PlacedTail(cfg, base, g.ram, g.get, ws, k, keep);
      PlacedSame(cfg, base, g.ram, e.ram, g.get + 4 * k, ws[k..], keep);
      PlacedFits(cfg, base, g, ws, keep);
      WrapSmall(g.get + 4 * k);
      var g' := e.(get := g.get + 4 * k);
      EffectsIgnoreGet(cfg, e, ws[k..], g'.get, g'.subr, keep);
      ApartIgnoresGet(cfg, e, ws[k..], g'.get, g'.subr);
      BaseStays(cfg, base, g, g', keep);
      StraightCalm(cfg, base, g', ws[k..], keep);
      CalmJoins(cfg, base, g, 1, Commands(ws[k..]));
    }
  }

  lemma {:induction false} ApartIgnoresGet(cfg: Config, g: Gpu, ws: seq<u32>, x: u32, s: u32)
    requires cfg.Valid() && g.Valid(cfg) && StraightLine(ws)
    ensures ObjectsApart(cfg, g.(get := x, subr := s), ws) == ObjectsApart(cfg, g, ws)
    decreases |ws|
  {
    hide HeadEffect, CommandLength, DecodeHeader, ObjectAvoids;
    if ws != [] {
      HeadIgnoresGet(cfg, g, ws, x, s);
      ApartIgnoresGet(cfg, HeadEffect(cfg, g, ws), ws[CommandLength(ws)..], x, s);
    }
  }

  lemma {:induction false} ApartComposes(cfg: Config, g: Gpu, ws: seq<u32>, more: seq<u32>)
    requires cfg.Valid() && g.Valid(cfg) && StraightLine(ws) && StraightLine(more) && StraightLine(ws + more)
    requires ObjectsApart(cfg, g, ws + more)
    ensures ObjectsApart(cfg, g, ws) && ObjectsApart(cfg, Effects(cfg, g, ws), more)
    decreases |ws|
  {
    hide HeadEffect, DecodeHeader, ObjectAvoids;
    if ws == [] {
      assert ws + more == more;
    } else {
      var k := CommandLength(ws);
      assert CommandLength(ws + more) == k;
      assert (ws + more)[k..] == ws[k..] + more;
      HeadPrefix(cfg, g, ws, more, iset{});
      ApartComposes(cfg, HeadEffect(cfg, g, ws), ws[k..], more);
    }
  }

  lemma CallCalm(cfg: Config, base: nat, g: Gpu, t: u32, body: seq<u32>, keep: iset<int>)
    requires cfg.Valid() && g.Valid(cfg) && StraightLine(body) && Spares(cfg, g, body, keep) && ObjectsApart(cfg, g, body)
    requires t % 4 == 0 && t + 2 < TWO_32 && g.subr % 2 == 0 && g.get % 4 == 0 && g.get + 4 < 0x2000_0000
    requires Placed(cfg, base, g.ram, g.get, [t + 2], keep) && Placed(cfg, base, g.ram, t, body + [RETURN_WORD], keep)
    requires Suits(cfg, base, g, keep)
    ensures CalmFor(cfg, base, g, Commands(body) + 2)
  {
    hide Commands, Effects, Spares, StraightLine, Placed, SameOn, Advance, Command1, Calm, CalmFor, ObjectsApart, Suits, DecodeHeader;
    var callee := g.(get := t, subr := g.get + 5);
    CallCommand(cfg, base, g, t, keep);
    NoMethods(t);
    PlainCalm(cfg, base, g, t + 2, keep);
    CalmOnce(cfg, base, g);
    AdvanceOne(cfg, base, g);
    SameBytes(g.ram, keep);
    BaseStays(cfg, base, g, callee, keep);
    EffectsIgnoreGet(cfg, g, body, t, g.get + 5, keep);
    ApartIgnoresGet(cfg, g, body, t, g.get + 5);
    BodyCalm(cfg, base, callee, body, g.get + 4, keep);
    CalmJoins(cfg, base, g, 1, Commands(body) + 1);
  }

  lemma NoMethods(t: u32)
    requires t % 4 == 0 && t + 2 < TWO_32
    ensures !DecodeHeader(t + 2).Method? && !DecodeHeader(RETURN_WORD).Method?
  {
    TargetsDecode(t / 4);
    assert 4 * (t / 4) == t;
  }

  lemma SameBytes(m: seq<u8>, keep: iset<int>)
    ensures SameOn(m, m, keep)
  {
  }

  lemma BodyCalm(cfg: Config, base: nat, g: Gpu, body: seq<u32>, ret: u32, keep: iset<int>)
    requires cfg.Valid() && g.Valid(cfg) && StraightLine(body) && Spares(cfg, g, body, keep) && ObjectsApart(cfg, g, body)
    requires g.subr == ret + 1 && ret % 4 == 0 && ret < 0x2000_0000
    requires Placed(cfg, base, g.ram, g.get, body + [RETURN_WORD], keep) && Suits(cfg, base, g, keep)
    ensures CalmFor(cfg, base, g, Commands(body) + 1)
  {
    hide Commands, Effects, Spares, StraightLine, Placed, SameOn, Advance, Command1, Calm, CalmFor, ObjectsApart, Suits, DecodeHeader;
    var whole := body + [RETURN_WORD];
    assert whole[..|body|] == body && whole[|body|..] == [RETURN_WORD];
    PlacedFront(cfg, base, g.ram, g.get, whole, |body|, keep);
    StraightCalm(cfg, base, g, body, keep);
    StraightRuns(cfg, base, g, body, keep);
    var end := Advance(cfg, base, g, Commands(body));
    PlacedTail(cfg, base, g.ram, g.get, whole, |body|, keep);
    PlacedSame(cfg, base, g.ram, end.ram, g.get + 4 * |body|, [RETURN_WORD], keep);
    BaseStays(cfg, base, g, end, keep);
    ReturnCommand(cfg, base, end, ret, keep);
    NoMethods(0);
    PlainCalm(cfg, base, end, RETURN_WORD, keep);
    CalmOnce(cfg, base, end);
    CalmJoins(cfg, base, g, Commands(body), 1);
  }

  lemma JumpCalm(cfg: Config, base: nat, g: Gpu, t: u32, early: bool, keep: iset<int>)
    requires cfg.Valid() && g.Valid(cfg) && t % 4 == 0 && (early ==> t < 0x2000_0000)
    requires Placed(cfg, base, g.ram, g.get, [JumpWord(t, early)], keep) && Suits(cfg, base, g, keep)
    ensures CalmFor(cfg, base, g, 1)
  {
    hide Placed, Advance, Command1, Calm, CalmFor, Suits, DecodeHeader;
    JumpCommand(cfg, base, g, t, early, keep);
    PlainCalm(cfg, base, g, JumpWord(t, early), keep);
    CalmOnce(cfg, base, g);
  }

  /** A laid-out buffer with calls and jumps is calm up to its end. */
  lemma {:induction false} ItemsCalm(cfg: Config, base: nat, g: Gpu, items: seq<Item>, keep: iset<int>)
    requires cfg.Valid() && g.Valid(cfg) && WellFormed(items) && StraightLine(Flat(items)) && g.subr % 2 == 0
    requires Laid(cfg, base, g.ram, g.get, items, keep) && Spares(cfg, g, Flat(items), keep)
    requires ObjectsApart(cfg, g, Flat(items)) && Suits(cfg, base, g, keep)
    ensures CalmFor(cfg, base, g, ItemCommands(items))
    decreases |items|
  {
    hide Commands, Effects, Spares, StraightLine, Placed, SameOn, Advance, Calm, CalmFor, ObjectsApart, Suits;
    if items == [] {
      NothingCalm(cfg, base, g);
    } else {
      var rest, more := items[1..], Flat(items[1..]);
      FlatIsStraight(rest);
      var body, here := Inlined(items[0]), CommandsIn(items[0]);
      assert Flat(items) == body + more;
      NothingRuns(cfg, base, g);
      EffectsCompose(cfg, g, body, more, keep);
      ApartComposes(cfg, g, body, more);
      match items[0] {
        case Plain(ws) => StraightCalm(cfg, base, g, ws, keep); StraightRuns(cfg, base, g, ws, keep);
        case Sub(t, b) => CallCalm(cfg, base, g, t, b, keep); CallRuns(cfg, base, g, t, b, keep);
        case Hop(t, early) => JumpCalm(cfg, base, g, t, early, keep); JumpRuns(cfg, base, g, t, early, keep);
      }
      var g' := Advance(cfg, base, g, here);
      LaidSame(cfg, base, g.ram, g'.ram, g'.get, rest, keep);
      BaseStays(cfg, base, g, g', keep);
      EffectsIgnoreGet(cfg, Effects(cfg, g, body), more, g'.get, g'.subr, keep);
      ApartIgnoresGet(cfg, Effects(cfg, g, body), more, g'.get, g'.subr);
      ItemsCalm(cfg, base, g', rest, keep);
      CalmJoins(cfg, base, g, here, ItemCommands(rest));
    }
  }

  lemma NothingCalm(cfg: Config, base: nat, g: Gpu)
    requires cfg.Valid() && g.Valid(cfg)
    ensures CalmFor(cfg, base, g, 0)
  {
  }

  /** A program ready to run: laid out, well formed, its effects apart from what it reads, PUT at its end. */
  ghost predicate Prepared(cfg: Config, base: nat, g: Gpu, items: seq<Item>, keep: iset<int>)
    requires cfg.Valid() && g.Valid(cfg)
  {
    && WellFormed(items) && StraightLine(Flat(items)) && g.subr % 2 == 0
    && Laid(cfg, base, g.ram, g.get, items, keep) && Spares(cfg, g, Flat(items), keep)
    && ObjectsApart(cfg, g, Flat(items)) && Suits(cfg, base, g, keep)
    && cfg.put == End(g.get, items)
  }

  /** What a prepared program leaves: the effect of its flattened words, GET at PUT. */
  function Drained(cfg: Config, g: Gpu, items: seq<Item>): (r: Gpu)
    requires cfg.Valid() && g.Valid(cfg) && StraightLine(Flat(items))
    ensures r.Valid(cfg)
  {
    Effects(cfg, g, Flat(items)).(get := cfg.put, subr := SubrAfter(items, g.subr))
  }

  /** The static layout gives the condition under which budgets do not matter. */
  lemma PreparedIsCalm(cfg: Config, base: nat, g: Gpu, items: seq<Item>, keep: iset<int>)
    requires cfg.Valid() && g.Valid(cfg) && Prepared(cfg, base, g, items, keep)
    ensures CalmRun(cfg, base, g)
    ensures Advance(cfg, base, g, ItemCommands(items)) == Drained(cfg, g, items)
  {
    hide Calm, Advance, Suits, Laid, WellFormed, StraightLine, Spares, ObjectsApart, Effects;
    var n := ItemCommands(items);
    CallsRun(cfg, base, g, items, keep);
    ItemsCalm(cfg, base, g, items, keep);
    var end := Advance(cfg, base, g, n);
    EndIsCalm(cfg, base, g, items, keep);
    forall k: nat ensures Calm(cfg, base, Advance(cfg, base, g, k)) {
      if k >= n {
        AdvanceMore(cfg, base, g, n, k - n);
        AdvanceStops(cfg, base, end, k - n);
      }
    }
    BaseObjectApart(cfg, keep) by { SuitsParts(cfg, base, g, keep); }
  }

  lemma SuitsParts(cfg: Config, base: nat, g: Gpu, keep: iset<int>)
    requires cfg.Valid() && g.Valid(cfg) && Suits(cfg, base, g, keep)
    ensures BaseKept(cfg, keep) && MirrorApart(cfg, keep)
  {
  }

  lemma EndIsCalm(cfg: Config, base: nat, g: Gpu, items: seq<Item>, keep: iset<int>)
    requires cfg.Valid() && g.Valid(cfg) && Prepared(cfg, base, g, items, keep)
    requires Advance(cfg, base, g, ItemCommands(items)) == Drained(cfg, g, items)
    ensures Calm(cfg, base, Advance(cfg, base, g, ItemCommands(items)))
  {
    hide Advance, Suits, Laid, WellFormed, StraightLine, Spares, ObjectsApart, Effects, Command1, ResolveBase;
    var end := Drained(cfg, g, items);
    EffectsKeep(cfg, g, Flat(items), keep);
    BaseStays(cfg, base, g, end, keep);
    assert ResolveBase(cfg, end.ram) == base by { BaseOf(cfg, base, end, keep); }
  }

  lemma BaseOf(cfg: Config, base: nat, g: Gpu, keep: iset<int>)
    requires cfg.Valid() && g.Valid(cfg) && Suits(cfg, base, g, keep)
    ensures ResolveBase(cfg, g.ram) == base
  {
  }

  lemma {:induction false} EffectsKeep(cfg: Config, g: Gpu, ws: seq<u32>, keep: iset<int>)
    requires cfg.Valid() && g.Valid(cfg) && StraightLine(ws) && Spares(cfg, g, ws, keep)
    ensures SameOn(g.ram, Effects(cfg, g, ws).ram, keep)
    decreases |ws|
  {
    hide HeadEffect, HeadSpares, CommandLength;
    if ws != [] {
      HeadKeeps(cfg, g, ws, keep);
      EffectsKeep(cfg, HeadEffect(cfg, g, ws), ws[CommandLength(ws)..], keep);
    }
  }

  // ---- Draining ----

  lemma StuckStays(cfg: Config, base: nat, g: Gpu, n: nat)
    requires cfg.Valid() && g.Valid(cfg) && Advance(cfg, base, g, n).get == cfg.put && g.get != cfg.put
    ensures n > 0 && Command1(cfg, base, g).Ran?
  {
    hide Command1;
  }

  /** As many ticks as commands, each with any positive budget, run to the end. */
  lemma {:induction false} TicksFinish(cfg: Config, base: nat, g: Gpu, p: Pusher, budgets: seq<nat>, n: nat)
    requires cfg.Valid() && g.Valid(cfg) && p.gpu.Valid(cfg) && Running(cfg, p) && Alike(cfg, g, p.gpu)
    requires CalmRun(cfg, base, g) && Advance(cfg, base, g, n).get == cfg.put
    requires |budgets| >= n && forall i :: 0 <= i < |budgets| ==> budgets[i] > 0
    ensures Alike(cfg, Advance(cfg, base, g, n), Ticks(cfg, p, budgets).gpu)
    decreases |budgets|
  {
    hide Tick, CalmRun, Alike, Settled, Advance, Running, Command1;
    if g.get == cfg.put {
      var k := TicksFollow(cfg, base, g, p, budgets);
      AdvanceStops(cfg, base, g, k);
      AdvanceStops(cfg, base, g, n);
    } else {
      StuckStays(cfg, base, g, n);
      var k := TickFollows(cfg, base, g, p, budgets[0]);
      CalmRunTail(cfg, base, g, k);
      var m := Remaining(cfg, base, g, n, k);
      hide Ticks;
      TicksFinish(cfg, base, Advance(cfg, base, g, k), Tick(cfg, p, budgets[0]), budgets[1..], m);
      TicksStep(cfg, p, budgets);
    }
  }

  lemma TicksStep(cfg: Config, p: Pusher, budgets: seq<nat>)
    requires cfg.Valid() && p.gpu.Valid(cfg) && budgets != []
    ensures Ticks(cfg, p, budgets) == Ticks(cfg, Tick(cfg, p, budgets[0]), budgets[1..])
  {
    hide Tick;
  }

  /** After k commands fewer than n remain. */
  lemma Remaining(cfg: Config, base: nat, g: Gpu, n: nat, k: nat) returns (m: nat)
    requires cfg.Valid() && g.Valid(cfg) && Advance(cfg, base, g, n).get == cfg.put && k > 0 && n > 0
    ensures m < n && Advance(cfg, base, Advance(cfg, base, g, k), m) == Advance(cfg, base, g, n)
  {
    hide Advance, Command1;
    if k <= n {
      AdvanceMore(cfg, base, g, k, n - k);
      m := n - k;
    } else {
      AdvanceMore(cfg, base, g, n, k - n);
      AdvanceStops(cfg, base, Advance(cfg, base, g, n), k - n);
      AdvanceNone(cfg, base, Advance(cfg, base, g, k));
      m := 0;
    }
  }

  /** The pusher once it has been switched on: before its first tick with data it takes GET from DMA_GET. */
  function Woken(p: Pusher): Pusher {
    if p.getValid then p else p.(gpu := p.gpu.(get := p.dmaGet), getValid := true)
  }

  lemma FirstTick(cfg: Config, p: Pusher, budget: nat)
    requires cfg.Valid() && p.gpu.Valid(cfg) && cfg.put != 0
    ensures cfg.pushEnabled && cfg.push0Enabled ==> Tick(cfg, p, budget) == Tick(cfg, Woken(p), budget)
  {
    hide Loop, ResolveBase, WriteBack;
  }

  /** Switched off, or never started and with PUT still zero, a tick does nothing. */
  lemma Dormant(cfg: Config, p: Pusher, budget: nat)
    requires cfg.Valid() && p.gpu.Valid(cfg)
    requires !cfg.pushEnabled || !cfg.push0Enabled || (!p.getValid && cfg.put == 0)
    ensures Tick(cfg, p, budget) == p
  {
    hide Loop, ResolveBase, WriteBack;
  }

  /** Any ticks with positive budgets, as many as there are commands, drain a prepared buffer, calls, jumps, fences and
      all: GET, DMA_GET and the mirrored word stand at PUT, the pusher is idle, and everything else is the effect of the
      flattened words. */
  lemma TicksDrain(cfg: Config, base: nat, p: Pusher, items: seq<Item>, keep: iset<int>, budgets: seq<nat>)
    requires cfg.Valid() && p.gpu.Valid(cfg) && cfg.pushEnabled && cfg.push0Enabled && (p.getValid || cfg.put != 0)
    requires Prepared(cfg, base, Woken(p).gpu, items, keep) && Woken(p).gpu.get != cfg.put
    requires |budgets| >= ItemCommands(items) && forall i :: 0 <= i < |budgets| ==> budgets[i] > 0
    ensures var r := Ticks(cfg, p, budgets);
      && r.gpu.get == cfg.put && r.dmaGet == cfg.put && r.status == 0x10
      && Alike(cfg, Drained(cfg, Woken(p).gpu, items), r.gpu) && MirrorsGet(cfg, r.gpu)
  {
    hide Ticks, Tick, CalmRun, Advance, Alike, MirrorsGet, WellFormed, Laid, Spares, ObjectsApart, Suits, StraightLine;
    hide Effects, ItemCommands;
    var w := Woken(p);
    PreparedIsCalm(cfg, base, w.gpu, items, keep);
    AlikeItself(cfg, w.gpu);
    assert Advance(cfg, base, w.gpu, ItemCommands(items)).get == cfg.put;
    StuckStays(cfg, base, w.gpu, ItemCommands(items));
    if !p.getValid { FirstTick(cfg, p, budgets[0]); }
    TicksStep(cfg, p, budgets);
    TicksStep(cfg, w, budgets);
    TicksFinish(cfg, base, w.gpu, w, budgets, ItemCommands(items));
    var k := TicksFollow(cfg, base, w.gpu, w, budgets);
    AlikeSizes(cfg, Drained(cfg, w.gpu, items), Ticks(cfg, w, budgets).gpu);
  }
}
