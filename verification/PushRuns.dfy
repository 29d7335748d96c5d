/** Push-buffer runs: however ticks divide the work, the result is the same. */
module PushRuns {
  import opened Words
  import opened PushBuffer

  // ---- The orbit: commands one after another, until GET meets PUT or a header is out of reach ----

  function Advance(cfg: Config, base: nat, g: Gpu, n: nat): (r: Gpu)
    requires cfg.Valid() && g.Valid(cfg)
    ensures r.Valid(cfg)
    decreases n
  {
    if n == 0 || g.get == cfg.put then g
    else
      match Command1(cfg, base, g)
      case Ran(g', _, _) => Advance(cfg, base, g', n - 1)
      case _ => g
  }

  predicate Finished(cfg: Config, base: nat, g: Gpu)
    requires cfg.Valid() && g.Valid(cfg)
  {
    g.get == cfg.put || !Command1(cfg, base, g).Ran?
  }

  lemma {:induction false} AdvanceMore(cfg: Config, base: nat, g: Gpu, m: nat, n: nat)
    requires cfg.Valid() && g.Valid(cfg)
    ensures Advance(cfg, base, Advance(cfg, base, g, m), n) == Advance(cfg, base, g, m + n)
    decreases m
  {
    hide Command1;
    if m > 0 && g.get != cfg.put && Command1(cfg, base, g).Ran? {
      AdvanceMore(cfg, base, Command1(cfg, base, g).gpu, m - 1, n);
    }
  }

  // ---- The RAMFC mirror is the only byproduct of ticks ----

  predicate InSlot(cfg: Config, a: int) {
    RamfcSlot(cfg).Some? && RamfcSlot(cfg).value <= a < RamfcSlot(cfg).value + 4
  }

  predicate Avoids(cfg: Config, lo: int, n: nat) {
    forall a :: lo <= a < lo + n ==> !InSlot(cfg, a)
  }

  /** Equal but for the mirrored GET word in RAM. */
  predicate Alike(cfg: Config, g: Gpu, h: Gpu) {
    && |g.ram| == |h.ram| == cfg.ramSize
    && g.(ram := h.ram) == h
    && (forall a :: 0 <= a < cfg.ramSize && !InSlot(cfg, a) ==> g.ram[a] == h.ram[a])
  }

  /** The words of the DMA object at an instance offset are not the mirrored word. */
  predicate ObjectAvoids(cfg: Config, offset: nat) {
    cfg.attached && offset + 12 <= cfg.praminSize ==> Avoids(cfg, cfg.praminBase + offset, 12)
  }

  /** The command at GET reads nothing that ticks write, stays inside RAM, and the buffer base still resolves. */
  predicate Calm(cfg: Config, base: nat, g: Gpu)
    requires cfg.Valid() && g.Valid(cfg)
  {
    && ResolveBase(cfg, g.ram) == base
    && (g.get != cfg.put ==>
         && Command1(cfg, base, g) != Wild
         && Avoids(cfg, Wrap(base + g.get), 4)
         && (Wrap(base + g.get) + 4 <= cfg.ramSize ==>
               var c := DecodeHeader(Read32(g.ram, Wrap(base + g.get)));
               HeaderFields(Read32(g.ram, Wrap(base + g.get)));
               c.Method? && c.count > 0 ==> CalmMethod(cfg, base + Wrap(g.get + 4), g, c.m, c.subchannel)))
  }

  /** A method's data word and, for NOTIFY, its DMA object are not the mirrored word. */
  predicate CalmMethod(cfg: Config, at: nat, g: Gpu, m: nat, sc: nat)
    requires g.Valid(cfg) && sc < 8
  {
    Avoids(cfg, at, 4) && (m == NOTIFY ==> ObjectAvoids(cfg, Wrap(g.notifier[sc] as int * 16)))
  }

  ghost predicate CalmRun(cfg: Config, base: nat, g: Gpu)
    requires cfg.Valid() && g.Valid(cfg)
  {
    && ObjectAvoids(cfg, cfg.dmaInstance % 0x1_0000 * 16)
    && forall n: nat :: Calm(cfg, base, Advance(cfg, base, g, n))
  }

  lemma AlikeWord(cfg: Config, g: Gpu, h: Gpu, a: nat)
    requires Alike(cfg, g, h) && a + 4 <= cfg.ramSize && Avoids(cfg, a, 4)
    ensures Read32(g.ram, a) == Read32(h.ram, a)
  {
  }

  lemma AlikeObject(cfg: Config, g: Gpu, h: Gpu, offset: nat)
    requires cfg.Valid() && Alike(cfg, g, h) && ObjectAvoids(cfg, offset)
    ensures ReadObject(cfg, g.ram, offset) == ReadObject(cfg, h.ram, offset)
  {
    hide Read32, Alike, RamfcSlot;
    AlikeSizes(cfg, g, h);
    if cfg.attached && offset + 12 <= cfg.praminSize {
      AlikeWord(cfg, g, h, cfg.praminBase + offset);
      AlikeWord(cfg, g, h, cfg.praminBase + offset + 8);
    }
  }

  lemma AlikeSizes(cfg: Config, g: Gpu, h: Gpu)
    requires Alike(cfg, g, h)
    ensures |g.ram| == |h.ram| == cfg.ramSize && g.(ram := h.ram) == h
  {
  }

  lemma AlikeBase(cfg: Config, g: Gpu, h: Gpu)
    requires cfg.Valid() && Alike(cfg, g, h) && ObjectAvoids(cfg, cfg.dmaInstance % 0x1_0000 * 16)
    ensures ResolveBase(cfg, g.ram) == ResolveBase(cfg, h.ram)
  {
    hide ReadObject;
    AlikeObject(cfg, g, h, cfg.dmaInstance % 0x1_0000 * 16);
  }

  lemma AlikeEffect(cfg: Config, g: Gpu, h: Gpu, m: nat, sc: nat, data: u32)
    requires cfg.Valid() && g.Valid(cfg) && h.Valid(cfg) && Alike(cfg, g, h) && sc < 8
    requires m == NOTIFY ==> ObjectAvoids(cfg, Wrap(g.notifier[sc] as int * 16))
    ensures m == NOTIFY ==>
      NotifyEntry(cfg, g, sc, data) == NotifyEntry(cfg, h, sc, data) && NotifyWrites(cfg, g, sc, data) == NotifyWrites(cfg, h, sc, data)
    ensures Alike(cfg, MethodEffect(cfg, g, m, sc, data), MethodEffect(cfg, h, m, sc, data))
  {
    hide ReadObject, ObjectAddress, InSlot;
    if m == NOTIFY { AlikeObject(cfg, g, h, Wrap(g.notifier[sc] as int * 16)); }
  }

  /** The same command does the same to two states that differ in the mirrored word only. */
  lemma AlikeCommand(cfg: Config, base: nat, g: Gpu, h: Gpu)
    requires cfg.Valid() && g.Valid(cfg) && h.Valid(cfg) && Alike(cfg, g, h)
    requires Calm(cfg, base, g) && g.get != cfg.put
    ensures var a, b := Command1(cfg, base, g), Command1(cfg, base, h);
      && a != Wild
      && (a.Blocked? <==> b.Blocked?)
      && (a.Ran? ==> b.Ran? && b.words == a.words && b.last == a.last && Alike(cfg, a.gpu, b.gpu))
  {
    hide Read32, MethodEffect, NotifyEntry, NotifyWrites, DecodeHeader, ResolveBase, InSlot, ObjectAvoids, RunMethod;
    var phys := Wrap(base + g.get);
    if phys + 4 <= cfg.ramSize {
      AlikeWord(cfg, g, h, phys);
      match DecodeHeader(Read32(g.ram, phys))
      case Method(m, sc, n) =>
        HeaderFields(Read32(g.ram, phys));
        AlikeMethod(cfg, base, g.(get := Wrap(g.get + 4)), h.(get := Wrap(h.get + 4)), m, sc, n);
      case _ =>
    }
  }

  lemma AlikeMethod(cfg: Config, base: nat, g: Gpu, h: Gpu, m: nat, sc: nat, n: nat)
    requires cfg.Valid() && g.Valid(cfg) && h.Valid(cfg) && Alike(cfg, g, h) && sc < 8
    requires n > 0 ==> CalmMethod(cfg, base + g.get, g, m, sc)
    ensures var a, b := RunMethod(cfg, base, g, m, sc, n), RunMethod(cfg, base, h, m, sc, n);
      && (a.Wild? <==> b.Wild?) && !a.Blocked? && !b.Blocked?
      && (a.Ran? ==> b.Ran? && b.words == a.words && b.last == a.last && Alike(cfg, a.gpu, b.gpu))
  {
    hide Read32, MethodEffect, NotifyEntry, NotifyWrites, ObjectAvoids, UsesData, InSlot;
    if n > 0 && base + g.get + 4 <= cfg.ramSize {
      AlikeWord(cfg, g, h, base + g.get);
      var data := Read32(g.ram, base + g.get);
      AlikeEffect(cfg, g, h, m, sc, data);
    }
  }

  lemma CalmRunTail(cfg: Config, base: nat, g: Gpu, n: nat)
    requires cfg.Valid() && g.Valid(cfg) && CalmRun(cfg, base, g)
    ensures CalmRun(cfg, base, Advance(cfg, base, g, n))
    ensures Calm(cfg, base, g)
  {
    hide Calm, Command1;
    assert g == Advance(cfg, base, g, 0);
    var g' := Advance(cfg, base, g, n);
    forall k: nat ensures Calm(cfg, base, Advance(cfg, base, g', k)) {
      AdvanceMore(cfg, base, g, n, k);
      var nk := n + k;
      assert Calm(cfg, base, Advance(cfg, base, g, nk));
    }
  }

  /** One tick's loop is a stretch of the orbit. */
  lemma {:induction false} LoopFollows(cfg: Config, base: nat, g: Gpu, h: Gpu, budget: int) returns (n: nat)
    requires cfg.Valid() && g.Valid(cfg) && h.Valid(cfg) && Alike(cfg, g, h) && CalmRun(cfg, base, g)
    ensures Alike(cfg, Advance(cfg, base, g, n), Loop(cfg, base, h, budget))
    ensures g.get != cfg.put && budget > 0 && Command1(cfg, base, g).Ran? ==> n > 0
    decreases if budget < 0 then 0 else budget
  {
    hide Command1, CalmRun, Calm, Alike, ResolveBase;
    n := 0;
    AlikeSizes(cfg, g, h);
    CalmRunTail(cfg, base, g, 0);
    if g.get != cfg.put && budget > 0 {
      AlikeCommand(cfg, base, g, h);
      match Command1(cfg, base, g)
      case Ran(g', words, last) =>
        var h' := Command1(cfg, base, h).gpu;
        assert Advance(cfg, base, g, 1) == Advance(cfg, base, g', 0) == g';
        CalmRunTail(cfg, base, g, 1);
        if last {
          n := 1;
        } else {
          var k := LoopFollows(cfg, base, g', h', budget - words);
          n := k + 1;
        }
      case _ =>
    }
  }

  predicate Running(cfg: Config, p: Pusher) {
    cfg.pushEnabled && cfg.push0Enabled && p.getValid
  }

  /** The mirrored word holds GET. */
  predicate MirrorsGet(cfg: Config, g: Gpu)
    requires cfg.Valid() && g.Valid(cfg)
  {
    RamfcSlot(cfg).Some? ==> Read32(g.ram, RamfcSlot(cfg).value) == g.get
  }

  lemma WriteBackAlike(cfg: Config, g: Gpu, h: Gpu)
    requires cfg.Valid() && g.Valid(cfg) && h.Valid(cfg) && Alike(cfg, g, h)
    ensures Alike(cfg, g, WriteBack(cfg, h)) && MirrorsGet(cfg, WriteBack(cfg, h))
  {
    hide ByteOf, Word;
    if RamfcSlot(cfg).Some? {
      ReadAfterWrite(h.ram, RamfcSlot(cfg).value, h.get, RamfcSlot(cfg).value);
    }
  }

  /** A settled pusher: what every active tick leaves in the registers. */
  predicate Settled(cfg: Config, p: Pusher)
    requires cfg.Valid() && p.gpu.Valid(cfg)
  {
    MirrorsGet(cfg, p.gpu) && p.dmaGet == p.gpu.get && p.status == if p.gpu.get == cfg.put then STATUS_IDLE else 0
  }

  lemma TickFollows(cfg: Config, base: nat, g: Gpu, p: Pusher, budget: nat) returns (n: nat)
    requires cfg.Valid() && g.Valid(cfg) && p.gpu.Valid(cfg) && Running(cfg, p)
    requires Alike(cfg, g, p.gpu) && CalmRun(cfg, base, g)
    ensures var p' := Tick(cfg, p, budget);
      && Running(cfg, p') && Alike(cfg, Advance(cfg, base, g, n), p'.gpu)
      && (Settled(cfg, p) || p.gpu.get != cfg.put ==> Settled(cfg, p'))
    ensures g.get != cfg.put && budget > 0 && Command1(cfg, base, g).Ran? ==> n > 0
  {
    hide Command1, Loop, CalmRun, Alike, WriteBack, MirrorsGet, Advance;
    n := 0;
    AlikeSizes(cfg, g, p.gpu);
    CalmRunTail(cfg, base, g, 0);
    AdvanceNone(cfg, base, g);
    if p.gpu.get != cfg.put {
      AlikeBase(cfg, g, p.gpu) by { ObjectOfRun(cfg, base, g); }
      n := LoopFollows(cfg, base, g, p.gpu, budget);
      var h := Loop(cfg, base, p.gpu, budget);
      WriteBackAlike(cfg, Advance(cfg, base, g, n), h);
      WriteBackKeepsGet(cfg, h);
    }
  }

  lemma ObjectOfRun(cfg: Config, base: nat, g: Gpu)
    requires cfg.Valid() && g.Valid(cfg) && CalmRun(cfg, base, g)
    ensures ObjectAvoids(cfg, cfg.dmaInstance % 0x1_0000 * 16)
  {
  }

  lemma AdvanceNone(cfg: Config, base: nat, g: Gpu)
    requires cfg.Valid() && g.Valid(cfg)
    ensures Advance(cfg, base, g, 0) == g
  {
  }

  lemma WriteBackKeepsGet(cfg: Config, g: Gpu)
    requires cfg.Valid() && g.Valid(cfg)
    ensures WriteBack(cfg, g).get == g.get
  {
  }

  lemma {:induction false} TicksFollow(cfg: Config, base: nat, g: Gpu, p: Pusher, budgets: seq<nat>) returns (n: nat)
    requires cfg.Valid() && g.Valid(cfg) && p.gpu.Valid(cfg) && Running(cfg, p)
    requires Alike(cfg, g, p.gpu) && CalmRun(cfg, base, g)
    ensures var p' := Ticks(cfg, p, budgets);
      && Running(cfg, p') && Alike(cfg, Advance(cfg, base, g, n), p'.gpu)
      && (Settled(cfg, p) || (p.gpu.get != cfg.put && budgets != []) ==> Settled(cfg, p'))
    decreases |budgets|
  {
    hide Tick, CalmRun, Alike, Settled, Advance, Running;
    n := 0;
    AdvanceNone(cfg, base, g);
    if budgets != [] {
      var k := TickFollows(cfg, base, g, p, budgets[0]);
      CalmRunTail(cfg, base, g, k);
      var g' := Advance(cfg, base, g, k);
      var m := TicksFollow(cfg, base, g', Tick(cfg, p, budgets[0]), budgets[1..]);
      AdvanceMore(cfg, base, g, k, m);
      n := k + m;
    }
  }

  lemma AdvanceStops(cfg: Config, base: nat, g: Gpu, n: nat)
    requires cfg.Valid() && g.Valid(cfg) && Finished(cfg, base, g)
    ensures Advance(cfg, base, g, n) == g
  {
  }

  lemma AlikeFinished(cfg: Config, base: nat, g: Gpu, h: Gpu)
    requires cfg.Valid() && g.Valid(cfg) && h.Valid(cfg) && Alike(cfg, g, h) && Calm(cfg, base, g)
    requires Finished(cfg, base, h)
    ensures Finished(cfg, base, g)
  {
    hide Command1, Calm, Alike;
    AlikeSizes(cfg, g, h);
    if g.get != cfg.put { AlikeCommand(cfg, base, g, h); }
  }

  lemma SameMirror(cfg: Config, g: Gpu, h: Gpu, k: Gpu)
    requires cfg.Valid() && h.Valid(cfg) && k.Valid(cfg)
    requires Alike(cfg, g, h) && Alike(cfg, g, k) && MirrorsGet(cfg, h) && MirrorsGet(cfg, k)
    ensures h == k
  {
    hide Word;
    if RamfcSlot(cfg).Some? {
      var s := RamfcSlot(cfg).value;
      WordBytes(h.ram, s);
      WordBytes(k.ram, s);
    }
    assert h.ram == k.ram;
  }

  lemma WordBytes(m: seq<u8>, a: nat)
    requires a + 4 <= |m|
    ensures var w := Read32(m, a);
      m[a] == ByteOf(w, 0) && m[a + 1] == ByteOf(w, 1) && m[a + 2] == ByteOf(w, 2) && m[a + 3] == ByteOf(w, 3)
  {
    BytesOfWord(m[a], m[a + 1], m[a + 2], m[a + 3]);
  }

  /** However the work is divided into ticks, once it is finished the whole pusher is the same: GET,
      SUBROUTINE, reference and surface registers, notifier contexts, all of RAM, and the status. */
  lemma BudgetsDoNotMatter(cfg: Config, base: nat, p: Pusher, b1: seq<nat>, b2: seq<nat>)
    requires cfg.Valid() && p.gpu.Valid(cfg) && Running(cfg, p) && CalmRun(cfg, base, p.gpu)
    requires p.gpu.get != cfg.put && b1 != [] && b2 != []
    requires Finished(cfg, base, Ticks(cfg, p, b1).gpu) && Finished(cfg, base, Ticks(cfg, p, b2).gpu)
    ensures Ticks(cfg, p, b1) == Ticks(cfg, p, b2)
  {
    hide Ticks, CalmRun, Advance, Alike, Finished;
    var p1, p2 := Ticks(cfg, p, b1), Ticks(cfg, p, b2);
    AlikeItself(cfg, p.gpu);
    var n1 := TicksFollow(cfg, base, p.gpu, p, b1);
    var n2 := TicksFollow(cfg, base, p.gpu, p, b2);
    var g1, g2 := Advance(cfg, base, p.gpu, n1), Advance(cfg, base, p.gpu, n2);
    CalmRunTail(cfg, base, p.gpu, n1);
    CalmRunTail(cfg, base, p.gpu, n2);
    CalmRunTail(cfg, base, g1, 0);
    CalmRunTail(cfg, base, g2, 0);
    AlikeFinished(cfg, base, g1, p1.gpu);
    AlikeFinished(cfg, base, g2, p2.gpu);
    if n1 <= n2 {
      AdvanceMore(cfg, base, p.gpu, n1, n2 - n1);
      AdvanceStops(cfg, base, g1, n2 - n1);
    } else {
      AdvanceMore(cfg, base, p.gpu, n2, n1 - n2);
      AdvanceStops(cfg, base, g2, n1 - n2);
    }
    SameMirror(cfg, g1, p1.gpu, p2.gpu);
  }

  /** Without instance memory in RAM there is no mirrored word, and every run that stays inside RAM is calm. */
  lemma DetachedIsCalm(cfg: Config, base: nat, g: Gpu)
    requires cfg.Valid() && g.Valid(cfg) && !cfg.attached && ResolveBase(cfg, g.ram) == base
    requires forall n: nat :: Command1(cfg, base, Advance(cfg, base, g, n)) != Wild
    ensures CalmRun(cfg, base, g)
  {
    hide Command1, Advance;
    forall n: nat ensures Calm(cfg, base, Advance(cfg, base, g, n)) {
      assert Command1(cfg, base, Advance(cfg, base, g, n)) != Wild;
    }
  }

  lemma AlikeItself(cfg: Config, g: Gpu)
    requires g.Valid(cfg)
    ensures Alike(cfg, g, g)
  {
  }
}
