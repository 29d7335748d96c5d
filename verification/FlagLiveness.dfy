/** The trace builder's backward flag-liveness pass, and what it licenses the emitted code to destroy. */
module FlagLiveness {
  import opened Eflags

  datatype Meta = Meta(tested: Mask, written: Mask, dispatch: bool, needSave: bool)

  /** A mask holding exactly one flag. */
  predicate IsFlag(f: Mask) { f != 0 && f & (f - 1) == 0 }

  function Only(flags: Mask, mask: Mask): Mask { flags & mask }

  /** `flags` with the bits of `mask` taken from `src`. */
  function Merge(flags: Mask, src: Mask, mask: Mask): Mask { (flags & !mask) | (src & mask) }

  /** Live before an instruction, from what is live after it. */
  function Flow(after: Mask, written: Mask, tested: Mask): Mask { Pass(after, written) | tested }

  function Pass(flags: Mask, written: Mask): Mask { flags & !written }

  /** Flags live before instruction i; none is live at the trace exit. */
  function LiveBefore(meta: seq<Meta>, i: nat): Mask
    requires i <= |meta|
    decreases |meta| - i
  {
    if i == |meta| then 0 else Flow(LiveBefore(meta, i + 1), meta[i].written, meta[i].tested)
  }

  predicate NeedSave(meta: seq<Meta>, i: nat)
    requires i < |meta|
  {
    meta[i].dispatch && Has(LiveBefore(meta, i), ARITH_FLAGS)
  }

  /** The decisions are those of the pass. */
  predicate Analysed(meta: seq<Meta>) {
    forall i :: 0 <= i < |meta| ==> meta[i].needSave == NeedSave(meta, i)
  }

  lemma {:induction false} LivenessIgnoresSaves(meta: seq<Meta>, meta': seq<Meta>, i: nat)
    requires |meta| == |meta'| && i <= |meta|
    requires forall k :: 0 <= k < |meta| ==> meta'[k].tested == meta[k].tested && meta'[k].written == meta[k].written
    ensures LiveBefore(meta', i) == LiveBefore(meta, i)
    decreases |meta| - i
  {
    if i < |meta| { LivenessIgnoresSaves(meta, meta', i + 1); }
  }

  /** Phase 2 of build: one backward pass that fills in `needSave`. */
  method AnalyseLiveness(meta: array<Meta>)
    modifies meta
    ensures forall i :: 0 <= i < meta.Length ==> meta[i] == old(meta[i]).(needSave := NeedSave(old(meta[..]), i))
    ensures Analysed(meta[..])
  {
    hide Flow, Has;
    var live: Mask := 0;
    var i := meta.Length;
    while i > 0
      invariant 0 <= i <= meta.Length
      invariant live == LiveBefore(old(meta[..]), i)
      invariant forall k :: 0 <= k < i ==> meta[k] == old(meta[k])
      invariant forall k :: i <= k < meta.Length ==> meta[k] == old(meta[k]).(needSave := NeedSave(old(meta[..]), k))
    {
      i := i - 1;
      var liveBefore := Flow(live, meta[i].written, meta[i].tested);
      meta[i] := meta[i].(needSave := meta[i].dispatch && Has(liveBefore, ARITH_FLAGS));
      live := liveBefore;
    }
    forall k | 0 <= k < meta.Length ensures meta[k].needSave == NeedSave(meta[..], k) {
      LivenessIgnoresSaves(old(meta[..]), meta[..], k);
    }
  }

  // ---- The pass is exact ----

  predicate NoWrite(meta: seq<Meta>, i: nat, j: nat, f: Mask)
    requires i <= j <= |meta|
  {
    forall k :: i <= k < j ==> !Has(meta[k].written, f)
  }

  /** Some instruction from i on tests f before anything writes it. */
  predicate TestedLater(meta: seq<Meta>, i: nat, f: Mask)
    requires i <= |meta|
  {
    exists j :: i <= j < |meta| && Has(meta[j].tested, f) && NoWrite(meta, i, j, f)
  }

  lemma OneFlagStep(live: Mask, written: Mask, tested: Mask, f: Mask)
    requires IsFlag(f)
    ensures Has(Flow(live, written, tested), f) <==> Has(tested, f) || (Has(live, f) && !Has(written, f))
  {
    hide IsFlag, Flow, Has, Only;
    AllOrNothing(live, f);
    AllOrNothing(written, f);
    FlowAt(live, written, tested, f);
    HasMasked(live, f);
    HasMasked(written, f);
    HasMasked(tested, f);
    HasMasked(Flow(live, written, tested), f);
    if Has(written, f) {
      GateShut(Only(live, f), Only(tested, f), f);
    } else {
      GateOpen(Only(live, f), Only(tested, f));
    }
  }

  lemma AllOrNothing(x: Mask, f: Mask)
    requires IsFlag(f)
    ensures f != 0 && (Only(x, f) == 0 || Only(x, f) == f)
  {
  }

  lemma HasMasked(x: Mask, f: Mask)
    ensures Has(x, f) <==> Only(x, f) != 0
  {
  }

  lemma FlowAt(live: Mask, written: Mask, tested: Mask, f: Mask)
    ensures Only(Flow(live, written, tested), f) == Flow(Only(live, f), Only(written, f), Only(tested, f))
  {
    hide Pass;
    UnionAt(Pass(live, written), tested, f);
    PassAt(live, written, f);
  }

  lemma UnionAt(x: Mask, y: Mask, f: Mask)
    ensures (x | y) & f == (x & f) | (y & f)
  {
  }

  lemma PassAt(x: Mask, w: Mask, f: Mask)
    ensures Pass(x, w) & f == Pass(x & f, w & f)
  {
  }

  /** No write: the flag passes. */
  lemma GateOpen(l: Mask, t: Mask)
    ensures Flow(l, 0, t) != 0 <==> t != 0 || l != 0
  {
  }

  /** A write: the flag is blocked. */
  lemma GateShut(l: Mask, t: Mask, f: Mask)
    requires l == 0 || l == f
    ensures Flow(l, f, t) == t
  {
  }

  lemma {:induction false} LivenessIsExact(meta: seq<Meta>, i: nat, f: Mask)
    requires i <= |meta| && IsFlag(f)
    ensures Has(LiveBefore(meta, i), f) <==> TestedLater(meta, i, f)
    decreases |meta| - i
  {
    hide IsFlag, Has, Flow;
    if i < |meta| {
      LivenessIsExact(meta, i + 1, f);
      OneFlagStep(LiveBefore(meta, i + 1), meta[i].written, meta[i].tested, f);
      if Has(meta[i].tested, f) {
        assert NoWrite(meta, i, i, f);
      } else {
        forall j | i + 1 <= j < |meta| ensures NoWrite(meta, i, j, f) <==> !Has(meta[i].written, f) && NoWrite(meta, i + 1, j, f) {
        }
      }
    } else {
      assert !Has(0, f) by { EmptyHasNone(f); }
    }
  }

  lemma EmptyHasNone(f: Mask)
    ensures !Has(0, f)
  {
  }

  /** A save is asked for at exactly those dispatches with some arithmetic flag that is tested at or after them before
      it is written; no other dispatch is made to lose the flags it writes. */
  lemma SavesWhereNeeded(meta: seq<Meta>, i: nat)
    requires i < |meta|
    ensures NeedSave(meta, i) <==> meta[i].dispatch && exists f: Mask :: f in {CF, PF, AF, ZF, SF, OF} && TestedLater(meta, i, f)
  {
    hide LiveBefore, TestedLater, Has;
    SixFlags(LiveBefore(meta, i));
    forall f: Mask | f in {CF, PF, AF, ZF, SF, OF} ensures Has(LiveBefore(meta, i), f) <==> TestedLater(meta, i, f) {
      LivenessIsExact(meta, i, f);
    }
  }

  lemma SixFlags(x: Mask)
    ensures Has(x, ARITH_FLAGS) <==> Has(x, CF) || Has(x, PF) || Has(x, AF) || Has(x, ZF) || Has(x, SF) || Has(x, OF)
  {
  }

  // ---- The pass is sound ----

  /** Flags and everything else an instruction may depend on. */
  datatype State<Env> = State(flags: Mask, env: Env)

  /** An instruction sees only the flags it tests and decides only the flags it writes. */
  type Semantics<!Env> = (nat, Mask, Env) -> (Mask, Env)

  function Exec<Env>(meta: seq<Meta>, i: nat, s: State<Env>, sem: Semantics<Env>): State<Env>
    requires i < |meta|
  {
    var (out, env) := sem(i, Only(s.flags, meta[i].tested), s.env);
    State(Merge(s.flags, out, meta[i].written), env)
  }

  /** The emitted code: a dispatch without a save first scrambles the arithmetic flags; one with a
      save puts the flags it found back afterwards. */
  function HostExec<Env>(meta: seq<Meta>, i: nat, s: State<Env>, sem: Semantics<Env>, noise: nat -> Mask): State<Env>
    requires i < |meta|
  {
    if !meta[i].dispatch then Exec(meta, i, s, sem)
    else if meta[i].needSave then Exec(meta, i, s, sem).(flags := s.flags)
    else Exec(meta, i, s.(flags := Merge(s.flags, noise(i), ARITH_FLAGS)), sem)
  }

  /** What the emitted code does to flags an instruction does not write: nothing without a dispatch; a saved dispatch
      leaves all flags as it found them; an unsaved one leaves the arithmetic flags as the call left them. */
  lemma HostFlags<Env>(meta: seq<Meta>, i: nat, s: State<Env>, sem: Semantics<Env>, noise: nat -> Mask, keep: Mask)
    requires i < |meta| && Only(keep, meta[i].written) == 0
    ensures var r, m := HostExec(meta, i, s, sem, noise), meta[i];
      && (!m.dispatch ==> Only(r.flags, keep) == Only(s.flags, keep))
      && (m.dispatch && m.needSave ==> r.flags == s.flags)
      && (m.dispatch && !m.needSave && Only(keep, !ARITH_FLAGS) == 0 ==> Only(r.flags, keep) == Only(noise(i), keep))
      && (m.dispatch && !m.needSave && Only(keep, ARITH_FLAGS) == 0 ==> Only(r.flags, keep) == Only(s.flags, keep))
  {
    hide Only, Merge;
    var m := meta[i];
    MergeApart(s.flags, sem(i, Only(s.flags, m.tested), s.env).0, m.written, keep);
    var t := Merge(s.flags, noise(i), ARITH_FLAGS);
    MergeApart(t, sem(i, Only(t, m.tested), s.env).0, m.written, keep);
    if Only(keep, ARITH_FLAGS) == 0 { MergeApart(s.flags, noise(i), ARITH_FLAGS, keep); }
    if Only(keep, !ARITH_FLAGS) == 0 { MergeTakes(s.flags, noise(i), ARITH_FLAGS, keep); }
  }

  lemma MergeApart(flags: Mask, src: Mask, mask: Mask, keep: Mask)
    requires Only(keep, mask) == 0
    ensures Only(Merge(flags, src, mask), keep) == Only(flags, keep)
  {
  }

  lemma MergeTakes(flags: Mask, src: Mask, mask: Mask, keep: Mask)
    requires Only(keep, !mask) == 0
    ensures Only(Merge(flags, src, mask), keep) == Only(src, keep)
  {
  }

  /** The guest's state before instruction n, and the emitted code's. */
  function Run<Env>(meta: seq<Meta>, n: nat, s: State<Env>, sem: Semantics<Env>): State<Env>
    requires n <= |meta|
  {
    if n == 0 then s else Exec(meta, n - 1, Run(meta, n - 1, s, sem), sem)
  }

  function HostRun<Env>(meta: seq<Meta>, n: nat, s: State<Env>, sem: Semantics<Env>, noise: nat -> Mask): State<Env>
    requires n <= |meta|
  {
    if n == 0 then s else HostExec(meta, n - 1, HostRun(meta, n - 1, s, sem, noise), sem, noise)
  }

  /** No saved dispatch writes a flag that is still live after it. */
  predicate SavesLoseNothing(meta: seq<Meta>) {
    forall i :: 0 <= i < |meta| && meta[i].needSave ==> !Has(meta[i].written, LiveBefore(meta, i + 1))
  }

  lemma ScrambleKeeps(h: Mask, x: Mask, live: Mask)
    requires !Has(live, ARITH_FLAGS)
    ensures Only(Merge(h, x, ARITH_FLAGS), live) == Only(h, live)
  {
  }

  lemma EffectKeeps(c: Mask, h: Mask, out: Mask, after: Mask, written: Mask, tested: Mask)
    requires Only(c, Flow(after, written, tested)) == Only(h, Flow(after, written, tested))
    ensures Only(c, tested) == Only(h, tested)
    ensures Only(Merge(c, out, written), after) == Only(Merge(h, out, written), after)
  {
  }

  lemma RestoreKeeps(c: Mask, h: Mask, out: Mask, after: Mask, written: Mask, tested: Mask)
    requires Only(c, Flow(after, written, tested)) == Only(h, Flow(after, written, tested))
    requires !Has(written, after)
    ensures Only(Merge(c, out, written), after) == Only(h, after)
  {
  }

  predicate Agree<Env(==)>(live: Mask, c: State<Env>, h: State<Env>) {
    c.env == h.env && Only(c.flags, live) == Only(h.flags, live)
  }

  lemma AgreeStep<Env>(meta: seq<Meta>, i: nat, c: State<Env>, h: State<Env>, sem: Semantics<Env>, noise: nat -> Mask)
    requires i < |meta| && Analysed(meta) && SavesLoseNothing(meta)
    requires Agree(LiveBefore(meta, i), c, h)
    ensures Only(c.flags, meta[i].tested) == Only(h.flags, meta[i].tested)
    ensures Agree(LiveBefore(meta, i + 1), Exec(meta, i, c, sem), HostExec(meta, i, h, sem, noise))
  {
    hide Only, Merge, Flow, Has;
    var after, written, tested := LiveBefore(meta, i + 1), meta[i].written, meta[i].tested;
    var live := LiveBefore(meta, i);
    var out := sem(i, Only(c.flags, tested), c.env).0;
    EffectKeeps(c.flags, h.flags, out, after, written, tested);
    if meta[i].dispatch && meta[i].needSave {
      RestoreKeeps(c.flags, h.flags, out, after, written, tested);
    } else if meta[i].dispatch {
      ScrambleKeeps(h.flags, noise(i), live);
      EffectKeeps(c.flags, Merge(h.flags, noise(i), ARITH_FLAGS), out, after, written, tested);
    }
  }

  lemma {:induction false} RunsAgree<Env>(meta: seq<Meta>, n: nat, s: State<Env>, sem: Semantics<Env>, noise: nat -> Mask)
    requires n <= |meta| && Analysed(meta) && SavesLoseNothing(meta)
    ensures Agree(LiveBefore(meta, n), Run(meta, n, s, sem), HostRun(meta, n, s, sem, noise))
  {
    hide Exec, HostExec, Analysed, SavesLoseNothing, LiveBefore;
    if n > 0 {
      RunsAgree(meta, n - 1, s, sem, noise);
      AgreeStep(meta, n - 1, Run(meta, n - 1, s, sem), HostRun(meta, n - 1, s, sem, noise), sem, noise);
    }
  }

  /** Whatever the instructions compute and whatever the scrambling leaves, every instruction tests the
      same flag values as in an undisturbed run, and everything but dead flags ends the same. */
  lemma LivenessIsSound<Env>(meta: seq<Meta>, j: nat, s: State<Env>, sem: Semantics<Env>, noise: nat -> Mask)
    requires j < |meta| && Analysed(meta) && SavesLoseNothing(meta)
    ensures Only(Run(meta, j, s, sem).flags, meta[j].tested) == Only(HostRun(meta, j, s, sem, noise).flags, meta[j].tested)
    ensures Run(meta, j + 1, s, sem).env == HostRun(meta, j + 1, s, sem, noise).env
  {
    hide Exec, HostExec, Analysed, SavesLoseNothing, LiveBefore;
    RunsAgree(meta, j, s, sem, noise);
    RunsAgree(meta, j + 1, s, sem, noise);
    AgreeStep(meta, j, Run(meta, j, s, sem), HostRun(meta, j, s, sem, noise), sem, noise);
  }

  // ---- The condition on saved dispatches is exact ----

  /** Instruction i sets every flag it writes; all others clear theirs. */
  function OnlySets(i: nat): Semantics<()> {
    (j: nat, t: Mask, e: ()) => (if j == i then 0xFFFF_FFFF else 0, ())
  }

  lemma CommonFlag(a: Mask, b: Mask) returns (f: Mask)
    requires Has(a, b)
    ensures IsFlag(f) && Has(a, f) && Has(b, f)
  {
    f := LowestFlag(a & b);
    assert (a & b) & f == f by { AllOrNothing(a & b, f); }
    InBoth(a, b, f);
  }

  lemma LowestFlag(m: Mask) returns (f: Mask)
    requires m != 0
    ensures IsFlag(f) && Has(m, f)
  {
    f := m & (0 - m);
  }

  lemma InBoth(a: Mask, b: Mask, f: Mask)
    requires f != 0 && (a & b) & f == f
    ensures Has(a, f) && Has(b, f)
  {
  }

  lemma {:induction false} AllClearBefore(meta: seq<Meta>, n: nat, i: nat)
    requires n <= i < |meta|
    ensures Run(meta, n, State(0, ()), OnlySets(i)).flags == 0
    ensures HostRun(meta, n, State(0, ()), OnlySets(i), _ => 0).flags == 0
  {
    if n > 0 { AllClearBefore(meta, n - 1, i); }
  }

  lemma {:induction false} FlagsDiffer(meta: seq<Meta>, i: nat, n: nat, f: Mask)
    requires i < n <= |meta| && meta[i].needSave && meta[i].dispatch && IsFlag(f) && Has(meta[i].written, f)
    requires NoWrite(meta, i + 1, n, f)
    ensures Has(Run(meta, n, State(0, ()), OnlySets(i)).flags, f)
    ensures !Has(HostRun(meta, n, State(0, ()), OnlySets(i), _ => 0).flags, f)
    decreases n
  {
    hide Merge, Only, Has, IsFlag;
    if n == i + 1 {
      AllClearBefore(meta, i, i);
      OnlyWritten(meta[i].written, f);
      EmptyHasNone(f);
    } else {
      FlagsDiffer(meta, i, n - 1, f);
      var c, h := Run(meta, n - 1, State(0, ()), OnlySets(i)), HostRun(meta, n - 1, State(0, ()), OnlySets(i), _ => 0);
      assert !Has(meta[n - 1].written, f);
      Unwritten(c.flags, meta[n - 1].written, f);
      Unset(h.flags, meta[n - 1].written, f);
      Unset(h.flags, ARITH_FLAGS, f);
      Unset(Merge(h.flags, 0, ARITH_FLAGS), meta[n - 1].written, f);
    }
  }

  lemma OnlyWritten(w: Mask, f: Mask)
    requires Has(w, f)
    ensures Has(Merge(0, 0xFFFF_FFFF, w), f)
  {
  }

  lemma Unwritten(c: Mask, w: Mask, f: Mask)
    requires IsFlag(f) && Has(c, f) && !Has(w, f)
    ensures Has(Merge(c, 0, w), f)
  {
  }

  lemma Unset(h: Mask, w: Mask, f: Mask)
    requires !Has(h, f)
    ensures !Has(Merge(h, 0, w), f)
  {
  }

  /** If a saved dispatch writes a flag that is live after it, some program sees the difference. */
  lemma LostWriteIsVisible(meta: seq<Meta>, i: nat) returns (j: nat)
    requires i < |meta| && Analysed(meta) && meta[i].needSave && Has(meta[i].written, LiveBefore(meta, i + 1))
    ensures j < |meta|
    ensures Only(Run(meta, j, State(0, ()), OnlySets(i)).flags, meta[j].tested)
      != Only(HostRun(meta, j, State(0, ()), OnlySets(i), _ => 0).flags, meta[j].tested)
  {
    hide Only, Has, IsFlag, LiveBefore, Run, HostRun;
    var f := CommonFlag(meta[i].written, LiveBefore(meta, i + 1));
    LivenessIsExact(meta, i + 1, f);
    j :| i + 1 <= j < |meta| && Has(meta[j].tested, f) && NoWrite(meta, i + 1, j, f);
    FlagsDiffer(meta, i, j, f);
    DifferingFlag(Run(meta, j, State(0, ()), OnlySets(i)).flags,
                  HostRun(meta, j, State(0, ()), OnlySets(i), _ => 0).flags, meta[j].tested, f);
  }

  lemma DifferingFlag(c: Mask, h: Mask, t: Mask, f: Mask)
    requires IsFlag(f) && Has(c, f) && !Has(h, f) && Has(t, f)
    ensures Only(c, t) != Only(h, t)
  {
  }

  /** ADC on memory, saved because it tests CF, followed by a test of CF: the carry it computes is lost. */
  lemma AddWithCarryLosesCarry()
    ensures var meta := [Meta(CF, ARITH_FLAGS, true, true), Meta(CF, 0, false, false)];
      && Analysed(meta) && !SavesLoseNothing(meta)
      && Only(Run(meta, 1, State(0, ()), OnlySets(0)).flags, CF) != Only(HostRun(meta, 1, State(0, ()), OnlySets(0), _ => 0).flags, CF)
  {
    var meta := [Meta(CF, ARITH_FLAGS, true, true), Meta(CF, 0, false, false)];
    assert LiveBefore(meta, 2) == 0;
    assert LiveBefore(meta, 1) == CF;
    assert LiveBefore(meta, 0) == CF;
    var env := State(0, ());
    assert Run(meta, 0, env, OnlySets(0)) == env && HostRun(meta, 0, env, OnlySets(0), _ => 0) == env;
  }
}
