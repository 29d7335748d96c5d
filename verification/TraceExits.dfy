/** Every link slot, in every reachable state, is an exit of the code that was emitted for its trace. */
module TraceExits {
  import opened Words
  import opened TraceState
  import opened TraceLinking

  /** The trace came out of emission c: its link slots are the last two exits (or all of fewer), in order, each at its
      own place and for its own guest EIP. */
  predicate Emits(t: Trace, c: Compiled) {
    && t.size == c.size
    && |t.links| == (if |c.exits| < 2 then |c.exits| else 2)
    && forall j :: 0 <= j < |t.links| ==>
         var e := c.exits[|c.exits| - |t.links| + j];
         t.links[j].site == t.host + e.offset && t.links[j].target == e.target
  }

  /** An exit goes to its cold stub, the bytes behind its rel32 field, or to the code of a valid trace for the guest EIP
      it was emitted for. */
  ghost predicate Leads(s: State, l: Link, e: Exit, host: nat) {
    && l.site == host + e.offset && l.target == e.target
    && if l.linked then exists b :: 0 <= b < |s.arena| && s.arena[b].valid && s.arena[b].eip == e.target && s.arena[b].host == l.dest
       else l.dest == host + e.offset + 4
  }

  /** Some step of the run supplied the code of this trace, for its EIP. */
  predicate FromRun(t: Trace, evs: seq<Event>) {
    exists k :: 0 <= k < |evs| && Supplies(evs[k], t)
  }

  predicate Supplies(ev: Event, t: Trace) {
    ev.Step? && ev.eip == t.eip && ev.code.Some? && Emits(t, ev.code.value)
  }

  /** What linking and invalidation leave alone. */
  predicate SameExits(t: Trace, t': Trace) {
    && t'.eip == t.eip && t'.host == t.host && t'.size == t.size && |t'.links| == |t.links|
    && forall j :: 0 <= j < |t.links| ==> t'.links[j].site == t.links[j].site && t'.links[j].target == t.links[j].target
  }

  predicate AllSame(s: State, s': State) {
    |s'.arena| >= |s.arena| && forall i :: 0 <= i < |s.arena| ==> SameExits(s.arena[i], s'.arena[i])
  }

  lemma LinkBothKeepsExits(s: State, t: nat, prev: int)
    requires Sized(s) && t < |s.arena|
    ensures AllSame(s, LinkBoth(s, t, prev)) && |LinkBoth(s, t, prev).arena| == |s.arena|
  {
    hide SlotOf;
  }

  lemma FreshExits(s: State, eip: u32, c: Compiled)
    requires Build(s, eip, c).1
    ensures var s' := Build(s, eip, c).0;
      AllSame(s, s') && s'.arena[|s.arena|].eip == eip && Emits(s'.arena[|s.arena|], c)
  {
    hide Round16;
  }

  /** After one event every trace is one from before, or was supplied by it. */
  lemma StepExits(s: State, ev: Event)
    requires Sized(s) && WellFormed(ev)
    ensures var s' := Apply(s, ev);
      forall i :: 0 <= i < |s'.arena| ==> (i < |s.arena| && SameExits(s.arena[i], s'.arena[i])) || Supplies(ev, s'.arena[i])
  {
    hide SlotOf, Emits, LinkBoth, Survivor, Build;
    match ev
    case Step(eip, codePa, code, prev) =>
      var t := Lookup(s, eip);
      if t >= 0 && s.arena[t].valid {
        LinkBothKeepsExits(s, t, prev);
      } else if code.Some? {
        var (s1, ok) := Build(s, eip, code.value);
        if ok {
          FreshExits(s, eip, code.value);
          LinkBothKeepsExits(Protect(Insert(s1, |s.arena|), codePa), |s.arena|, prev);
          SameEmits(s1.arena[|s.arena|], Apply(s, ev).arena[|s.arena|], code.value);
        } else {
          var s0 := Flush(s1);
          RoomAfterFlush(s1, eip, code.value);
          FreshExits(s0, eip, code.value);
          var s2 := Build(s0, eip, code.value).0;
          LinkBothKeepsExits(Protect(Insert(s2, 0), codePa), 0, NO_TRACE);
          SameEmits(s2.arena[0], Apply(s, ev).arena[0], code.value);
        }
      }
    case CodeWrite(pa) => InvalidateKeepsExits(s, pa);
    case ModeChange =>
  }

  lemma RoomAfterFlush(s: State, eip: u32, c: Compiled)
    requires Sized(s)
    ensures Build(Flush(s), eip, c).1 && |Build(Flush(s), eip, c).0.arena| == 1
  {
  }

  lemma SameEmits(t: Trace, t': Trace, c: Compiled)
    requires SameExits(t, t') && Emits(t, c)
    ensures Emits(t', c)
  {
  }

  lemma InvalidateKeepsExits(s: State, pa: u32)
    requires Sized(s) && Page(pa) < PAGES
    ensures AllSame(s, Invalidate(s, pa)) && |Invalidate(s, pa).arena| == |s.arena|
  {
    hide SlotOf, Page, Lookup;
  }

  lemma {:induction false} RunExits(s: State, all: seq<Event>, k: nat)
    requires Sized(s) && k <= |all| && forall ev :: ev in all ==> WellFormed(ev)
    requires forall i :: 0 <= i < |s.arena| ==> FromRun(s.arena[i], all)
    ensures var s' := ApplyAll(s, all[k..]); forall i :: 0 <= i < |s'.arena| ==> FromRun(s'.arena[i], all)
    decreases |all| - k
  {
    hide Apply, WellFormed, Emits, Sized;
    if k == |all| {
      assert all[k..] == [];
    } else {
      assert all[k] in all && all[k..][0] == all[k] && all[k..][1..] == all[k + 1..];
      StepExits(s, all[k]);
      var s1 := Apply(s, all[k]);
      forall i | 0 <= i < |s1.arena| ensures FromRun(s1.arena[i], all) {
        if !Supplies(all[k], s1.arena[i]) {
          var m :| 0 <= m < |all| && Supplies(all[m], s.arena[i]);
          SameEmits(s.arena[i], s1.arena[i], all[m].code.value);
          assert Supplies(all[m], s1.arena[i]);
        }
      }
      RunExits(s1, all, k + 1);
      var rest := all[k..];
      var s' := ApplyAll(s, rest);
      assert s' == ApplyAll(s1, all[k + 1..]);
      assert forall i :: 0 <= i < |s'.arena| ==> FromRun(s'.arena[i], all);
    }
  }

  /** All link slots of the trace stand for their own exits of emission c. */
  ghost predicate LeadsAll(s: State, t: Trace, c: Compiled) {
    |t.links| <= |c.exits| && forall j :: 0 <= j < |t.links| ==> Leads(s, t.links[j], c.exits[|c.exits| - |t.links| + j], t.host)
  }

  lemma LinksLead(s: State, i: nat, c: Compiled)
    requires Linking(s) && i < |s.arena| && Emits(s.arena[i], c)
    ensures LeadsAll(s, s.arena[i], c)
  {
    var t := s.arena[i];
    forall j | 0 <= j < |t.links| ensures Leads(s, t.links[j], c.exits[|c.exits| - |t.links| + j], t.host) {
      assert LinkSound(s, t, t.links[j]);
      if t.links[j].linked {
        var b :| PointsAt(s, t.links[j], b);
      }
    }
  }

  /** In every reachable state every trace came out of some emission for its EIP, and every link slot stands for its own
      exit of that emission: the jump at that place goes to its cold stub or into valid code for the guest EIP that was
      emitted there. */
  lemma EveryLinkIsItsExit(evs: seq<Event>, i: nat)
    requires forall ev :: ev in evs ==> WellFormed(ev)
    requires Sized(Initial()) && i < |ApplyAll(Initial(), evs).arena|
    ensures var s := ApplyAll(Initial(), evs);
      exists k :: 0 <= k < |evs| && Supplies(evs[k], s.arena[i]) && LeadsAll(s, s.arena[i], evs[k].code.value)
  {
    hide Apply, ApplyAll, Linking, Caching, Layout, Sized, WellFormed, Emits, LeadsAll, Initial;
    EveryRunKeepsInv(evs);
    assert evs[0..] == evs;
    assert Initial().arena == [] by { NoTraces(); }
    RunExits(Initial(), evs, 0);
    var s := ApplyAll(Initial(), evs);
    assert FromRun(s.arena[i], evs);
    var k :| 0 <= k < |evs| && Supplies(evs[k], s.arena[i]);
    LinksLead(s, i, evs[k].code.value);
  }

  lemma NoTraces()
    ensures Initial().arena == []
  {
  }

  /** Whether a valid trace for the EIP is in its cache slot. */
  predicate Cached(s: State, eip: u32)
    requires Sized(s)
  {
    var k := s.slots[SlotOf(eip)]; k >= 0 && s.arena[k].valid && s.arena[k].eip == eip
  }

  /** Linking leaves no forward exit to a cached EIP unlinked, in the trace about to run and in a valid one before it. */
  lemma LinksWhatItCan(s: State, t: nat, prev: int, i: int, j: nat)
    requires Sized(s) && t < |s.arena| && 0 <= i < |s.arena| && j < |s.arena[i].links|
    requires i == t || (i == prev && s.arena[prev].valid)
    ensures var t', l := LinkBoth(s, t, prev).arena[i], LinkBoth(s, t, prev).arena[i].links[j];
      l.linked <==> s.arena[i].links[j].linked || (l.target > t'.eip && Cached(s, l.target))
  {
    hide SlotOf;
  }

  /** Dispatch hands back a valid trace for the EIP that was asked for, or none, and then only without code. */
  lemma DispatchFinds(s: State, eip: u32, codePa: u32, code: Option<Compiled>, prev: int)
    requires Inv(s) && (code.Some? ==> Emitted(code.value))
    ensures var (s', t) := Dispatch(s, eip, codePa, code, prev);
      if t < 0 then code.None? else t < |s'.arena| && s'.arena[t].valid && s'.arena[t].eip == eip && Lookup(s', eip) == t
  {
    hide SlotOf, Linking, Layout, LinkBoth, Round16, LinkSlots;
    var t := Lookup(s, eip);
    LinkBothFinds(s, t, prev);
    if !(t >= 0 && s.arena[t].valid) && code.Some? {
      var (s1, ok) := Build(s, eip, code.value);
      if ok {
        var s2 := Protect(Insert(s1, |s.arena|), codePa);
        LinkBothFinds(s2, |s.arena|, prev);
      } else {
        RoomAfterFlush(s1, eip, code.value);
        var s2 := Build(Flush(s1), eip, code.value).0;
        LinkBothFinds(Protect(Insert(s2, 0), codePa), 0, NO_TRACE);
      }
    }
  }

  lemma LinkBothFinds(s: State, t: int, prev: int)
    requires Sized(s)
    ensures 0 <= t < |s.arena| ==> var s' := LinkBoth(s, t, prev);
      s'.slots == s.slots && |s'.arena| == |s.arena| && s'.arena[t].valid == s.arena[t].valid && s'.arena[t].eip == s.arena[t].eip
  {
    hide SlotOf;
  }

  // ---- Space ----

  /** A valid trace at `host` that starts at `eip`, all of its exits still at their cold stubs. */
  predicate Fresh(t: Trace, eip: u32, host: nat, size: nat) {
    && t.eip == t.codePa == eip && t.host == host && t.size == size && t.valid
    && forall j :: 0 <= j < |t.links| ==> !t.links[j].linked && t.links[j].dest == t.links[j].site + 4
  }

  /** When a build succeeds, what it appends and how much space it takes: a block starts at the next multiple of 16, must
      leave 64 KB for emission in the 32 MB slab, and keeps only what it used; there are 65536 traces at most. */
  lemma BuildOutcome(s: State, eip: u32, c: Compiled)
    ensures var (s', ok) := Build(s, eip, c);
      var host := (s.codeUsed + 15) / 16 * 16;
      && (ok <==> host + 0x1_0000 <= 0x200_0000 && |s.arena| < 0x1_0000)
      && s'.slots == s.slots && s'.pages == s.pages
      && (ok ==> s'.codeUsed == host + (c.size + 15) / 16 * 16 && |s'.arena| == |s.arena| + 1)
      && (ok ==> s'.arena[..|s.arena|] == s.arena && Fresh(s'.arena[|s.arena|], eip, host, c.size))
      && (!ok ==> s'.arena == s.arena && s'.codeUsed == if host + 0x1_0000 <= 0x200_0000 then host + 0x1_0000 else s.codeUsed)
  {
  }

  /** The slot of an EIP is its halfword number modulo 2^26, so two EIPs share one exactly when they agree in bits 1 to
      26. */
  lemma SlotIsHalfword(eip: u32)
    ensures SlotOf(eip) == eip / 2 % 0x400_0000
  {
    var page, off := eip / 0x1000, eip % 0x1000;
    assert eip == 0x1000 * page + off;
    var w := 0x800 * (page % 0x8000) + off / 2;
    assert page == page / 0x8000 * 0x8000 + page % 0x8000;
    Unique(eip, 2, 0x400_0000 * (page / 0x8000) + w, off % 2);
    Unique(eip / 2, 0x400_0000, page / 0x8000, w);
  }

  /** A write to a protected page takes its protection and invalidates exactly the cached traces that start there; a write
      to any other page does nothing. */
  lemma InvalidateOutcome(s: State, pa: u32, i: nat)
    requires Inv(s) && pa < 0x800_0000 && i < |s.arena|
    ensures var p, s' := pa / 0x1000, Invalidate(s, pa);
      if !s.pages[p] then s' == s
      else
        && s'.pages == s.pages[p := false] && s'.slots == s.slots && s'.codeUsed == s.codeUsed && |s'.arena| == |s.arena|
        && (s'.arena[i].valid <==>
              s.arena[i].valid && !(s.arena[i].codePa / 0x1000 == p && s.slots[SlotOf(s.arena[i].eip)] == i))
  {
    hide SlotOf, Linking, Caching;
    var p := Page(pa);
    var hi := (p + 1) * SLOTS_PER_PAGE;
    if s.pages[p] {
      SurvivorFields(s, i, p, hi);
      assert Invalidate(s, pa).arena[i] == Survivor(s, i, p, hi);
      if Page(s.arena[i].eip) == p { SlotInPage(s.arena[i].eip); }
    }
  }
}
