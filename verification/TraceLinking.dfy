/** Invariants of every run of build, link, invalidate and flush, and what follows from them. */
module TraceLinking {
  import opened Words
  import opened TraceState

  // ---- The invariant ----

  predicate PointsAt(s: State, l: Link, b: int) {
    0 <= b < |s.arena| && s.arena[b].valid && s.arena[b].eip == l.target && s.arena[b].host == l.dest
  }

  /** A linked exit of a valid trace goes forward, to the code of a valid trace for exactly its target;
      any other exit falls through to its own cold stub. */
  ghost predicate LinkSound(s: State, t: Trace, l: Link) {
    if l.linked then t.valid && l.target > t.eip && exists b :: PointsAt(s, l, b)
    else l.dest == l.site + 4
  }

  ghost predicate LinksSound(s: State, t: Trace) {
    forall j :: 0 <= j < |t.links| ==> LinkSound(s, t, t.links[j])
  }

  ghost predicate Linking(s: State) {
    forall i :: 0 <= i < |s.arena| ==> LinksSound(s, s.arena[i])
  }

  /** Each slot holds the newest trace that maps to it. */
  predicate Caching(s: State)
    requires Sized(s)
  {
    && (forall x :: 0 <= x < SLOT_COUNT && s.slots[x] >= 0 ==> SlotOf(s.arena[s.slots[x]].eip) == x)
    && (forall i :: 0 <= i < |s.arena| ==> s.slots[SlotOf(s.arena[i].eip)] >= i)
  }

  /** Code blocks follow one another in the slab; code addresses are guest EIPs. */
  predicate Layout(s: State) {
    && s.codeUsed <= CODE_CAP
    && (forall i :: 0 <= i < |s.arena| ==> s.arena[i].host + s.arena[i].size <= s.codeUsed && s.arena[i].codePa == s.arena[i].eip)
    && (forall i, j :: 0 <= i < j < |s.arena| ==> s.arena[i].host + s.arena[i].size <= s.arena[j].host)
  }

  ghost predicate Inv(s: State) {
    Sized(s) && Linking(s) && Caching(s) && Layout(s)
  }

  /** With paging off: a page with a cached valid trace is write-protected. */
  predicate Marked(s: State)
    requires Sized(s)
  {
    forall i :: 0 <= i < |s.arena| && Page(s.arena[i].codePa) < PAGES && CachedIn(s, i, Page(s.arena[i].codePa)) ==>
      s.pages[Page(s.arena[i].codePa)]
  }

  // ---- Each operation keeps it ----

  /** Traces keep their identity: what a link may rely on. */
  predicate SameTargets(s: State, s': State) {
    forall b :: 0 <= b < |s.arena| && s.arena[b].valid ==>
      b < |s'.arena| && s'.arena[b].valid && s'.arena[b].eip == s.arena[b].eip && s'.arena[b].host == s.arena[b].host
  }

  lemma TargetsCarryOver(s: State, s': State, t: Trace)
    requires SameTargets(s, s') && LinksSound(s, t)
    ensures LinksSound(s', t)
  {
    forall j | 0 <= j < |t.links| ensures LinkSound(s', t, t.links[j]) {
      assert LinkSound(s, t, t.links[j]);
      if t.links[j].linked {
        var b :| PointsAt(s, t.links[j], b);
        assert PointsAt(s', t.links[j], b);
      }
    }
  }

  lemma FlushKeepsInv(s: State)
    requires Sized(s)
    ensures Inv(Flush(s)) && Marked(Flush(s))
  {
  }

  lemma BuildKeepsParts(s: State, eip: u32, c: Compiled)
    requires Inv(s) && Emitted(c)
    ensures var s' := Build(s, eip, c).0; Sized(s') && Linking(s') && Layout(s')
    ensures var (s', ok) := Build(s, eip, c);
      s'.slots == s.slots && s'.pages == s.pages
      && s'.arena == s.arena + if ok then [s'.arena[|s.arena|]] else []
    ensures Build(s, eip, c).1 ==> Build(s, eip, c).0.arena[|s.arena|].eip == eip && Build(s, eip, c).0.arena[|s.arena|].valid
  {
    hide SlotOf, LinkSlots;
    var (s', ok) := Build(s, eip, c);
    if ok {
      var t := s'.arena[|s.arena|];
      assert Round16(s.codeUsed) >= s.codeUsed;
      assert SameTargets(s, s');
      FreshLinks(s', t, c);
      forall i | 0 <= i < |s.arena| ensures LinksSound(s', s.arena[i]) {
        TargetsCarryOver(s, s', s.arena[i]);
      }
      forall i | 0 <= i < |s'.arena| ensures LinksSound(s', s'.arena[i]) {
        hide LinksSound;
        if i < |s.arena| { assert s'.arena[i] == s.arena[i]; }
      }
    } else {
      LinkingIgnoresCache(s, s');
    }
  }

  lemma FreshLinks(s: State, t: Trace, c: Compiled)
    requires t.links == LinkSlots(c.exits, t.host)
    ensures LinksSound(s, t)
  {
  }

  lemma InsertRestoresCaching(s: State, s1: State)
    requires Sized(s) && Caching(s) && Sized(s1) && |s1.arena| == |s.arena| + 1
    requires s1.slots == s.slots && s1.arena[..|s.arena|] == s.arena
    ensures Caching(Insert(s1, |s.arena|))
  {
    hide SlotOf;
    var s2 := Insert(s1, |s.arena|);
    forall i | 0 <= i < |s.arena| ensures s1.arena[i] == s.arena[i] {
      assert s1.arena[..|s.arena|][i] == s.arena[i];
    }
    forall i | 0 <= i < |s2.arena| ensures s2.slots[SlotOf(s2.arena[i].eip)] >= i {
      if i < |s.arena| { assert s.slots[SlotOf(s.arena[i].eip)] >= i; }
    }
  }

  lemma LinkingIgnoresCache(s: State, s': State)
    requires s'.arena == s.arena && Linking(s)
    ensures Linking(s')
  {
    forall i | 0 <= i < |s'.arena| ensures LinksSound(s', s'.arena[i]) {
      TargetsCarryOver(s, s', s.arena[i]);
    }
  }

  lemma TryLinkKeepsInv(s: State, t: nat)
    requires Inv(s) && t < |s.arena| && s.arena[t].valid
    ensures Inv(TryLink(s, t)) && (Marked(s) ==> Marked(TryLink(s, t)))
    ensures TryLink(s, t).arena[t].valid
  {
    hide SlotOf, Page;
    var s' := TryLink(s, t);
    forall i | 0 <= i < |s'.arena| ensures LinksSound(s', s'.arena[i]) {
      if i == t {
        forall j | 0 <= j < |s'.arena[t].links| ensures LinkSound(s, s'.arena[t], s'.arena[t].links[j]) {
          assert LinkSound(s, s.arena[t], s.arena[t].links[j]);
          NewLinkSound(s, t, s.arena[t].links[j]);
        }
      }
      TargetsCarryOver(s, s', s'.arena[i]);
    }
  }

  lemma NewLinkSound(s: State, t: nat, l: Link)
    requires Inv(s) && t < |s.arena| && s.arena[t].valid && LinkSound(s, s.arena[t], l)
    ensures LinkSound(s, s.arena[t].(links := []), LinkIfPresent(s, s.arena[t].eip, l))
  {
    hide SlotOf;
    var l' := LinkIfPresent(s, s.arena[t].eip, l);
    var k := Lookup(s, l.target);
    if l'.linked && !l.linked {
      assert PointsAt(s, l', k);
    } else if l.linked {
      var b :| PointsAt(s, l, b);
      assert PointsAt(s, l', b);
    }
  }

  lemma LinkBothKeepsInv(s: State, t: nat, prev: int)
    requires Inv(s) && t < |s.arena| && s.arena[t].valid
    ensures Inv(LinkBoth(s, t, prev)) && (Marked(s) ==> Marked(LinkBoth(s, t, prev)))
  {
    TryLinkKeepsInv(s, t);
    if 0 <= prev < |s.arena| && TryLink(s, t).arena[prev].valid {
      TryLinkKeepsInv(TryLink(s, t), prev);
    }
  }

  lemma InstallKeepsInv(s: State, s1: State, codePa: u32, prev: int)
    requires Inv(s) && Sized(s1) && Linking(s1) && Layout(s1)
    requires |s1.arena| == |s.arena| + 1 && s1.arena[..|s.arena|] == s.arena && s1.slots == s.slots && s1.pages == s.pages
    requires s1.arena[|s.arena|].valid
    ensures Inv(Install(s1, codePa, prev))
    ensures Marked(s) && codePa == s1.arena[|s.arena|].eip ==> Marked(Install(s1, codePa, prev))
  {
    hide SlotOf, Page, Marked, Linking, Caching, Layout, LinkBoth, CachedIn;
    var last: nat := |s.arena|;
    InsertRestoresCaching(s, s1);
    LayoutIgnoresCache(s1, codePa);
    LinkingIgnoresCache(s1, Protect(Insert(s1, last), codePa));
    if Marked(s) && codePa == s1.arena[last].eip { InstallKeepsMarked(s, s1, codePa); }
    LinkBothKeepsInv(Protect(Insert(s1, last), codePa), last, prev);
  }

  lemma LayoutIgnoresCache(s: State, codePa: u32)
    requires Sized(s) && |s.arena| > 0
    ensures var s' := Protect(Insert(s, |s.arena| - 1), codePa);
      && s'.arena == s.arena
      && (Layout(s) ==> Layout(s'))
      && (Caching(Insert(s, |s.arena| - 1)) ==> Caching(s'))
  {
    hide SlotOf, Page;
  }

  /** The new trace's page is protected, and no other trace enters a slot. */
  lemma InstallKeepsMarked(s: State, s1: State, codePa: u32)
    requires Sized(s) && Sized(s1) && Marked(s) && Layout(s1)
    requires |s1.arena| == |s.arena| + 1 && s1.arena[..|s.arena|] == s.arena && s1.slots == s.slots && s1.pages == s.pages
    requires codePa == s1.arena[|s.arena|].eip
    ensures Marked(Protect(Insert(s1, |s.arena|), codePa))
  {
    hide SlotOf, Page;
    var last: nat := |s.arena|;
    var s3 := Protect(Insert(s1, last), codePa);
    forall i | 0 <= i < |s3.arena| && Page(s3.arena[i].codePa) < PAGES && CachedIn(s3, i, Page(s3.arena[i].codePa))
      ensures s3.pages[Page(s3.arena[i].codePa)]
    {
      if i < last {
        assert s1.arena[..last][i] == s.arena[i];
        assert CachedIn(s, i, Page(s.arena[i].codePa));
      }
    }
  }

  lemma DispatchKeepsInv(s: State, eip: u32, codePa: u32, code: Option<Compiled>, prev: int)
    requires Inv(s) && (code.Some? ==> Emitted(code.value))
    ensures Inv(Dispatch(s, eip, codePa, code, prev).0)
    ensures Marked(s) && codePa == eip ==> Marked(Dispatch(s, eip, codePa, code, prev).0)
  {
    hide SlotOf, Inv, Marked, LinkBoth, Install, Flush;
    SizedByInv(s);
    var t := Lookup(s, eip);
    FlushKeepsInv(s);
    if t >= 0 && s.arena[t].valid {
      LinkBothKeepsInv(s, t, prev);
    } else if code.Some? {
      BuildKeepsParts(s, eip, code.value);
      var (s1, ok) := Build(s, eip, code.value);
      if ok {
        InstallKeepsInv(s, s1, codePa, prev);
      } else {
        var s0 := Flush(s1);
        FlushKeepsInv(s1);
        FlushEmpties(s1);
        BuildKeepsParts(s0, eip, code.value);
        InstallKeepsInv(s0, Build(s0, eip, code.value).0, codePa, NO_TRACE);
      }
    }
  }

  lemma SizedByInv(s: State)
    requires Inv(s)
    ensures Sized(s)
  {
  }

  lemma FlushEmpties(s: State)
    ensures Flush(s).arena == [] && Flush(s).codeUsed == 0
  {
  }

  lemma SurvivorFields(s: State, i: nat, p: nat, hi: nat)
    requires Sized(s) && i < |s.arena|
    ensures var t, t' := s.arena[i], Survivor(s, i, p, hi);
      && t'.eip == t.eip && t'.codePa == t.codePa && t'.host == t.host && t'.size == t.size
      && (t'.valid <==> t.valid && !KilledBelow(s, i, p, hi))
      && |t'.links| == |t.links|
  {
    hide SlotOf;
  }

  lemma KilledTarget(s: State, l: Link, b: int, p: nat, hi: nat)
    requires Sized(s) && PointsAt(s, l, b) && KilledBelow(s, b, p, hi)
    ensures TargetKilled(s, l.target, p, hi)
  {
    hide SlotOf;
  }

  /** Links that survive an invalidation still point at a surviving trace. */
  lemma SurvivorLinksSound(s: State, pa: u32, i: nat)
    requires Inv(s) && Page(pa) < PAGES && s.pages[Page(pa)] && i < |s.arena|
    ensures LinksSound(Invalidate(s, pa), Invalidate(s, pa).arena[i])
  {
    hide SlotOf, Page, Layout;
    var p := Page(pa);
    var hi := (p + 1) * SLOTS_PER_PAGE;
    var s' := Invalidate(s, pa);
    var t, t' := s.arena[i], s'.arena[i];
    assert t' == Survivor(s, i, p, hi);
    forall j | 0 <= j < |t'.links| ensures LinkSound(s', t', t'.links[j]) {
      var l := t.links[j];
      assert LinkSound(s, t, l);
      if t'.links[j].linked {
        var b :| PointsAt(s, l, b);
        SurvivorFields(s, b, p, hi);
        if KilledBelow(s, b, p, hi) { KilledTarget(s, l, b, p, hi); }
        assert PointsAt(s', t'.links[j], b);
      }
    }
  }

  lemma InvalidateKeepsInv(s: State, pa: u32)
    requires Inv(s) && Page(pa) < PAGES
    ensures Inv(Invalidate(s, pa)) && (Marked(s) ==> Marked(Invalidate(s, pa)))
  {
    hide SlotOf, Survivor, Page;
    var p := Page(pa);
    if s.pages[p] {
      var s' := Invalidate(s, pa);
      var hi := (p + 1) * SLOTS_PER_PAGE;
      forall i: nat | i < |s.arena| ensures s'.arena[i] == Survivor(s, i, p, hi) && LinksSound(s', s'.arena[i]) {
        SurvivorLinksSound(s, pa, i);
      }
      forall i: nat | i < |s.arena| ensures
          s'.arena[i].eip == s.arena[i].eip && s'.arena[i].codePa == s.arena[i].codePa
          && s'.arena[i].host == s.arena[i].host && s'.arena[i].size == s.arena[i].size
          && (s'.arena[i].valid <==> s.arena[i].valid && !KilledBelow(s, i, p, hi)) {
        SurvivorFields(s, i, p, hi);
      }
      if Marked(s) {
        forall i | 0 <= i < |s'.arena| && Page(s'.arena[i].codePa) < PAGES && CachedIn(s', i, Page(s'.arena[i].codePa))
          ensures s'.pages[Page(s'.arena[i].codePa)]
        {
          assert CachedIn(s, i, Page(s.arena[i].codePa));
          if Page(s.arena[i].codePa) == p { SlotInPage(s.arena[i].eip); }
        }
      }
    }
  }

  lemma SlotInPage(eip: u32)
    requires Page(eip) < PAGES
    ensures Page(eip) * SLOTS_PER_PAGE <= SlotOf(eip) < (Page(eip) + 1) * SLOTS_PER_PAGE
  {
  }

  // ---- Runs ----

  datatype Event =
    | Step(eip: u32, codePa: u32, code: Option<Compiled>, prev: int)
    | CodeWrite(pa: u32)
    | ModeChange

  predicate WellFormed(ev: Event) {
    match ev
    case Step(_, _, code, _) => code.Some? ==> Emitted(code.value)
    case CodeWrite(pa) => Page(pa) < PAGES
    case ModeChange => true
  }

  function Apply(s: State, ev: Event): (r: State)
    requires Sized(s) && WellFormed(ev)
    ensures Sized(r)
  {
    match ev
    case Step(eip, codePa, code, prev) => Dispatch(s, eip, codePa, code, prev).0
    case CodeWrite(pa) => Invalidate(s, pa)
    case ModeChange => Flush(s)
  }

  function ApplyAll(s: State, evs: seq<Event>): (r: State)
    requires Sized(s) && forall ev :: ev in evs ==> WellFormed(ev)
    ensures Sized(r)
    decreases |evs|
  {
    if evs == [] then s else ApplyAll(Apply(s, evs[0]), evs[1..])
  }

  predicate PagingOff(ev: Event) {
    ev.Step? ==> ev.codePa == ev.eip
  }

  function Initial(): State {
    State([], seq(SLOT_COUNT, _ => NO_TRACE), 0, seq(PAGES, _ => false))
  }

  /** Every reachable state: linked exits lead forward to valid code for their target, invalid traces have
      none, slots hold the newest trace, code blocks are in order. With paging off, pages are protected too. */
  lemma {:induction false} ReachableInv(s: State, evs: seq<Event>)
    requires Inv(s) && forall ev :: ev in evs ==> WellFormed(ev)
    ensures Inv(ApplyAll(s, evs))
    ensures Marked(s) && (forall ev :: ev in evs ==> PagingOff(ev)) ==> Marked(ApplyAll(s, evs))
    decreases |evs|
  {
    hide Inv, Marked, Dispatch, Invalidate, Flush, Emitted, Page;
    SizedByInv(s);
    if evs != [] {
      assert WellFormed(evs[0]) && evs[0] in evs;
      match evs[0] {
        case Step(eip, codePa, code, prev) => DispatchKeepsInv(s, eip, codePa, code, prev);
        case CodeWrite(pa) => InvalidateKeepsInv(s, pa);
        case ModeChange => FlushKeepsInv(s);
      }
      ReachableInv(Apply(s, evs[0]), evs[1..]);
    }
  }

  lemma InitialInv()
    ensures Inv(Initial()) && Marked(Initial())
  {
  }

  /** From start-up on, whatever is built, linked, written to or flushed. */
  lemma EveryRunKeepsInv(evs: seq<Event>)
    requires forall ev :: ev in evs ==> WellFormed(ev)
    ensures Sized(Initial()) && Inv(ApplyAll(Initial(), evs))
    ensures (forall ev :: ev in evs ==> PagingOff(ev)) ==> Marked(ApplyAll(Initial(), evs))
  {
    hide Inv, Marked;
    InitialInv();
    SizedByInv(Initial());
    ReachableInv(Initial(), evs);
  }

  // ---- What the invariant means ----

  /** After a write to code page p no valid trace starts there exactly when, before it, every valid trace of
      p was in its cache slot. Links never enter an invalid trace, so none then enters p. */
  lemma InvalidationIsComplete(s: State, pa: u32)
    requires Inv(s) && Marked(s) && Page(pa) < PAGES
    ensures var p := Page(pa);
      var s' := Invalidate(s, pa);
      (forall i :: 0 <= i < |s'.arena| ==> !(s'.arena[i].valid && Page(s'.arena[i].codePa) == p))
      <==> (forall i :: 0 <= i < |s.arena| && s.arena[i].valid && Page(s.arena[i].codePa) == p ==> CachedIn(s, i, p))
  {
    hide SlotOf, Survivor, Page;
    var p := Page(pa);
    var s' := Invalidate(s, pa);
    var hi := (p + 1) * SLOTS_PER_PAGE;
    forall i: nat | i < |s.arena| && s.pages[p]
      ensures s'.arena[i].codePa == s.arena[i].codePa
      ensures s'.arena[i].valid <==> s.arena[i].valid && !CachedIn(s, i, p)
    {
      SurvivorFields(s, i, p, hi);
      assert s'.arena[i] == Survivor(s, i, p, hi);
      if CachedIn(s, i, p) { SlotInPage(s.arena[i].eip); }
    }
    if !s.pages[p] {
      assert forall i :: 0 <= i < |s.arena| ==> !CachedIn(s, i, p);
    }
  }

  // ---- The condition can fail: two guest EIPs that share a slot ----

  const OLD_TRACE := Trace(0x1000, 0x1000, 0, 16, true, [])
  const INTO_OLD := Trace(0xF00, 0xF00, 16, 16, true, [Link(17, 0x1000, true, 0)])
  const NEW_TRACE := Trace(0x1001, 0x1001, 32, 16, true, [])

  function DisplacingEvents(): seq<Event> {
    [Step(0x1000, 0x1000, Some(Compiled(16, [])), NO_TRACE),
     Step(0xF00, 0xF00, Some(Compiled(16, [Exit(1, 0x1000)])), NO_TRACE),
     Step(0x1001, 0x1001, Some(Compiled(16, [])), NO_TRACE)]
  }

  function Displaced(): State {
    State([OLD_TRACE, INTO_OLD, NEW_TRACE],
          seq(SLOT_COUNT, _ => NO_TRACE)[SlotOf(0x1000) := 0][SlotOf(0xF00) := 1][SlotOf(0x1001) := 2], 48,
          seq(PAGES, _ => false)[1 := true][0 := true][1 := true])
  }

  /** A step for an EIP that is not cached, while there is room. */
  lemma StepBuilds(s: State, eip: u32, c: Compiled)
    requires Sized(s) && Lookup(s, eip) == NO_TRACE && Page(eip) < PAGES
    requires Round16(s.codeUsed) + MAX_TRACE_BYTES <= CODE_CAP && |s.arena| < ARENA_CAP && Emitted(c)
    ensures var host, last := Round16(s.codeUsed), |s.arena|;
      var t := Trace(eip, eip, host, c.size, true, LinkSlots(c.exits, host));
      var s' := State(s.arena + [t], s.slots[SlotOf(eip) := last], host + Round16(c.size), s.pages[Page(eip) := true]);
      Sized(s') && Apply(s, Step(eip, eip, Some(c), NO_TRACE)) == s'.(arena := s.arena + [WithLinks(s', t)])
  {
    hide SlotOf, Page, Round16, LinkSlots, WithLinks;
    var host, last := Round16(s.codeUsed), |s.arena|;
    var t := Trace(eip, eip, host, c.size, true, LinkSlots(c.exits, host));
    var s1 := Build(s, eip, c).0;
    assert s1.arena == s.arena + [t];
    var s' := Protect(Insert(s1, last), eip);
    assert TryLink(s', last).arena == s.arena + [WithLinks(s', t)];
  }

  /** Every step of the displacing run. */
  lemma DisplacingRun()
    ensures ApplyAll(Initial(), DisplacingEvents()) == Displaced()
  {
    hide Apply;
    var evs := DisplacingEvents();
    var s0 := Initial();
    var none, clear := seq(SLOT_COUNT, _ => NO_TRACE), seq(PAGES, _ => false);
    SlotNumbers();
    StepBuilds(s0, 0x1000, Compiled(16, []));
    var s1 := State([OLD_TRACE], none[SlotOf(0x1000) := 0], 16, clear[1 := true]);
    assert WithLinks(s1, OLD_TRACE) == OLD_TRACE;
    assert LinkSlots([], 0) == [];
    assert [] + [OLD_TRACE] == [OLD_TRACE];
    assert Apply(s0, evs[0]) == s1;
    StepBuilds(s1, 0xF00, Compiled(16, [Exit(1, 0x1000)]));
    var cold := Link(17, 0x1000, false, 21);
    assert LinkSlots([Exit(1, 0x1000)], 16) == [cold];
    var t1 := INTO_OLD.(links := [cold]);
    var s2' := State([OLD_TRACE, t1], none[SlotOf(0x1000) := 0][SlotOf(0xF00) := 1], 32, clear[1 := true][0 := true]);
    var s2 := s2'.(arena := [OLD_TRACE, INTO_OLD]);
    assert Lookup(s2', 0x1000) == 0;
    assert WithLinks(s2', t1) == INTO_OLD;
    assert [OLD_TRACE] + [t1] == [OLD_TRACE, t1] && [OLD_TRACE] + [INTO_OLD] == [OLD_TRACE, INTO_OLD];
    assert Apply(s1, evs[1]) == s2;
    StepBuilds(s2, 0x1001, Compiled(16, []));
    assert LinkSlots([], 32) == [];
    assert WithLinks(Displaced(), NEW_TRACE) == NEW_TRACE;
    assert s2.arena + [NEW_TRACE] == Displaced().arena;
    assert Apply(s2, evs[2]) == Displaced();
    ThreeSteps(s0, evs);
  }

  lemma SlotNumbers()
    ensures SlotOf(0x1000) == 2048 && SlotOf(0xF00) == 1920 && SlotOf(0x1001) == 2048
    ensures Page(0x1000) == 1 && Page(0xF00) == 0 && Page(0x1001) == 1
  {
  }

  lemma ThreeSteps(s: State, evs: seq<Event>)
    requires Sized(s) && |evs| == 3 && forall ev :: ev in evs ==> WellFormed(ev)
    ensures ApplyAll(s, evs) == Apply(Apply(Apply(s, evs[0]), evs[1]), evs[2])
  {
    hide Apply, Sized, WellFormed;
    var s1 := Apply(s, evs[0]);
    var s2 := Apply(s1, evs[1]);
    var rest, last := evs[1..], evs[1..][1..];
    assert last[1..] == [];
    assert ApplyAll(s2, last) == ApplyAll(Apply(s2, last[0]), last[1..]) == Apply(s2, evs[2]);
    assert ApplyAll(s1, rest) == ApplyAll(s2, last);
  }

  /** In that reachable state a write to page 1 leaves a trace of page 1 valid, with a link into it. */
  lemma DisplacedTraceSurvives()
    ensures var s := Displaced();
      var s' := Invalidate(s, 0x1000);
      ApplyAll(Initial(), DisplacingEvents()) == s
      && s'.arena[0].valid && Page(s'.arena[0].codePa) == 1
      && s'.arena[1].links[0].linked && PointsAt(s', s'.arena[1].links[0], 0)
  {
    DisplacingRun();
    SlotNumbers();
    hide SlotOf;
    var s := Displaced();
    var s' := Invalidate(s, 0x1000);
    assert s'.arena[0] == Survivor(s, 0, 1, 2 * SLOTS_PER_PAGE);
    assert s'.arena[1] == Survivor(s, 1, 1, 2 * SLOTS_PER_PAGE);
    assert Lookup(s, 0x1000) == NO_TRACE;
  }

  // ---- Chains of linked jumps end ----

  /** A chain: each trace has a linked exit into the code of the next. */
  ghost predicate Chain(s: State, path: seq<int>) {
    && (forall k :: 0 <= k < |path| ==> 0 <= path[k] < |s.arena|)
    && (forall k :: 0 <= k < |path| - 1 ==> JumpsTo(s, path[k], path[k + 1]))
  }

  ghost predicate JumpsTo(s: State, i: int, b: int)
    requires 0 <= i < |s.arena|
  {
    exists j :: 0 <= j < |s.arena[i].links| && s.arena[i].links[j].linked && PointsAt(s, s.arena[i].links[j], b)
  }

  /** Guest EIPs strictly increase along a chain, so no trace repeats and the chain cannot outgrow the arena
      or the distance left to the top of the address space: control returns to the run loop. */
  lemma {:induction false} ChainsAreFinite(s: State, path: seq<int>)
    requires Inv(s) && Chain(s, path)
    ensures forall m, n :: 0 <= m < n < |path| ==> s.arena[path[m]].eip < s.arena[path[n]].eip
    ensures |path| > 0 ==> |path| <= TWO_32 - s.arena[path[0]].eip
    ensures |path| <= ARENA_CAP
    decreases |path|
  {
    if |path| > 1 {
      var rest := path[1..];
      assert Chain(s, rest) by { ChainTail(s, path); }
      ChainsAreFinite(s, rest);
      JumpsForward(s, path[0], path[1]);
      forall m, n | 0 <= m < n < |path| ensures s.arena[path[m]].eip < s.arena[path[n]].eip {
        assert path[n] == rest[n - 1];
        if m == 0 && n > 1 { assert s.arena[rest[0]].eip < s.arena[rest[n - 1]].eip; }
        if m > 0 { assert path[m] == rest[m - 1]; }
      }
    }
    DistinctIndices(s, path);
  }

  lemma ChainTail(s: State, path: seq<int>)
    requires Chain(s, path) && |path| > 1
    ensures Chain(s, path[1..])
  {
    var rest := path[1..];
    forall k | 0 <= k < |rest| - 1 ensures JumpsTo(s, rest[k], rest[k + 1]) {
      assert JumpsTo(s, path[k + 1], path[k + 2]);
    }
  }

  lemma JumpsForward(s: State, i: int, b: int)
    requires Inv(s) && 0 <= i < |s.arena| && JumpsTo(s, i, b)
    ensures 0 <= b < |s.arena| && s.arena[b].valid && s.arena[b].eip > s.arena[i].eip
  {
    hide Caching, Layout;
    var j :| 0 <= j < |s.arena[i].links| && s.arena[i].links[j].linked && PointsAt(s, s.arena[i].links[j], b);
    assert LinkSound(s, s.arena[i], s.arena[i].links[j]);
  }

  lemma DistinctIndices(s: State, path: seq<int>)
    requires Sized(s)
    requires forall k :: 0 <= k < |path| ==> 0 <= path[k] < |s.arena|
    requires forall m, n :: 0 <= m < n < |path| ==> s.arena[path[m]].eip < s.arena[path[n]].eip
    ensures |path| <= ARENA_CAP
  {
    hide SlotOf;
    Pigeonhole(path, |s.arena|);
  }

  lemma {:induction false} Pigeonhole(path: seq<int>, n: nat)
    requires forall k :: 0 <= k < |path| ==> 0 <= path[k] < n
    requires forall j, k :: 0 <= j < k < |path| ==> path[j] != path[k]
    ensures |path| <= n
  {
    if path != [] { assert 0 <= path[0] < n; }
    if n > 0 && n - 1 in path {
      var k :| 0 <= k < |path| && path[k] == n - 1;
      Pigeonhole(path[..k] + path[k + 1..], n - 1);
    } else if n > 0 {
      Pigeonhole(path, n - 1);
    }
  }

  // ---- The cache as a map ----

  /** `lookup` answers with the newest trace built for exactly that EIP, or with nothing, and then only if
      none was built or a newer trace for another EIP took the slot. */
  lemma LookupIsNewest(s: State, eip: u32)
    requires Inv(s)
    ensures var t := Lookup(s, eip);
      && (t >= 0 ==> s.arena[t].eip == eip && forall i :: t < i < |s.arena| ==> s.arena[i].eip != eip)
      && (t < 0 ==> forall i :: 0 <= i < |s.arena| && s.arena[i].eip == eip ==>
            exists k :: i < k < |s.arena| && s.arena[k].eip != eip && SlotOf(s.arena[k].eip) == SlotOf(eip))
  {
    hide SlotOf, Layout, Linking;
    var k := s.slots[SlotOf(eip)];
    forall i | 0 <= i < |s.arena| && s.arena[i].eip == eip ensures k >= i {
    }
  }

  predicate Holds(t: Trace, rip: nat) { t.host <= rip < t.host + t.size }

  /** Host code ranges are disjoint and inside the slab, so an address lies in at most one trace. */
  lemma HostRangesDisjoint(s: State, i: int, j: int, rip: nat)
    requires Inv(s) && 0 <= i < |s.arena| && 0 <= j < |s.arena| && Holds(s.arena[i], rip) && Holds(s.arena[j], rip)
    ensures i == j && rip < CODE_CAP
  {
    hide Caching, Linking;
  }
}
