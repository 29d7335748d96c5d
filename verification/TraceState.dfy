/** Traces, their link slots, the trace cache and the code cache: one state changed by every run-loop step. */
module TraceState {
  import opened Words

  const ARENA_CAP := 65536
  const CODE_CAP := 0x200_0000
  const MAX_TRACE_BYTES := 65536
  const PAGES := 0x8000
  const SLOTS_PER_PAGE := 2048
  const SLOT_COUNT := 0x400_0000
  const NO_TRACE := -1

  /** An exit JMP: where its rel32 field is, the guest EIP it stands for, and where it now goes. */
  datatype Link = Link(site: nat, target: u32, linked: bool, dest: nat) {
    function Cut(): Link { Link(site, target, false, site + 4) }
  }

  datatype Trace = Trace(eip: u32, codePa: u32, host: nat, size: nat, valid: bool, links: seq<Link>)

  /** `arena` is the used part of the pool, oldest first; `slots` is the flattened two-level cache. */
  datatype State = State(arena: seq<Trace>, slots: seq<int>, codeUsed: nat, pages: seq<bool>)

  function Page(a: u32): nat { a / 0x1000 }

  function SlotOf(eip: u32): (x: nat)
    ensures x < SLOT_COUNT
  {
    Page(eip) % PAGES * SLOTS_PER_PAGE + eip % 0x1000 / 2
  }

  predicate Sized(s: State) {
    |s.slots| == SLOT_COUNT && |s.pages| == PAGES && |s.arena| <= ARENA_CAP
    && forall x :: 0 <= x < SLOT_COUNT ==> NO_TRACE <= s.slots[x] < |s.arena|
  }

  function Lookup(s: State, eip: u32): (t: int)
    requires Sized(s)
    ensures NO_TRACE <= t < |s.arena|
  {
    var t := s.slots[SlotOf(eip)];
    if t >= 0 && s.arena[t].eip == eip then t else NO_TRACE
  }

  // ---- Building ----

  datatype Exit = Exit(offset: nat, target: u32)

  /** What emission produced: the bytes used and the pending exits. */
  datatype Compiled = Compiled(size: nat, exits: seq<Exit>)

  predicate Emitted(c: Compiled) {
    c.size <= MAX_TRACE_BYTES && |c.exits| <= 4
  }

  /** Only the last two pending exits get link slots. */
  function LinkSlots(exits: seq<Exit>, host: nat): (r: seq<Link>)
    ensures |r| == if |exits| > 2 then 2 else |exits|
  {
    var start := if |exits| > 2 then |exits| - 2 else 0;
    seq(|exits| - start, j requires 0 <= j < |exits| - start =>
      Link(host + exits[start + j].offset, exits[start + j].target, false, host + exits[start + j].offset + 4))
  }

  /** build: None when the code cache or the arena is full; the former leaves its allocation behind. */
  function Build(s: State, eip: u32, c: Compiled): (r: (State, bool))
    ensures Sized(s) ==> Sized(r.0)
    ensures r.1 ==> |r.0.arena| == |s.arena| + 1
  {
    var host := Round16(s.codeUsed);
    if host + MAX_TRACE_BYTES > CODE_CAP then (s, false)
    else if |s.arena| >= ARENA_CAP then (s.(codeUsed := host + MAX_TRACE_BYTES), false)
    else
      var t := Trace(eip, eip, host, c.size, true, LinkSlots(c.exits, host));
      (s.(arena := s.arena + [t], codeUsed := host + Round16(c.size)), true)
  }

  /** Clear the cache and reset the code cache and the arena. */
  function Flush(s: State): (r: State)
    ensures Sized(s) ==> Sized(r)
  {
    s.(arena := [], slots := seq(SLOT_COUNT, _ => NO_TRACE), codeUsed := 0)
  }

  function Insert(s: State, t: nat): (r: State)
    requires Sized(s) && t < |s.arena|
    ensures Sized(r)
  {
    s.(slots := s.slots[SlotOf(s.arena[t].eip) := t])
  }

  function Protect(s: State, pa: u32): (r: State)
    requires Sized(s)
    ensures Sized(r)
  {
    if Page(pa) < PAGES then s.(pages := s.pages[Page(pa) := true]) else s
  }

  // ---- Linking ----

  function LinkIfPresent(s: State, eip: u32, l: Link): Link
    requires Sized(s)
  {
    if l.linked || l.target <= eip then l
    else
      var k := Lookup(s, l.target);
      if k >= 0 && s.arena[k].valid then l.(linked := true, dest := s.arena[k].host) else l
  }

  function WithLinks(s: State, t: Trace): Trace
    requires Sized(s)
  {
    t.(links := seq(|t.links|, j requires 0 <= j < |t.links| => LinkIfPresent(s, t.eip, t.links[j])))
  }

  /** try_link_trace. */
  function TryLink(s: State, t: nat): (r: State)
    requires Sized(s) && t < |s.arena|
    ensures Sized(r)
  {
    s.(arena := s.arena[t := WithLinks(s, s.arena[t])])
  }

  // ---- Invalidation ----

  /** Trace i is cached in its slot, valid, and starts in page p. */
  predicate CachedIn(s: State, i: int, p: nat)
    requires Sized(s)
  {
    0 <= i < |s.arena| && s.arena[i].valid && Page(s.arena[i].codePa) == p && s.slots[SlotOf(s.arena[i].eip)] == i
  }

  /** The slots scanned so far are those of page p below `hi`. */
  predicate KilledBelow(s: State, i: int, p: nat, hi: nat)
    requires Sized(s)
  {
    CachedIn(s, i, p) && p * SLOTS_PER_PAGE <= SlotOf(s.arena[i].eip) < hi
  }

  predicate TargetKilled(s: State, target: u32, p: nat, hi: nat)
    requires Sized(s)
  {
    var k := Lookup(s, target);
    k >= 0 && KilledBelow(s, k, p, hi)
  }

  function Unlinked(t: Trace): Trace {
    t.(valid := false, links := seq(|t.links|, j requires 0 <= j < |t.links| =>
      if t.links[j].linked then t.links[j].Cut() else t.links[j]))
  }

  /** Trace i once the slots of page p below `hi` have been scanned. */
  function Survivor(s: State, i: nat, p: nat, hi: nat): Trace
    requires Sized(s) && i < |s.arena|
  {
    var t := s.arena[i];
    if KilledBelow(s, i, p, hi) then Unlinked(t)
    else if !t.valid then t
    else t.(links := seq(|t.links|, j requires 0 <= j < |t.links| =>
      if t.links[j].linked && TargetKilled(s, t.links[j].target, p, hi) then t.links[j].Cut() else t.links[j]))
  }

  /** invalidate_code_page. */
  function Invalidate(s: State, pa: u32): (r: State)
    requires Sized(s) && Page(pa) < PAGES
    ensures Sized(r)
  {
    var p := Page(pa);
    if !s.pages[p] then s
    else s.(pages := s.pages[p := false],
            arena := seq(|s.arena|, i requires 0 <= i < |s.arena| => Survivor(s, i, p, (p + 1) * SLOTS_PER_PAGE)))
  }

  // ---- The run loop's step ----

  /** Link the trace about to run, then the one that ran before it. */
  function LinkBoth(s: State, t: nat, prev: int): (r: State)
    requires Sized(s) && t < |s.arena|
    ensures Sized(r)
  {
    var s1 := TryLink(s, t);
    if 0 <= prev < |s1.arena| && s1.arena[prev].valid then TryLink(s1, prev) else s1
  }

  /** Cache the newest trace, protect its page, link. */
  function Install(s: State, codePa: u32, prev: int): (r: State)
    requires Sized(s) && |s.arena| > 0
    ensures Sized(r)
  {
    var last: nat := |s.arena| - 1;
    LinkBoth(Protect(Insert(s, last), codePa), last, prev)
  }

  /** Find or build the trace for `eip` and get it ready to run; a failed build flushes everything and is
      tried once more, without a previous trace to link. No code means no trace. */
  function Dispatch(s: State, eip: u32, codePa: u32, code: Option<Compiled>, prev: int): (r: (State, int))
    requires Sized(s)
    ensures Sized(r.0)
  {
    var t := Lookup(s, eip);
    if t >= 0 && s.arena[t].valid then (LinkBoth(s, t, prev), t)
    else if code == None then (Flush(s), NO_TRACE)
    else
      var (s1, ok) := Build(s, eip, code.value);
      if ok then (Install(s1, codePa, prev), |s1.arena| - 1)
      else
        var s2 := Build(Flush(s1), eip, code.value).0;
        (Install(s2, codePa, NO_TRACE), 0)
  }
}
