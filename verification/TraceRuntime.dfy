/** The executor's trace machinery, updated in place: trace pool, cache slots, code cache and page bitmap. */
module TraceRuntime {
  import opened Words
  import opened TraceState
  import opened TraceLinking

  /** One trace after the exits of valid traces for `eip` have been reset. */
  function UnlinkFrom(t: Trace, eip: u32): Trace {
    if !t.valid then t
    else t.(links := seq(|t.links|, j requires 0 <= j < |t.links| =>
      if t.links[j].linked && t.links[j].target == eip then t.links[j].Cut() else t.links[j]))
  }

  /** Scanning one more slot of the page: either nothing happens, or its trace dies and links to it are cut. */
  lemma SurvivorStep(s: State, p: nat, x: nat, i: nat)
    requires Sized(s) && Caching(s) && p < PAGES && i < |s.arena|
    requires p * SLOTS_PER_PAGE <= x < (p + 1) * SLOTS_PER_PAGE && x < SLOT_COUNT
    ensures var k := s.slots[x];
      var before, after := Survivor(s, i, p, x), Survivor(s, i, p, x + 1);
      if k >= 0 && Survivor(s, k, p, x).valid && Page(s.arena[k].codePa) == p
      then after == (if i == k then Unlinked(UnlinkFrom(before, s.arena[k].eip)) else UnlinkFrom(before, s.arena[k].eip))
      else after == before
  {
    hide SlotOf, Page;
    var k := s.slots[x];
    if k >= 0 {
      assert SlotOf(s.arena[k].eip) == x;
    }
  }

  class TraceRuntime {
    const arena: array<Trace>
    const slots: array<int>
    const pages: array<bool>
    var used: nat
    var codeUsed: nat

    ghost predicate Shape()
      reads this
    {
      arena.Length == ARENA_CAP && slots.Length == SLOT_COUNT && pages.Length == PAGES && used <= ARENA_CAP
    }

    ghost function View(): State
      requires Shape()
      reads this, arena, slots, pages
    {
      State(arena[..used], slots[..], codeUsed, pages[..])
    }

    ghost predicate Valid()
      reads this, arena, slots, pages
    {
      Shape() && Inv(View())
    }

    constructor ()
      ensures Valid() && View() == Initial() && Marked(View()) && fresh(arena) && fresh(slots) && fresh(pages)
    {
      arena := new Trace[ARENA_CAP](_ => Trace(0, 0, 0, 0, false, []));
      slots := new int[SLOT_COUNT](_ => NO_TRACE);
      pages := new bool[PAGES](_ => false);
      used, codeUsed := 0, 0;
      new;
      assert slots[..] == Initial().slots;
      assert pages[..] == Initial().pages;
      assert View() == Initial();
      InitialInv();
    }

    method LookupTrace(eip: u32) returns (t: int)
      requires Shape() && Sized(View())
      ensures t == Lookup(View(), eip)
    {
      t := slots[SlotOf(eip)];
      if t < 0 || arena[t].eip != eip { t := NO_TRACE; }
    }

    /** The allocation and finalisation part of build. */
    method BuildTrace(eip: u32, c: Compiled) returns (ok: bool)
      requires Shape() && Emitted(c)
      modifies this`used, this`codeUsed, arena
      ensures Shape() && (View(), ok) == Build(old(View()), eip, c)
    {
      var host := (codeUsed + 15) / 16 * 16;
      if host + MAX_TRACE_BYTES > CODE_CAP { return false; }
      codeUsed := host + MAX_TRACE_BYTES;
      if used >= ARENA_CAP { return false; }
      var links := [];
      var start := if |c.exits| > 2 then |c.exits| - 2 else 0;
      for i := start to |c.exits|
        invariant |links| == i - start
        invariant forall j :: 0 <= j < |links| ==> links[j] == LinkSlots(c.exits, host)[j]
      {
        links := links + [Link(host + c.exits[i].offset, c.exits[i].target, false, host + c.exits[i].offset + 4)];
      }
      arena[used] := Trace(eip, eip, host, c.size, true, links);
      used := used + 1;
      codeUsed := host + Round16(c.size);
      assert links == LinkSlots(c.exits, host);
      assert arena[..used] == old(arena[..used]) + [Trace(eip, eip, host, c.size, true, links)];
      return true;
    }

    /** tcache.clear, cc.reset and arena.reset. */
    method FlushAll()
      requires Shape() && Sized(View())
      modifies this`used, this`codeUsed, arena, slots
      ensures Valid() && View() == Flush(old(View())) && Marked(View())
    {
      for x := 0 to SLOT_COUNT
        invariant forall k :: 0 <= k < x ==> slots[k] == NO_TRACE
        invariant forall k :: x <= k < SLOT_COUNT ==> slots[k] == old(slots[k])
        invariant used == old(used) && pages[..] == old(pages[..])
      {
        if slots[x] >= 0 {
          assert old(View()).slots[x] < used;
          arena[slots[x]] := arena[slots[x]].(valid := false);
          slots[x] := NO_TRACE;
        } else {
          assert old(View()).slots[x] == NO_TRACE;
        }
      }
      codeUsed := 0;
      used := 0;
      assert slots[..] == Flush(old(View())).slots;
      assert View() == Flush(old(View()));
      FlushKeepsInv(old(View()));
    }

    /** try_link_trace: patch each unlinked forward exit whose target is cached and valid. */
    method TryLinkTrace(t: nat)
      requires Shape() && Sized(View()) && t < used
      modifies arena
      ensures View() == TryLink(old(View()), t)
    {
      hide SlotOf;
      ghost var s := View();
      var n := |arena[t].links|;
      for i := 0 to n
        invariant |arena[t].links| == n && arena[t] == s.arena[t].(links := arena[t].links)
        invariant forall k :: 0 <= k < used && k != t ==> arena[k] == s.arena[k]
        invariant forall j :: 0 <= j < i ==> arena[t].links[j] == LinkIfPresent(s, s.arena[t].eip, s.arena[t].links[j])
        invariant forall j :: i <= j < n ==> arena[t].links[j] == s.arena[t].links[j]
      {
        var l := arena[t].links[i];
        if !l.linked && l.target > arena[t].eip {
          var k := slots[SlotOf(l.target)];
          assert s.slots[SlotOf(l.target)] == k;
          if k >= 0 && arena[k].eip == l.target && arena[k].valid {
            arena[t] := arena[t].(links := arena[t].links[i := l.(linked := true, dest := arena[k].host)]);
          }
        }
      }
      assert arena[t].links == WithLinks(s, s.arena[t]).links;
    }

    /** unlink_trace: reset every valid trace's exits into code for `eip`. */
    method UnlinkTrace(eip: u32)
      requires Shape()
      modifies arena
      ensures forall i :: 0 <= i < used ==> arena[i] == UnlinkFrom(old(arena[i]), eip)
    {
      for i := 0 to used
        invariant forall k :: 0 <= k < i ==> arena[k] == UnlinkFrom(old(arena[k]), eip)
        invariant forall k :: i <= k < used ==> arena[k] == old(arena[k])
      {
        if arena[i].valid {
          CutLinks(i, eip);
        }
      }
    }

    method CutLinks(i: nat, eip: u32)
      requires Shape() && i < used && arena[i].valid
      modifies arena
      ensures arena[i] == UnlinkFrom(old(arena[i]), eip)
      ensures forall k :: 0 <= k < used && k != i ==> arena[k] == old(arena[k])
    {
      ghost var t := arena[i];
      for j := 0 to |arena[i].links|
        invariant arena[i] == t.(links := arena[i].links) && |arena[i].links| == |t.links|
        invariant forall k :: 0 <= k < j ==> arena[i].links[k] == UnlinkFrom(t, eip).links[k]
        invariant forall k :: j <= k < |t.links| ==> arena[i].links[k] == t.links[k]
        invariant forall k :: 0 <= k < used && k != i ==> arena[k] == old(arena[k])
      {
        var l := arena[i].links[j];
        if l.linked && l.target == eip {
          arena[i] := arena[i].(links := arena[i].links[j := l.Cut()]);
        }
      }
      assert arena[i].links == UnlinkFrom(t, eip).links;
    }

    /** A trace dies: its own outbound links are reset and it becomes invalid. */
    method Kill(i: nat)
      requires Shape() && i < used
      modifies arena
      ensures arena[i] == Unlinked(old(arena[i]))
      ensures forall k :: 0 <= k < used && k != i ==> arena[k] == old(arena[k])
    {
      ghost var t := arena[i];
      for j := 0 to |arena[i].links|
        invariant arena[i] == t.(links := arena[i].links) && |arena[i].links| == |t.links|
        invariant forall k :: 0 <= k < j ==> arena[i].links[k] == Unlinked(t).links[k]
        invariant forall k :: j <= k < |t.links| ==> arena[i].links[k] == t.links[k]
        invariant forall k :: 0 <= k < used && k != i ==> arena[k] == old(arena[k])
      {
        var l := arena[i].links[j];
        if l.linked {
          arena[i] := arena[i].(links := arena[i].links[j := l.Cut()]);
        }
      }
      arena[i] := arena[i].(valid := false);
      assert arena[i].links == Unlinked(t).links;
    }

    method InvalidateCodePage(pa: u32)
      requires Valid() && Page(pa) < PAGES
      modifies arena, pages
      ensures Valid() && View() == Invalidate(old(View()), pa)
      ensures Marked(old(View())) ==> Marked(View())
    {
      hide SlotOf, Survivor, Inv, Marked;
      var p := Page(pa);
      ghost var s := View();
      InvParts(s);
      InvalidateKeepsInv(s, pa);
      if !pages[p] { return; }
      pages[p] := false;
      NothingScanned(s, p);
      for x := p * SLOTS_PER_PAGE to (p + 1) * SLOTS_PER_PAGE
        invariant slots[..] == s.slots && pages[..] == s.pages[p := false]
        invariant forall i: nat :: i < used ==> arena[i] == Survivor(s, i, p, x)
      {
        var k := slots[x];
        assert s.slots[x] == k;
        if k >= 0 {
          SurvivorFields(s, k, p, x);
          if arena[k].valid && Page(arena[k].codePa) == p {
            UnlinkTrace(arena[k].eip);
            Kill(k);
          }
        }
        forall i: nat | i < used ensures arena[i] == Survivor(s, i, p, x + 1) {
          hide UnlinkFrom, Unlinked;
          SurvivorStep(s, p, x, i);
        }
      }
      assert arena[..used] == Invalidate(s, pa).arena;
    }

    /** The run loop's work between two executed traces. */
    method Step(eip: u32, codePa: u32, code: Option<Compiled>, prev: int) returns (t: int)
      requires Valid() && (code.Some? ==> Emitted(code.value))
      modifies this`used, this`codeUsed, arena, slots, pages
      ensures Valid() && (View(), t) == Dispatch(old(View()), eip, codePa, code, prev)
      ensures Marked(old(View())) && codePa == eip ==> Marked(View())
    {
      hide SlotOf, Inv, Marked, Build, WithLinks, Install, LinkBoth, Lookup;
      ghost var s := View();
      InvParts(s);
      DispatchKeepsInv(s, eip, codePa, code, prev);
      t := LookupTrace(eip);
      if t >= 0 && arena[t].valid {
        LinkTraces(t, prev);
        return;
      }
      if code == None {
        FlushAll();
        return NO_TRACE;
      }
      var ok := BuildTrace(eip, code.value);
      var last := prev;
      if !ok {
        FlushAll();
        BuildAfterFlush(View(), eip, code.value);
        ok := BuildTrace(eip, code.value);
        last := NO_TRACE;
      }
      t := used - 1;
      InstallNewest(codePa, last);
    }

    /** Cache the newest trace, protect its page, link. */
    method InstallNewest(codePa: u32, last: int)
      requires Shape() && Sized(View()) && used > 0
      modifies arena, slots, pages
      ensures View() == Install(old(View()), codePa, last)
    {
      hide SlotOf;
      slots[SlotOf(arena[used - 1].eip)] := used - 1;
      if Page(codePa) < PAGES { pages[Page(codePa)] := true; }
      LinkTraces(used - 1, last);
    }

    method LinkTraces(t: nat, prev: int)
      requires Shape() && Sized(View()) && t < used
      modifies arena
      ensures View() == LinkBoth(old(View()), t, prev)
    {
      TryLinkTrace(t);
      if 0 <= prev < used && arena[prev].valid {
        TryLinkTrace(prev);
      }
    }

    /** The fault handler's search for the trace whose host code holds `rip`: the first match is the only one. */
    method FindByHost(rip: nat) returns (t: int)
      requires Valid()
      ensures t == NO_TRACE || (0 <= t < used && Holds(arena[t], rip))
      ensures t == NO_TRACE ==> forall x :: 0 <= x < SLOT_COUNT && slots[x] >= 0 ==> !Holds(View().arena[slots[x]], rip)
      ensures t != NO_TRACE ==> forall i :: 0 <= i < used && Holds(arena[i], rip) ==> i == t
    {
      hide SlotOf, Linking, Caching;
      for x := 0 to SLOT_COUNT
        invariant forall k :: 0 <= k < x && slots[k] >= 0 ==> !Holds(View().arena[slots[k]], rip)
      {
        t := slots[x];
        assert View().slots[x] == t;
        if t >= 0 && arena[t].host <= rip < arena[t].host + arena[t].size {
          forall i | 0 <= i < used && Holds(arena[i], rip) ensures i == t {
            assert View().arena[i] == arena[i] && View().arena[t] == arena[t];
            HostRangesDisjoint(View(), i, t, rip);
          }
          return;
        }
      }
      return NO_TRACE;
    }
  }

  lemma InvParts(s: State)
    requires Inv(s)
    ensures Sized(s) && Caching(s)
  {
  }

  lemma NothingScanned(s: State, p: nat)
    requires Sized(s)
    ensures forall i: nat :: i < |s.arena| ==> Survivor(s, i, p, p * SLOTS_PER_PAGE) == s.arena[i]
  {
    hide SlotOf;
    forall i: nat | i < |s.arena| ensures Survivor(s, i, p, p * SLOTS_PER_PAGE) == s.arena[i] {
      var t := s.arena[i];
      assert t.valid ==> Survivor(s, i, p, p * SLOTS_PER_PAGE).links == t.links;
    }
  }

  lemma BuildAfterFlush(s: State, eip: u32, c: Compiled)
    requires s.arena == [] && s.codeUsed == 0
    ensures Build(s, eip, c).1
  {
  }
}
