/** The scheduler as it runs: thread slots, processor context and queues updated in place. */
module SchedulerRuntime {
  import opened Words
  import Paging
  import opened Scheduler

  class XboxSystem {
    var ctx: Context
    const ram: array<u8>
    var threads: seq<Slot>
    var current: int
    var running: bool
    var started: bool
    var entryEip: u32
    var exitStub: u32
    var pendingThreads: seq<Request>
    var pendingDpcs: seq<u32>

    ghost predicate Valid() { ram.Length == Paging.RAM_SIZE }

    constructor (ctx: Context, ram: array<u8>, entryEip: u32, exitStub: u32)
      requires ram.Length == Paging.RAM_SIZE
      ensures Valid() && this.ram == ram
      ensures Abstract() == System(ctx, ram[..], [], -1, true, false, entryEip, exitStub, [], [])
    {
      this.ctx, this.ram, threads, current, running, started := ctx, ram, [], -1, true, false;
      this.entryEip, this.exitStub, pendingThreads, pendingDpcs := entryEip, exitStub, [], [];
    }

    ghost function Abstract(): System
      requires Valid()
      reads this, ram
    {
      System(ctx, ram[..], threads, current, running, started, entryEip, exitStub, pendingThreads, pendingDpcs)
    }

    /** save_thread. */
    method SaveThread(idx: int)
      modifies this`threads
      ensures threads == if 0 <= idx < |old(threads)| then old(threads)[idx := old(threads)[idx].(context := ctx)]
                         else old(threads)
    {
      if idx < 0 || idx >= |threads| { return; }
      threads := threads[idx := threads[idx].(context := ctx)];
    }

    /** restore_thread. */
    method RestoreThread(idx: int)
      modifies this`ctx
      ensures ctx == if 0 <= idx < |threads| then threads[idx].context else old(ctx)
    {
      if idx < 0 || idx >= |threads| { return; }
      ctx := threads[idx].context;
    }

    /** next_alive_thread: the first live thread in ring order after `from`, or -1 when none is alive. */
    method NextAliveThread(from: nat) returns (r: int)
      ensures r == NextAlive(threads, from)
    {
      var n := |threads|;
      var i := 1;
      while i <= n
        invariant 1 <= i && NextAlive(threads, from) == NextFrom(threads, from, i)
      {
        var idx := (from + i) % n;
        if threads[idx].alive { return idx; }
        i := i + 1;
      }
      return -1;
    }

    /** Turns requested threads into slots. */
    method PromotePending()
      requires Valid()
      modifies this`threads, this`pendingThreads, ram
      ensures Abstract() == Promote(old(Abstract()))
    {
      hide NewSlot, Stacked;
      while pendingThreads != []
        invariant AllStacked(ram[..], pendingThreads, exitStub) == AllStacked(old(ram[..]), old(pendingThreads), exitStub)
        invariant Promoted(threads, pendingThreads) == Promoted(old(threads), old(pendingThreads))
        decreases |pendingThreads|
      {
        var q := pendingThreads[0];
        pendingThreads := pendingThreads[1..];
        PushStart(q);
        threads := threads + [NewSlot(threads, q)];
      }
    }

    /** The argument and the return address of a new thread, onto its stack. */
    method PushStart(q: Request)
      requires Valid()
      modifies ram
      ensures ram[..] == Stacked(old(ram[..]), q, exitStub)
    {
      var esp := q.StackTop() - 4;
      if esp + 4 <= Paging.RAM_SIZE { Store32(ram, esp, q.startContext); }
      esp := esp - 4;
      if esp + 4 <= Paging.RAM_SIZE { Store32(ram, esp, exitStub); }
    }

    /** One run of the executor, as far as the scheduler sees it. */
    method Execute(o: Outcome)
      requires Valid()
      modifies this`ctx, this`pendingThreads, this`pendingDpcs, ram
      ensures Abstract() == Executed(old(Abstract()), o)
    {
      ctx := o.context;
      forall a | 0 <= a < ram.Length { ram[a] := o.ram[a]; }
      assert ram[..] == o.ram;
      pendingThreads, pendingDpcs := pendingThreads + o.threads, pendingDpcs + o.dpcs;
    }

    method FirePendingDpcs(runs: seq<Outcome>)
      requires Valid() && FireDpcs(Abstract(), runs).Some?
      modifies this`ctx, this`pendingThreads, this`pendingDpcs, ram
      ensures FireDpcs(old(Abstract()), runs) == Some(Abstract())
    {
      var left := runs;
      while pendingDpcs != []
        invariant FireDpcs(Abstract(), left) == FireDpcs(old(Abstract()), runs)
        decreases |left|
      {
        pendingDpcs := pendingDpcs[1..];
        Execute(left[0]);
        left := left[1..];
      }
    }

    /** run_step. */
    method Step(input: Input) returns (ok: bool, ghost event: Option<Event>)
      requires Valid() && RunStep(Abstract(), input).Some?
      modifies this, ram
      ensures var r := RunStep(old(Abstract()), input).value; Abstract() == r.system && ok == r.ok && event == r.event
    {
      hide NewSlot, MainSlot, NextFrom, FireDpcs;
      event := None;
      if !running { return false, None; }
      PromotePending();
      StartMain();
      FirePendingDpcs(input.dpcRuns);
      ok, event := RunCurrent(input.run);
    }

    method StartMain()
      requires Valid()
      modifies this`threads, this`current, this`started
      ensures Abstract() == InitMain(old(Abstract()))
    {
      if threads == [] {
        threads := [Slot(ctx.(eip := if started then ctx.eip else entryEip), true)];
        current := 0;
      }
      started := true;
    }

    /** The second half of run_step: the current thread's turn and what follows from how it ended. */
    method RunCurrent(o: Outcome) returns (ok: bool, ghost event: Option<Event>)
      requires Valid()
      modifies this, ram
      ensures var r := RunThread(old(Abstract()), o); Abstract() == r.system && ok == r.ok && event == r.event
    {
      hide NewSlot, NextAlive, Chosen, Concluded;
      event := None;
      var cur := Choose();
      if cur < 0 { running := false; return false, None; }
      current := cur;
      RestoreThread(cur);
      event := Some(Event(cur, ctx, o.context));
      Execute(o);
      SaveThread(cur);
      ok := Conclude(cur, o, event);
    }

    method Choose() returns (cur: int)
      requires Valid()
      ensures cur == Chosen(Abstract())
    {
      cur := current;
      if cur < 0 || cur >= |threads| || !threads[cur].alive {
        cur := NextAliveThread(if cur >= 0 then cur else 0);
      }
    }

    method Conclude(cur: nat, o: Outcome, ghost event: Option<Event>) returns (ok: bool)
      requires Valid() && cur < |threads| && current == cur && ctx == o.context
      modifies this, ram
      ensures var r := Concluded(old(Abstract()), cur, o, event); Abstract() == r.system && ok == r.ok
    {
      hide Exited, NextAlive;
      if o.stop != Normal { running := false; return false; }
      if o.halted && (ctx.eip == 0xFFFF_FFFF || ctx.eip == exitStub) {
        ok := Exit(cur, event);
        return;
      }
      if o.halted || |threads| > 1 {
        var next := NextAliveThread(cur);
        if next >= 0 && next != cur { current := next; }
      }
      if Paging.RAM_SIZE <= ctx.eip < 0xF000_0000 { running := false; return false; }
      return true;
    }

    /** The thread is done: the requests it left become threads, and the next live one takes over. */
    method Exit(cur: nat, ghost event: Option<Event>) returns (ok: bool)
      requires Valid() && cur < |threads|
      modifies this, ram
      ensures var r := Exited(old(Abstract()), cur, event); Abstract() == r.system && ok == r.ok
    {
      hide NewSlot, NextAlive, AllStacked;
      threads := threads[cur := threads[cur].(alive := false)];
      PromotePending();
      var next := NextAliveThread(cur);
      if next < 0 { running := false; return false; }
      current := next;
      RestoreThread(next);
      return true;
    }
  }
}
