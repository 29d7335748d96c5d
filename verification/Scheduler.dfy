/** The cooperative round-robin thread scheduler. What the guest does while it runs is a parameter. */
module Scheduler {
  import opened Words
  import Paging

  const THREAD_STACK_SIZE := 0x1_0000
  const FALLBACK_STACK_TOP: u32 := 0x00C0_0000
  const MAIN_FS_BASE: u32 := 0x00D0_0000

  datatype Context = Context(gp: seq<u32>, eip: u32, eflags: u32, fsBase: u32)

  datatype Slot = Slot(context: Context, alive: bool)

  datatype Stop = Normal | DivideError | InvalidOpcode

  /** A stack inside the heap, which ends with RAM, or zero when the heap is exhausted. */
  type StackBase = x: int | 0 <= x <= Paging.RAM_SIZE - 0x1_0000

  /** A thread asked for by the guest, with the stack the heap gives it. */
  datatype Request = Request(startRoutine: u32, startContext: u32, stackBase: StackBase) {
    function StackTop(): u32 { if stackBase != 0 then stackBase + THREAD_STACK_SIZE else FALLBACK_STACK_TOP }
  }

  /** How one run of the executor ends, and what the guest stored and queued meanwhile. */
  datatype Outcome = Outcome(
    context: Context, halted: bool, stop: Stop, ram: Paging.Ram, threads: seq<Request>, dpcs: seq<u32>)

  /** What the executor does during one step: for each deferred call that fires, then for the thread. */
  datatype Input = Input(dpcRuns: seq<Outcome>, run: Outcome)

  datatype System = System(
    ctx: Context, ram: Paging.Ram, threads: seq<Slot>, current: int, running: bool, started: bool, entryEip: u32, exitStub: u32,
    pendingThreads: seq<Request>, pendingDpcs: seq<u32>)

  // ---- The next thread ----

  function NextFrom(threads: seq<Slot>, from: nat, i: nat): (r: int)
    requires i >= 1
    ensures r == -1 || (0 <= r < |threads| && threads[r].alive)
    decreases |threads| + 1 - i
  {
    if i > |threads| then -1
    else
      var idx := (from + i) % |threads|;
      if threads[idx].alive then idx else NextFrom(threads, from, i + 1)
  }

  function NextAlive(threads: seq<Slot>, from: nat): (r: int)
    ensures r == -1 || (0 <= r < |threads| && threads[r].alive)
  {
    NextFrom(threads, from, 1)
  }

  /** How far ahead in the ring t is of a. */
  function Gap(a: nat, t: nat, n: nat): nat
    requires a < n && t < n
  {
    if a <= t then t - a else t + n - a
  }

  lemma GapReaches(a: nat, t: nat, n: nat)
    requires a < n && t < n
    ensures (a + Gap(a, t, n)) % n == t
  {
    if a > t { assert (t + n) % n == t by { Around(t, n); } }
  }

  lemma Around(x: nat, n: nat)
    requires x < n
    ensures (x + n) % n == x && x % n == x
  {
  }

  lemma {:induction false} SearchFinds(threads: seq<Slot>, from: nat, i: nat, t: nat)
    requires from < |threads| && t < |threads| && threads[t].alive && from != t
    requires 1 <= i <= Gap(from, t, |threads|)
    ensures var r := NextFrom(threads, from, i);
      0 <= r < |threads| && Gap(r, t, |threads|) < Gap(from, t, |threads|)
    decreases Gap(from, t, |threads|) - i
  {
    var n := |threads|;
    var idx := (from + i) % n;
    Steps(from, i, t, n);
    if !threads[idx].alive {
      GapReaches(from, t, n);
      SearchFinds(threads, from, i + 1, t);
    }
  }

  /** Going i places along the ring shortens the way to t by i. */
  lemma Steps(a: nat, i: nat, t: nat, n: nat)
    requires a < n && t < n && 1 <= i <= Gap(a, t, n)
    ensures Gap((a + i) % n, t, n) == Gap(a, t, n) - i
  {
    if a + i < n { Around(a + i, n); } else { Around(a + i - n, n); }
  }

  // ---- Creating threads ----

  function NewSlot(threads: seq<Slot>, q: Request): Slot {
    var fs := if threads == [] then MAIN_FS_BASE else threads[0].context.fsBase;
    Slot(Context([0, 0, 0, 0, q.StackTop() - 8, 0, 0, 0], q.startRoutine, 0x202, fs), true)
  }

  function Promoted(threads: seq<Slot>, requests: seq<Request>): (r: seq<Slot>)
    ensures |r| == |threads| + |requests| && r[..|threads|] == threads
    decreases |requests|
  {
    if requests == [] then threads
    else Promoted(threads + [NewSlot(threads, requests[0])], requests[1..])
  }

  /** The two words a new thread finds on its stack: its return address, the exit stub, and its argument. */
  function Stacked(ram: Paging.Ram, q: Request, exitStub: u32): Paging.Ram {
    Write32(Write32(ram, q.StackTop() - 4, q.startContext), q.StackTop() - 8, exitStub)
  }

  function AllStacked(ram: Paging.Ram, requests: seq<Request>, exitStub: u32): Paging.Ram
    decreases |requests|
  {
    if requests == [] then ram else AllStacked(Stacked(ram, requests[0], exitStub), requests[1..], exitStub)
  }

  function Promote(s: System): System {
    s.(threads := Promoted(s.threads, s.pendingThreads),
       ram := AllStacked(s.ram, s.pendingThreads, s.exitStub),
       pendingThreads := [])
  }

  function MainSlot(s: System): Slot {
    Slot(if s.started then s.ctx else s.ctx.(eip := s.entryEip), true)
  }

  function InitMain(s: System): System {
    if s.threads == [] then s.(threads := [MainSlot(s)], current := 0, started := true) else s.(started := true)
  }

  // ---- run_step ----

  function Executed(s: System, o: Outcome): System {
    s.(ctx := o.context, ram := o.ram, pendingThreads := s.pendingThreads + o.threads, pendingDpcs := s.pendingDpcs + o.dpcs)
  }

  /** Fires deferred calls until none is pending. None: the list ends before the loop does. */
  function FireDpcs(s: System, runs: seq<Outcome>): (r: Option<System>)
    ensures r.Some? ==> var s' := r.value;
      s'.threads == s.threads && s'.current == s.current && s'.running == s.running && s'.started == s.started
    decreases |runs|
  {
    if s.pendingDpcs == [] then Some(s)
    else if runs == [] then None
    else FireDpcs(Executed(s.(pendingDpcs := s.pendingDpcs[1..]), runs[0]), runs[1..])
  }

  /** Thread `thread` was given the registers `input` and left `output`. */
  datatype Event = Event(thread: nat, input: Context, output: Context)

  datatype Step = Step(system: System, event: Option<Event>, ok: bool)

  function Chosen(s: System): (r: int)
    ensures r == -1 || (0 <= r < |s.threads| && s.threads[r].alive)
  {
    if 0 <= s.current < |s.threads| && s.threads[s.current].alive then s.current
    else NextAlive(s.threads, if s.current >= 0 then s.current else 0)
  }

  function RunStep(s: System, input: Input): Option<Step> {
    if !s.running then Some(Step(s, None, false))
    else
      match FireDpcs(InitMain(Promote(s)), input.dpcRuns)
      case None => None
      case Some(s1) => Some(RunThread(s1, input.run))
  }

  function RunThread(s: System, o: Outcome): Step {
    var cur := Chosen(s);
    if cur < 0 then Step(s.(running := false), None, false)
    else
      Concluded(AfterRun(s, cur, o), cur, o, Some(Event(cur, s.threads[cur].context, o.context)))
  }

  /** The thread has run and its registers are saved. */
  function AfterRun(s: System, cur: nat, o: Outcome): System
    requires cur < |s.threads|
  {
    Executed(s.(threads := s.threads[cur := s.threads[cur].(context := o.context)], current := cur), o)
  }

  predicate ThreadExits(s: System, o: Outcome) {
    o.halted && (o.context.eip == 0xFFFF_FFFF || o.context.eip == s.exitStub)
  }

  /** What follows from how the run ended. */
  function Concluded(s: System, cur: nat, o: Outcome, event: Option<Event>): (r: Step)
    requires cur < |s.threads|
    ensures r.event == event
  {
    if o.stop != Normal then Step(s.(running := false), event, false)
    else if ThreadExits(s, o) then Exited(s, cur, event)
    else Yielded(s, cur, o, event)
  }

  function Yielded(s: System, cur: nat, o: Outcome, event: Option<Event>): (r: Step)
    requires cur < |s.threads|
    ensures r.event == event
  {
    var next := if o.halted || |s.threads| > 1 then NextAlive(s.threads, cur) else -1;
    var s1 := if next >= 0 then s.(current := next) else s;
    if Paging.RAM_SIZE <= o.context.eip < 0xF000_0000 then Step(s1.(running := false), event, false)
    else Step(s1, event, true)
  }

  function Exited(s: System, cur: nat, event: Option<Event>): (r: Step)
    requires cur < |s.threads|
    ensures r.event == event
  {
    var s1 := Promote(s.(threads := s.threads[cur := s.threads[cur].(alive := false)]));
    var next := NextAlive(s1.threads, cur);
    if next < 0 then Step(s1.(running := false), event, false)
    else Step(s1.(current := next, ctx := s1.threads[next].context), event, true)
  }

  // ---- Isolation ----

  /** A step gives a thread the registers of its slot, leaves in the slot what the run left, and touches no other
      slot; a finished thread is never chosen again. */
  lemma StepKeepsSlots(s: System, input: Input, t: nat)
    requires RunStep(s, input).Some? && t < |s.threads|
    ensures var r := RunStep(s, input).value;
      && t < |r.system.threads|
      && (if r.event.Some? && r.event.value.thread == t
          then s.threads[t].alive && r.event.value.input == s.threads[t].context
               && r.system.threads[t].context == r.event.value.output
          else r.system.threads[t] == s.threads[t])
      && (!s.threads[t].alive ==> !r.system.threads[t].alive)
  {
    hide Chosen, NextAlive, NewSlot, MainSlot;
    if s.running {
      PrefixAt(s.threads, s.pendingThreads, t);
      var s1 := FireDpcs(InitMain(Promote(s)), input.dpcRuns).value;
      assert s1.threads[t] == s.threads[t];
      RunKeepsSlots(s1, input.run, t);
    }
  }

  lemma PrefixAt(threads: seq<Slot>, requests: seq<Request>, t: nat)
    requires t < |threads|
    ensures Promoted(threads, requests)[t] == threads[t]
  {
    assert Promoted(threads, requests)[..|threads|][t] == threads[t];
  }

  lemma RunKeepsSlots(s: System, o: Outcome, t: nat)
    requires t < |s.threads|
    ensures var r := RunThread(s, o);
      && t < |r.system.threads|
      && (if r.event.Some? && r.event.value.thread == t
          then s.threads[t].alive && r.event.value.input == s.threads[t].context
               && r.system.threads[t].context == r.event.value.output
          else r.system.threads[t] == s.threads[t])
      && (r.event.Some? && r.event.value.thread == t ==> r.event.value.output == o.context)
  {
    hide Chosen, Concluded, Executed;
    var cur := Chosen(s);
    if cur >= 0 {
      ExecutedKeepsThreads(s.(threads := s.threads[cur := s.threads[cur].(context := o.context)], current := cur), o);
      ConcludedKeepsSlots(AfterRun(s, cur, o), cur, o, Some(Event(cur, s.threads[cur].context, o.context)), t);
    }
  }

  lemma ExecutedKeepsThreads(s: System, o: Outcome)
    ensures Executed(s, o).threads == s.threads && Executed(s, o).current == s.current && Executed(s, o).running == s.running
  {
  }

  lemma ConcludedKeepsSlots(s: System, cur: nat, o: Outcome, event: Option<Event>, t: nat)
    requires cur < |s.threads| && t < |s.threads|
    ensures var r := Concluded(s, cur, o, event);
      && r.event == event && t < |r.system.threads| && r.system.threads[t].context == s.threads[t].context
      && (t != cur ==> r.system.threads[t] == s.threads[t])
  {
    hide NextAlive, NewSlot;
    PrefixAt(s.threads[cur := s.threads[cur].(alive := false)], s.pendingThreads, t);
  }

  /** The steps of a run, up to a step whose deferred calls never end. */
  function Trace(s: System, inputs: seq<Input>): seq<Step>
    decreases |inputs|
  {
    if inputs == [] then []
    else
      match RunStep(s, inputs[0])
      case None => []
      case Some(r) => [r] + Trace(r.system, inputs[1..])
  }

  predicate Runs(r: Step, t: nat) { r.event.Some? && r.event.value.thread == t }

  /** A thread's first turn starts from its slot, whatever other threads and deferred calls run before. */
  lemma {:induction false} FirstTurn(s: System, inputs: seq<Input>, t: nat, j: nat)
    requires t < |s.threads| && j < |Trace(s, inputs)| && Runs(Trace(s, inputs)[j], t)
    requires forall k :: 0 <= k < j ==> !Runs(Trace(s, inputs)[k], t)
    ensures Trace(s, inputs)[j].event.value.input == s.threads[t].context && s.threads[t].alive
    decreases j
  {
    hide RunStep;
    var r := RunStep(s, inputs[0]).value;
    StepKeepsSlots(s, inputs[0], t);
    if j > 0 {
      assert !Runs(Trace(s, inputs)[0], t);
      var rest := Trace(r.system, inputs[1..]);
      forall k | 0 <= k < j - 1 ensures !Runs(rest[k], t) {
        assert Trace(s, inputs)[k + 1] == rest[k];
      }
      FirstTurn(r.system, inputs[1..], t, j - 1);
    }
  }

  /** Isolation: between two turns of a thread nothing changes its registers, EIP, EFLAGS and FS base. */
  lemma {:induction false} TurnsConnect(s: System, inputs: seq<Input>, t: nat, i: nat, j: nat)
    requires i < j < |Trace(s, inputs)| && Runs(Trace(s, inputs)[i], t) && Runs(Trace(s, inputs)[j], t)
    requires forall k :: i < k < j ==> !Runs(Trace(s, inputs)[k], t)
    ensures Trace(s, inputs)[j].event.value.input == Trace(s, inputs)[i].event.value.output
    decreases i
  {
    hide RunStep;
    var r := RunStep(s, inputs[0]).value;
    var rest := Trace(r.system, inputs[1..]);
    if i == 0 {
      TurnLeavesSlot(s, inputs[0], t);
      forall k | 0 <= k < j - 1 ensures !Runs(rest[k], t) {
        assert Trace(s, inputs)[k + 1] == rest[k];
      }
      FirstTurn(r.system, inputs[1..], t, j - 1);
    } else {
      forall k | i - 1 < k < j - 1 ensures !Runs(rest[k], t) {
        assert Trace(s, inputs)[k + 1] == rest[k];
      }
      TurnsConnect(r.system, inputs[1..], t, i - 1, j - 1);
    }
  }

  lemma TurnLeavesSlot(s: System, input: Input, t: nat)
    requires RunStep(s, input).Some? && Runs(RunStep(s, input).value, t)
    ensures var r := RunStep(s, input).value;
      t < |r.system.threads| && r.system.threads[t].context == r.event.value.output
  {
    hide Chosen, NextAlive, NewSlot, MainSlot;
    var s1 := FireDpcs(InitMain(Promote(s)), input.dpcRuns).value;
    RunKeepsSlots(s1, input.run, t) by { assert t < |s1.threads| by { ChosenIsThread(s1, input.run, t); } }
  }

  lemma ChosenIsThread(s: System, o: Outcome, t: nat)
    requires Runs(RunThread(s, o), t)
    ensures t < |s.threads|
  {
    hide NextAlive;
  }

  // ---- Bounded waiting ----

  /** Between steps, once threads exist: the current thread is alive and nothing waits to become a thread. */
  predicate Settled(s: System) {
    s.running && 0 <= s.current < |s.threads| && s.threads[s.current].alive && s.pendingThreads == []
  }

  /** The guest creates no threads. */
  predicate Quiet(input: Input) {
    input.run.threads == [] && forall i :: 0 <= i < |input.dpcRuns| ==> input.dpcRuns[i].threads == []
  }

  lemma {:induction false} QuietDpcs(s: System, runs: seq<Outcome>)
    requires FireDpcs(s, runs).Some? && s.pendingThreads == []
    requires forall i :: 0 <= i < |runs| ==> runs[i].threads == []
    ensures FireDpcs(s, runs).value.pendingThreads == []
    decreases |runs|
  {
    if s.pendingDpcs != [] {
      QuietDpcs(Executed(s.(pendingDpcs := s.pendingDpcs[1..]), runs[0]), runs[1..]);
    }
  }

  /** A step runs the current thread and moves on, closer to every other live thread. */
  lemma StepMovesOn(s: System, input: Input, t: nat)
    requires Settled(s) && Quiet(input) && t < |s.threads| && s.threads[t].alive
    requires RunStep(s, input).Some? && RunStep(s, input).value.ok
    ensures var r := RunStep(s, input).value;
      && Runs(r, s.current) && Settled(r.system) && |r.system.threads| == |s.threads|
      && (t != s.current ==>
            r.system.threads[t].alive && Gap(r.system.current, t, |s.threads|) < Gap(s.current, t, |s.threads|))
  {
    hide NextFrom, NewSlot, MainSlot;
    assert Promoted(s.threads, []) == s.threads;
    QuietDpcs(InitMain(Promote(s)), input.dpcRuns);
    var s1 := FireDpcs(InitMain(Promote(s)), input.dpcRuns).value;
    ThreadMovesOn(s1, input.run, t);
  }

  lemma ThreadMovesOn(s: System, o: Outcome, t: nat)
    requires Settled(s) && o.threads == [] && t < |s.threads| && s.threads[t].alive && RunThread(s, o).ok
    ensures var r := RunThread(s, o);
      && Runs(r, s.current) && Settled(r.system) && |r.system.threads| == |s.threads|
      && (t != s.current ==>
            r.system.threads[t].alive && Gap(r.system.current, t, |s.threads|) < Gap(s.current, t, |s.threads|))
  {
    hide NextAlive, NewSlot, Gap, Concluded, Executed;
    var cur := s.current;
    var s1 := AfterRun(s, cur, o);
    ExecutedKeepsThreads(s.(threads := s.threads[cur := s.threads[cur].(context := o.context)], current := cur), o);
    NoNewThreads(s, cur, o);
    ConcludedMovesOn(s1, o, Some(Event(cur, s.threads[cur].context, o.context)), t);
  }

  lemma NoNewThreads(s: System, cur: nat, o: Outcome)
    requires cur < |s.threads| && o.threads == [] && s.pendingThreads == []
    ensures AfterRun(s, cur, o).pendingThreads == []
  {
  }

  lemma ConcludedMovesOn(s: System, o: Outcome, event: Option<Event>, t: nat)
    requires Settled(s) && t < |s.threads| && s.threads[t].alive && Concluded(s, s.current, o, event).ok
    ensures var r := Concluded(s, s.current, o, event);
      && r.event == event && Settled(r.system) && |r.system.threads| == |s.threads|
      && (t != s.current ==>
            r.system.threads[t].alive && Gap(r.system.current, t, |s.threads|) < Gap(s.current, t, |s.threads|))
  {
    hide NextFrom, NewSlot, Gap;
    var cur, n := s.current, |s.threads|;
    if ThreadExits(s, o) {
      var dead := s.threads[cur := s.threads[cur].(alive := false)];
      assert Promoted(dead, []) == dead;
      if t != cur {
        GapPositive(cur, t, n);
        SearchFinds(dead, cur, 1, t);
      }
    } else if t != cur {
      GapPositive(cur, t, n);
      SearchFinds(s.threads, cur, 1, t);
    }
  }

  lemma GapPositive(a: nat, t: nat, n: nat)
    requires a < n && t < n && a != t
    ensures 1 <= Gap(a, t, n) < n
  {
  }

  /** Bounded waiting: with a fixed thread list a live thread has its turn within as many steps as it is places
      ahead of the current one, plus one; never more than there are threads. */
  lemma {:induction false} TurnComes(s: System, inputs: seq<Input>, t: nat) returns (k: nat)
    requires Settled(s) && t < |s.threads| && s.threads[t].alive
    requires forall i :: 0 <= i < |inputs| ==> Quiet(inputs[i])
    requires Gap(s.current, t, |s.threads|) < |Trace(s, inputs)|
    requires forall i :: 0 <= i <= Gap(s.current, t, |s.threads|) ==> Trace(s, inputs)[i].ok
    ensures k <= Gap(s.current, t, |s.threads|) < |s.threads| && Runs(Trace(s, inputs)[k], t)
    decreases Gap(s.current, t, |s.threads|)
  {
    hide RunStep, Gap, Quiet;
    var n := |s.threads|;
    GapBelow(s.current, t, n);
    assert Quiet(inputs[0]) && Trace(s, inputs)[0].ok;
    StepMovesOn(s, inputs[0], t);
    if t == s.current {
      k := 0;
    } else {
      var r := RunStep(s, inputs[0]).value;
      var rest := Trace(r.system, inputs[1..]);
      forall i | 0 <= i <= Gap(r.system.current, t, n) ensures i < |rest| && rest[i].ok {
        assert Trace(s, inputs)[i + 1].ok;
      }
      var m := TurnComes(r.system, inputs[1..], t);
      k := m + 1;
    }
  }

  lemma GapBelow(a: nat, t: nat, n: nat)
    requires a < n && t < n
    ensures 0 <= Gap(a, t, n) < n
  {
  }

  // ---- The first call ----

  /** The registers the boot code prepared become thread 0 and run first, exactly when no thread was requested
      before the first call; otherwise the requested threads take the slots. */
  lemma MainThreadRuns(s: System, input: Input)
    requires s.running && s.threads == [] && s.current == -1 && !s.started && RunStep(s, input).Some?
    ensures var r := RunStep(s, input).value;
      && r.event.Some?
      && (s.pendingThreads == [] ==> r.event.value.thread == 0 && r.event.value.input == s.ctx.(eip := s.entryEip))
      && (s.pendingThreads != [] ==>
            r.event.value.thread < |s.pendingThreads|
            && r.event.value.input == Promoted([], s.pendingThreads)[r.event.value.thread].context)
  {
    hide NewSlot;
    var s1 := FireDpcs(InitMain(Promote(s)), input.dpcRuns).value;
    if s.pendingThreads != [] {
      AllPromoted([], s.pendingThreads);
      var n := |s1.threads|;
      assert 0 <= 1 % n < n;
      assert NextAlive(s1.threads, 0) == 1 % n;
    }
  }

  lemma {:induction false} AllPromoted(threads: seq<Slot>, requests: seq<Request>)
    requires forall i :: 0 <= i < |threads| ==> threads[i].alive
    ensures forall i :: 0 <= i < |Promoted(threads, requests)| ==> Promoted(threads, requests)[i].alive
    decreases |requests|
  {
    if requests != [] {
      AllPromoted(threads + [NewSlot(threads, requests[0])], requests[1..]);
    }
  }

  /** A requested thread starts at its routine, on the stack it was given, with interrupts enabled and the first
      thread's FS base. */
  lemma {:induction false} RequestedThreadStarts(threads: seq<Slot>, requests: seq<Request>, i: nat)
    requires i < |requests|
    ensures var slot, q := Promoted(threads, requests)[|threads| + i], requests[i];
      && slot.alive && slot.context.eip == q.startRoutine && slot.context.eflags == 0x202
      && slot.context.gp == [0, 0, 0, 0, if q.stackBase == 0 then 0xBF_FFF8 else q.stackBase + 0xFFF8, 0, 0, 0]
      && slot.context.fsBase == (if threads == [] then 0xD0_0000 else threads[0].context.fsBase)
    decreases |requests|
  {
    var more := threads + [NewSlot(threads, requests[0])];
    if i == 0 {
      PrefixAt(more, requests[1..], |threads|);
    } else {
      hide NewSlot;
      NewSlotFs(threads, requests[0]);
      RequestedThreadStarts(more, requests[1..], i - 1);
    }
  }

  lemma NewSlotFs(threads: seq<Slot>, q: Request)
    ensures NewSlot(threads, q).context.fsBase == (if threads == [] then MAIN_FS_BASE else threads[0].context.fsBase)
  {
  }

  predicate StacksApart(q: Request, q': Request) {
    q.StackTop() <= q'.StackTop() - 8 || q'.StackTop() <= q.StackTop() - 8
  }

  /** And finds the exit stub as its return address with its argument above, unless a later request shares its stack. */
  lemma {:induction false} RequestedThreadStack(ram: Paging.Ram, requests: seq<Request>, exitStub: u32, i: nat)
    requires i < |requests| && forall j :: i < j < |requests| ==> StacksApart(requests[i], requests[j])
    ensures var m, esp := AllStacked(ram, requests, exitStub), requests[i].StackTop() - 8;
      Read32(m, esp) == exitStub && Read32(m, esp + 4) == requests[i].startContext
    decreases |requests|
  {
    hide Read32, Write32;
    var q := requests[0];
    if i == 0 {
      ReadAfterWrite(Write32(ram, q.StackTop() - 4, q.startContext), q.StackTop() - 8, exitStub, q.StackTop() - 8);
      ReadAfterWrite(Write32(ram, q.StackTop() - 4, q.startContext), q.StackTop() - 8, exitStub, q.StackTop() - 4);
      ReadAfterWrite(ram, q.StackTop() - 4, q.startContext, q.StackTop() - 4);
      StackKept(Stacked(ram, q, exitStub), requests[1..], exitStub, q);
    } else {
      RequestedThreadStack(Stacked(ram, q, exitStub), requests[1..], exitStub, i - 1);
    }
  }

  lemma {:induction false} StackKept(ram: Paging.Ram, requests: seq<Request>, exitStub: u32, q: Request)
    requires forall j :: 0 <= j < |requests| ==> StacksApart(q, requests[j])
    ensures var m := AllStacked(ram, requests, exitStub);
      && Read32(m, q.StackTop() - 8) == Read32(ram, q.StackTop() - 8)
      && Read32(m, q.StackTop() - 4) == Read32(ram, q.StackTop() - 4)
    decreases |requests|
  {
    hide Read32, Write32;
    if requests != [] {
      var p := requests[0];
      assert StacksApart(q, p);
      var m := Write32(ram, p.StackTop() - 4, p.startContext);
      ReadAfterWrite(ram, p.StackTop() - 4, p.startContext, q.StackTop() - 8);
      ReadAfterWrite(ram, p.StackTop() - 4, p.startContext, q.StackTop() - 4);
      ReadAfterWrite(m, p.StackTop() - 8, exitStub, q.StackTop() - 8);
      ReadAfterWrite(m, p.StackTop() - 8, exitStub, q.StackTop() - 4);
      StackKept(Stacked(ram, p, exitStub), requests[1..], exitStub, q);
    }
  }
}
