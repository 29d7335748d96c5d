/** What one scheduler step does, from the outside: who runs, who lives on, who is next, and when the system stops. */
module SchedulerLaws {
  import opened Words
  import Paging
  import opened Scheduler

  // ---- Deferred calls ----

  /** The threads and the deferred calls that runs ask for, in order. */
  function Requests(runs: seq<Outcome>): seq<Request>
    decreases |runs|
  {
    if runs == [] then [] else runs[0].threads + Requests(runs[1..])
  }

  function Calls(runs: seq<Outcome>): nat
    decreases |runs|
  {
    if runs == [] then 0 else |runs[0].dpcs| + Calls(runs[1..])
  }

  /** Deferred calls fire until there have been as many runs as calls, those that fire on the way included. */
  predicate FiresExactly(pending: nat, runs: seq<Outcome>, k: nat) {
    k <= |runs| && k == pending + Calls(runs[..k]) && forall j :: 0 <= j < k ==> j < pending + Calls(runs[..j])
  }

  /** The state after k of the runs: registers and memory of the last, the threads all of them asked for, no calls left. */
  function AfterCalls(s: System, runs: seq<Outcome>, k: nat): System
    requires k <= |runs|
  {
    s.(ctx := if k == 0 then s.ctx else runs[k - 1].context, ram := if k == 0 then s.ram else runs[k - 1].ram,
       pendingThreads := s.pendingThreads + Requests(runs[..k]), pendingDpcs := [])
  }

  lemma {:induction false} FireOutcome(s: System, runs: seq<Outcome>) returns (k: nat)
    requires FireDpcs(s, runs).Some?
    ensures FiresExactly(|s.pendingDpcs|, runs, k)
    ensures FireDpcs(s, runs).value == AfterCalls(s, runs, k)
    decreases |runs|
  {
    hide FiresExactly, AfterCalls, Executed;
    if s.pendingDpcs == [] {
      k := 0;
      NoneFires(s, runs);
    } else {
      var s1 := Executed(s.(pendingDpcs := s.pendingDpcs[1..]), runs[0]);
      var m := FireOutcome(s1, runs[1..]);
      k := m + 1;
      CallsLeft(s, runs[0]);
      FiresOneMore(|s.pendingDpcs|, runs, m);
      StateOneMore(s, runs, m);
    }
  }

  lemma CallsLeft(s: System, o: Outcome)
    requires s.pendingDpcs != []
    ensures |Executed(s.(pendingDpcs := s.pendingDpcs[1..]), o).pendingDpcs| == |s.pendingDpcs| - 1 + |o.dpcs|
  {
  }

  lemma StateOneMore(s: System, runs: seq<Outcome>, m: nat)
    requires s.pendingDpcs != [] && runs != [] && m < |runs|
    ensures AfterCalls(Executed(s.(pendingDpcs := s.pendingDpcs[1..]), runs[0]), runs[1..], m) == AfterCalls(s, runs, m + 1)
  {
    var rest := runs[1..];
    assert runs[..m + 1][0] == runs[0] && runs[..m + 1][1..] == rest[..m];
    assert (s.pendingThreads + runs[0].threads) + Requests(rest[..m]) == s.pendingThreads + (runs[0].threads + Requests(rest[..m]));
  }

  lemma NoneFires(s: System, runs: seq<Outcome>)
    requires s.pendingDpcs == []
    ensures FiresExactly(0, runs, 0) && AfterCalls(s, runs, 0) == s
  {
    assert s.pendingThreads + Requests(runs[..0]) == s.pendingThreads;
  }

  lemma FiresOneMore(pending: nat, runs: seq<Outcome>, m: nat)
    requires runs != [] && pending > 0 && FiresExactly(pending - 1 + |runs[0].dpcs|, runs[1..], m)
    ensures FiresExactly(pending, runs, m + 1)
  {
    var rest := runs[1..];
    forall j | 1 <= j <= m + 1 ensures runs[..j][0] == runs[0] && runs[..j][1..] == rest[..j - 1] {
    }
    forall j | 0 <= j < m + 1 ensures j < pending + Calls(runs[..j]) {
      if j > 0 { assert j - 1 < pending - 1 + |runs[0].dpcs| + Calls(rest[..j - 1]); }
    }
  }

  lemma {:induction false} FireNeverEnds(s: System, runs: seq<Outcome>)
    requires FireDpcs(s, runs).None?
    ensures forall j :: 0 <= j <= |runs| ==> j < |s.pendingDpcs| + Calls(runs[..j])
    decreases |runs|
  {
    if runs != [] {
      var s1, rest := Executed(s.(pendingDpcs := s.pendingDpcs[1..]), runs[0]), runs[1..];
      FireNeverEnds(s1, rest);
      forall j | 0 <= j <= |runs| ensures j < |s.pendingDpcs| + Calls(runs[..j]) {
        if j > 0 {
          assert runs[..j][0] == runs[0] && runs[..j][1..] == rest[..j - 1];
          assert j - 1 < |s1.pendingDpcs| + Calls(rest[..j - 1]);
        }
      }
    }
  }

  // ---- The next thread ----

  /** r is the nearest live thread behind `from` in the ring; `from` itself comes last. */
  predicate Nearest(threads: seq<Slot>, from: nat, r: int)
    requires from < |threads|
  {
    && 0 <= r < |threads| && threads[r].alive
    && forall u: nat :: u < |threads| && threads[u].alive && u != from ==> r != from && Gap(from, r, |threads|) <= Gap(from, u, |threads|)
  }

  lemma {:induction false} SearchIsNearest(threads: seq<Slot>, from: nat, i: nat)
    requires from < |threads| && 1 <= i <= |threads| + 1
    requires forall u: nat :: u < |threads| && threads[u].alive && u != from ==> Gap(from, u, |threads|) >= i
    requires i == |threads| + 1 ==> !threads[from].alive
    ensures var r := NextFrom(threads, from, i);
      if exists u :: 0 <= u < |threads| && threads[u].alive then Nearest(threads, from, r) else r == -1
    decreases |threads| + 1 - i
  {
    var n := |threads|;
    if i <= n {
      var idx := (from + i) % n;
      GapOf(from, i, n);
      if threads[idx].alive {
      } else {
        forall u: nat | u < n && threads[u].alive && u != from ensures Gap(from, u, n) >= i + 1 {
          GapReaches(from, u, n);
        }
        SearchIsNearest(threads, from, i + 1);
      }
    } else {
      forall u: nat | u < n ensures !threads[u].alive {
        if u != from { GapPositive(from, u, n); }
      }
    }
  }

  lemma GapOf(from: nat, i: nat, n: nat)
    requires from < n && 1 <= i <= n
    ensures 0 <= (from + i) % n < n
    ensures i < n ==> (from + i) % n != from && Gap(from, (from + i) % n, n) == i
    ensures i == n ==> (from + i) % n == from
  {
    if from + i < n { Around(from + i, n); } else { Around(from + i - n, n); }
  }

  lemma NextIsNearest(threads: seq<Slot>, from: nat)
    requires from < |threads|
    ensures if exists u :: 0 <= u < |threads| && threads[u].alive then Nearest(threads, from, NextAlive(threads, from))
            else NextAlive(threads, from) == -1
  {
    forall u: nat | u < |threads| && threads[u].alive && u != from ensures Gap(from, u, |threads|) >= 1 {
      GapPositive(from, u, |threads|);
    }
    SearchIsNearest(threads, from, 1);
  }

  // ---- How a turn ends ----

  /** The run ended in the thread's exit stub, or with the return address of a deferred call. */
  predicate Exits(o: Outcome, exitStub: u32) {
    o.stop == Normal && o.halted && o.context.eip in {0xFFFF_FFFF, exitStub}
  }

  /** The run ended in an error stop or outside RAM and the top 256 MB. */
  predicate Fails(o: Outcome) {
    o.stop != Normal || 0x800_0000 <= o.context.eip < 0xF000_0000
  }

  predicate SomeAlive(threads: seq<Slot>) {
    exists u :: 0 <= u < |threads| && threads[u].alive
  }

  /** Everything a step leaves behind once thread `t` of `before` was chosen; `asked` are the threads that the deferred
      calls of this step and the run itself asked for. */
  ghost predicate TurnEnds(before: seq<Slot>, t: nat, o: Outcome, asked: seq<Request>, exitStub: u32, s': System, ok: bool)
    requires t < |before|
  {
    var after := s'.threads;
    var exits := Exits(o, exitStub);
    && |after| == |before| + (if exits then |asked| else 0)
    // the thread keeps what its run left and dies exactly by exiting; the others keep their slots
    && after[t] == Slot(o.context, before[t].alive && !exits)
    && (forall u: nat :: u < |before| && u != t ==> after[u] == before[u])
    // on an exit the threads asked for are created at once, otherwise they wait
    && (exits ==> forall u: nat :: |before| <= u < |after| ==> after[u].alive && after[u].context.eip == asked[u - |before|].startRoutine)
    && s'.pendingThreads == (if exits then [] else asked)
    && s'.pendingDpcs == o.dpcs
    && s'.ram == (if exits then AllStacked(o.ram, asked, exitStub) else o.ram)
    // the system goes on unless the run failed or nobody is left
    && ok == (if exits then SomeAlive(after) else !Fails(o)) && s'.running == ok
    // whose turn it is next, and the registers the processor is left with
    && (ok ==> if exits || o.halted || |before| > 1 then Nearest(after, t, s'.current) else s'.current == t)
    && s'.ctx == if exits && ok then after[s'.current].context else o.context
  }

  lemma PromotedSlots(threads: seq<Slot>, requests: seq<Request>, u: nat)
    requires u < |requests|
    ensures Promoted(threads, requests)[|threads| + u].alive
    ensures Promoted(threads, requests)[|threads| + u].context.eip == requests[u].startRoutine
  {
    RequestedThreadStarts(threads, requests, u);
  }

  lemma ExitedEnds(s: System, t: nat, o: Outcome, asked: seq<Request>, event: Option<Event>)
    requires t < |s.threads| && s.threads[t] == Slot(o.context, true) && s.pendingThreads == asked && Exits(o, s.exitStub)
    requires s.ctx == o.context && s.ram == o.ram && s.pendingDpcs == o.dpcs && s.running
    ensures var r := Exited(s, t, event); TurnEnds(s.threads, t, o, asked, s.exitStub, r.system, r.ok)
  {
    hide AllStacked, NextAlive, Nearest, NewSlot;
    hide Promoted;
    var dead := s.threads[t := s.threads[t].(alive := false)];
    var after := Promoted(dead, asked);
    forall u: nat | u < |dead| ensures after[u] == dead[u] {
      assert after[..|dead|][u] == dead[u];
    }
    forall u: nat | |dead| <= u < |after|
      ensures after[u].alive && after[u].context.eip == asked[u - |dead|].startRoutine
    {
      PromotedSlots(dead, asked, u - |dead|);
    }
    SomeIsNext(after, t);
  }

  lemma SomeIsNext(threads: seq<Slot>, t: nat)
    requires t < |threads|
    ensures SomeAlive(threads) <==> NextAlive(threads, t) >= 0
    ensures NextAlive(threads, t) >= 0 ==> Nearest(threads, t, NextAlive(threads, t))
  {
    hide NextAlive;
    NextIsNearest(threads, t);
  }

  lemma ConcludedEnds(s: System, t: nat, o: Outcome, asked: seq<Request>, event: Option<Event>)
    requires t < |s.threads| && s.threads[t] == Slot(o.context, true) && s.pendingThreads == asked && s.current == t
    requires s.ctx == o.context && s.ram == o.ram && s.pendingDpcs == o.dpcs && s.running
    ensures var r := Concluded(s, t, o, event); TurnEnds(s.threads, t, o, asked, s.exitStub, r.system, r.ok)
  {
    hide AllStacked, NextAlive, Nearest, Exited;
    if Exits(o, s.exitStub) {
      ExitedEnds(s, t, o, asked, event);
    } else {
      SomeIsNext(s.threads, t);
    }
  }

  // ---- A whole step ----

  /** The threads there are when one is chosen. */
  function Roster(s: System): seq<Slot> {
    if s.threads == [] && s.pendingThreads == [] then [Slot(s.ctx.(eip := if s.started then s.ctx.eip else s.entryEip), true)]
    else Promoted(s.threads, s.pendingThreads)
  }

  /** The current thread if it is alive, else the nearest live one behind it; a first thread made from the processor's
      registers is current. */
  predicate HasTurn(s: System, t: int) {
    var all, cur := Roster(s), if s.threads == [] && s.pendingThreads == [] then 0 else s.current;
    0 <= t < |all| &&
    if 0 <= cur < |all| && all[cur].alive then t == cur
    else if cur < |all| then Nearest(all, if cur < 0 then 0 else cur, t) else all[t].alive
  }

  /** A stopped system stays as it is. */
  lemma StoppedStays(s: System, input: Input)
    requires !s.running
    ensures RunStep(s, input) == Some(Step(s, None, false))
  {
  }

  /** A step of a running system: deferred calls first, then one turn of the thread whose turn it is, started with the
      registers in its slot; without a live thread the system stops. */
  lemma StepOutcome(s: System, input: Input) returns (k: nat)
    requires s.running && RunStep(s, input).Some?
    ensures FiresExactly(|s.pendingDpcs|, input.dpcRuns, k)
    ensures var r, all := RunStep(s, input).value, Roster(s);
      && r.system.started && r.system.exitStub == s.exitStub && r.system.entryEip == s.entryEip
      && (r.event.None? <==> !SomeAlive(all))
      && (r.event.None? ==> !r.ok && !r.system.running && r.system.threads == all)
      && (r.event.Some? ==>
           var t, o := r.event.value.thread, input.run;
           && HasTurn(s, t) && r.event.value.input == all[t].context && r.event.value.output == o.context
           && TurnEnds(all, t, o, Requests(input.dpcRuns[..k]) + o.threads, s.exitStub, r.system, r.ok))
  {
    hide FireDpcs, Chosen, Concluded, TurnEnds, HasTurn, NewSlot, Promoted;
    var s0 := InitMain(Promote(s));
    assert s0.threads == Roster(s) by { NoRequests(s); }
    k := FireOutcome(s0, input.dpcRuns);
    var s1 := FireDpcs(s0, input.dpcRuns).value;
    var o, asked := input.run, Requests(input.dpcRuns[..k]) + input.run.threads;
    ChosenHasTurn(s, s1);
    var cur := Chosen(s1);
    if cur >= 0 {
      var s2 := AfterRun(s1, cur, o);
      ConcludedEnds(s2, cur, o, asked, Some(Event(cur, s1.threads[cur].context, o.context)));
      TurnEndsSlot(s1.threads, s2.threads, cur, o, asked, s.exitStub, RunStep(s, input).value);
      ConcludedKeepsRest(s2, cur, o, RunStep(s, input).value.event);
    }
  }

  /** There is a step unless the deferred calls never stop firing. */
  lemma StepHappens(s: System, input: Input)
    ensures RunStep(s, input).Some? <==> !s.running || exists k :: FiresExactly(|s.pendingDpcs|, input.dpcRuns, k)
  {
    hide FireDpcs, RunThread;
    var s0 := InitMain(Promote(s));
    if FireDpcs(s0, input.dpcRuns).Some? {
      var k := FireOutcome(s0, input.dpcRuns);
    } else {
      FireNeverEnds(s0, input.dpcRuns);
    }
  }

  lemma NoRequests(s: System)
    ensures s.threads == [] && s.pendingThreads == [] <==> Promoted(s.threads, s.pendingThreads) == []
  {
  }

  lemma ChosenHasTurn(s: System, s1: System)
    requires s1.threads == Roster(s) && s1.current == (if s.threads == [] && s.pendingThreads == [] then 0 else s.current)
    ensures Chosen(s1) >= 0 <==> SomeAlive(s1.threads)
    ensures Chosen(s1) >= 0 ==> HasTurn(s, Chosen(s1))
  {
    hide NextAlive, Nearest, Roster;
    if 0 <= s1.current < |s1.threads| && s1.threads[s1.current].alive {
    } else if s1.threads != [] && s1.current < |s1.threads| {
      SomeIsNext(s1.threads, if s1.current >= 0 then s1.current else 0);
    } else {
      NextIsSome(s1.threads, if s1.current >= 0 then s1.current else 0);
    }
  }

  /** Wherever the search starts, it finds a live thread if there is one. */
  lemma {:induction false} NextIsSome(threads: seq<Slot>, from: nat)
    ensures SomeAlive(threads) <==> NextAlive(threads, from) >= 0
  {
    var n := |threads|;
    if n > 0 {
      SomeIsNext(threads, from % n);
      SameSearch(threads, from, 1);
    }
  }

  lemma {:induction false} SameSearch(threads: seq<Slot>, from: nat, i: nat)
    requires threads != [] && i >= 1
    ensures NextFrom(threads, from, i) == NextFrom(threads, from % |threads|, i)
    decreases |threads| + 1 - i
  {
    if i <= |threads| {
      SamePlace(from, i, |threads|);
      SameSearch(threads, from, i + 1);
    }
  }

  lemma SamePlace(from: nat, i: nat, n: nat)
    requires n > 0
    ensures (from + i) % n == (from % n + i) % n
  {
    var q, r := from / n, from % n;
    assert from == n * q + r;
    Laps(r + i, n, q);
  }

  lemma Laps(x: nat, n: nat, q: nat)
    requires n > 0
    ensures (n * q + x) % n == x % n
  {
    var q', r := x / n, x % n;
    assert n * q + n * q' == n * (q + q');
    Unique(n * q + x, n, q + q', r);
  }

  /** Only the chosen thread's slot differs between the state it was chosen in and the one after its run. */
  lemma TurnEndsSlot(all: seq<Slot>, ran: seq<Slot>, t: nat, o: Outcome, asked: seq<Request>, exitStub: u32, r: Step)
    requires t < |all| && all[t].alive && ran == all[t := all[t].(context := o.context)]
    requires TurnEnds(ran, t, o, asked, exitStub, r.system, r.ok)
    ensures TurnEnds(all, t, o, asked, exitStub, r.system, r.ok)
  {
    hide AllStacked, Nearest;
  }

  lemma ConcludedKeepsRest(s: System, t: nat, o: Outcome, event: Option<Event>)
    requires t < |s.threads|
    ensures var s' := Concluded(s, t, o, event).system;
      s'.started == s.started && s'.exitStub == s.exitStub && s'.entryEip == s.entryEip
  {
    hide NextAlive, Promoted, AllStacked;
  }

  // ---- Exited threads ----

  /** A thread that has exited never has a turn again. */
  lemma {:induction false} ExitedThreadsRest(s: System, inputs: seq<Input>, t: nat, j: nat)
    requires t < |s.threads| && !s.threads[t].alive && j < |Trace(s, inputs)|
    ensures !Runs(Trace(s, inputs)[j], t)
    decreases j
  {
    hide RunStep;
    StepKeepsSlots(s, inputs[0], t);
    if j > 0 {
      ExitedThreadsRest(RunStep(s, inputs[0]).value.system, inputs[1..], t, j - 1);
    }
  }
}
