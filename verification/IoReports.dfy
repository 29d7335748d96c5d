/** What the I/O protocol is for: every request is carried out in order, and asking for it afterwards reports it. */
module IoReports {
  import opened Words
  import opened IoQueue

  // ---- What is possible where ----

  /** The guest thread's next step from each of its places: outside a request it can start any of three, and putting a
      submission into the retry buffer is always possible. */
  lemma GuestSteps(s: State, ev: Event)
    requires !WorkerEvent(ev)
    ensures Enabled(s, ev) <==> match s.guest
      case Idle =>
        || ev.SubmitBusy? || (ev.SubmitLock? && s.queueLock == Free)
        || (ev.FlushLock? && s.queueLock == Free && s.retry != []) || (ev.QueryLock? && s.completedLock == Free)
      case Enqueuing(_) => ev.Push?
      case Flushing => if s.retry == [] then ev.MovedAll? else ev.MoveOne?
      case Pushed => ev.SetFlag?
      case Flagged => ev.Notify?
      case Notified => ev.UnlockQueue?
      case Querying(_) => ev.Lookup?
      case Queried => ev.UnlockCompleted?
  {
  }

  /** The worker's: asleep it has none, and it waits for the two locks. */
  lemma WorkerSteps(s: State, ev: Event)
    requires WorkerEvent(ev)
    ensures Enabled(s, ev) <==> match s.worker
      case Waiting(asleep) => ev.Check? && !asleep
      case Awake => ev.LockQueue? && s.queueLock == Free
      case Locked => ev.Take?
      case Cleared => ev.Release?
      case Popped(_) => ev.Release?
      case Working(_) => ev.Finish? && s.completedLock == Free
      case Storing(_) => ev.Emplace?
      case Stored => ev.Done?
  {
  }

  // ---- Asking for a request ----

  function Query(id: u32): seq<Event> { [QueryLock(id)] + [Lookup] + [UnlockCompleted] }

  /** Asking for a finished request reports exactly it and takes exactly it out of the map. */
  lemma QueryReports(s: State, r: Req)
    requires s.guest.Idle? && s.completedLock.Free? && InMap(s.completed, r) == 1
    ensures Possible(s, Query(r.id))
    ensures After(s, Query(r.id)) == s.(reported := s.reported + [r], completed := s.completed - {r.id})
  {
    hide Possible, After;
    QueryRuns(s, r.id);
  }

  /** Asking for anything else changes nothing. */
  lemma QueryMisses(s: State, id: u32)
    requires s.guest.Idle? && s.completedLock.Free? && id !in s.completed
    ensures Possible(s, Query(id)) && After(s, Query(id)) == s
  {
    hide Possible, After;
    QueryRuns(s, id);
  }

  lemma QueryRuns(s: State, id: u32)
    requires s.guest.Idle? && s.completedLock.Free?
    ensures Possible(s, Query(id)) && !SomeOverwrite(s, Query(id))
    ensures After(s, Query(id)) == Do(Do(Do(s, QueryLock(id)), Lookup), UnlockCompleted)
  {
    hide Possible, After, SomeOverwrite;
    OneStep(s, QueryLock(id));
    ThenStep(s, [QueryLock(id)], Lookup);
    ThenStep(s, [QueryLock(id)] + [Lookup], UnlockCompleted);
  }

  // ---- Submitting, draining, asking ----

  predicate WorkerEvent(ev: Event) {
    ev.Check? || ev.LockQueue? || ev.Take? || ev.Release? || ev.Finish? || ev.Emplace? || ev.Done?
  }

  /** The worker's own steps up to its sleep. */
  lemma {:induction false} DrainIsRun(s: State) returns (evs: seq<Event>)
    requires Inv(s) && s.guest.Idle?
    ensures Possible(s, evs) && After(s, evs) == Drain(s) && forall ev :: ev in evs ==> WorkerEvent(ev)
    decreases Remaining(s)
  {
    hide Do, Enabled;
    match WorkerNext(s)
    case None => evs := [];
    case Some(ev) =>
      WorkerProgress(s);
      var rest := DrainIsRun(Do(s, ev));
      evs := [ev] + rest;
      assert evs[1..] == rest;
  }

  /** The guest's five steps of a submission that gets the queue lock. */
  lemma SubmitRuns(s: State, req: Req)
    requires s.guest.Idle? && s.queueLock.Free?
    ensures Possible(s, Send(req))
    ensures After(s, Send(req)) == s.(submitted := s.submitted + [req], queue := s.queue + [req], flag := true,
                                      worker := if s.worker.Waiting? then Waiting(false) else s.worker)
  {
    hide Possible, After, SomeOverwrite;
    OneStep(s, SubmitLock(req));
    ThenStep(s, [SubmitLock(req)], Push);
    ThenStep(s, [SubmitLock(req)] + [Push], SetFlag);
    ThenStep(s, [SubmitLock(req)] + [Push] + [SetFlag], Notify);
    ThenStep(s, [SubmitLock(req)] + [Push] + [SetFlag] + [Notify], UnlockQueue);
  }

  lemma SubmitKeepsGood(s: State, req: Req)
    requires AllGood(s) && s.guest.Idle? && s.queueLock.Free? && FreshId(s, SubmitLock(req))
    ensures Possible(s, Send(req))
    ensures AllGood(After(s, Send(req))) && req in After(s, Send(req)).queue && After(s, Send(req)).guest.Idle?
  {
    hide AllGood, FreshId, Do, Enabled;
    SubmitRuns(s, req);
    assert FreshIds(s, Send(req)) by { OnlyTheFirst(s, Send(req)); }
    RequestsAreConserved(s, Send(req));
    assert req in After(s, Send(req)).queue by { assert After(s, Send(req)).queue[|s.queue|] == req; }
  }

  /** Only submissions need fresh identifiers. */
  lemma {:induction false} NoneToCheck(s: State, evs: seq<Event>)
    requires Possible(s, evs) && forall ev :: ev in evs ==> !ev.SubmitLock? && !ev.SubmitBusy?
    ensures FreshIds(s, evs)
    decreases |evs|
  {
    hide Do, Enabled;
    if evs != [] {
      assert evs[0] in evs;
      NoneToCheck(Do(s, evs[0]), evs[1..]);
    }
  }

  lemma OnlyTheFirst(s: State, evs: seq<Event>)
    requires Possible(s, evs) && evs != [] && FreshId(s, evs[0])
    requires forall ev :: ev in evs[1..] ==> !ev.SubmitLock? && !ev.SubmitBusy?
    ensures FreshIds(s, evs)
  {
    hide Do, Enabled, FreshId;
    NoneToCheck(Do(s, evs[0]), evs[1..]);
  }

  /** A request submitted under a fresh identifier is reported by asking for it once the worker has had its time; the
      other finished requests, and nothing else, wait in the map. */
  lemma SubmitDrainQuery(s: State, r: Req) returns (evs: seq<Event>)
    requires AllGood(s) && s.guest.Idle? && s.queueLock.Free? && FreshId(s, SubmitLock(r))
    ensures forall ev :: ev in evs ==> WorkerEvent(ev)
    ensures Possible(s, Send(r) + evs + Query(r.id))
    ensures var s' := After(s, Send(r) + evs + Query(r.id));
      && s'.submitted == s.submitted + [r] && s'.reported == s.reported + [r] && s'.retry == s.retry && s'.queue == []
      && AllGood(s') && forall q: Req :: q in s.queue ==> InMap(s'.completed, q) == 1
  {
    hide AllGood, FreshId, Do, Enabled, Possible, After, Send, Query, Drain, InMap;
    SubmitRuns(s, r);
    SubmitKeepsGood(s, r);
    var s1 := After(s, Send(r));
    GoodInv(s1);
    evs := DrainIsRun(s1);
    WorkerDrains(s1);
    var s2 := After(s1, evs);
    RunsJoin(s, Send(r), evs);
    assert AllGood(s2) && s2.guest.Idle? by { DrainKeeps(s1); }
    AsleepMeansFree(s2);
    QueryReports(s2, r);
    var s3 := After(s2, Query(r.id));
    RunsJoin(s, Send(r) + evs, Query(r.id));
    QueryKeepsGood(s2, r.id);
    forall q: Req | q in s.queue ensures InMap(s3.completed, q) == 1 {
      assert q in s1.queue;
      OthersWait(s, s2, q, r);
    }
  }

  lemma GoodInv(s: State)
    requires AllGood(s)
    ensures Inv(s)
  {
    hide Inv;
  }

  lemma AsleepMeansFree(s: State)
    requires AllGood(s) && s.guest.Idle? && s.worker == Waiting(true)
    ensures s.completedLock.Free? && s.queueLock.Free?
  {
    hide KeysMatch, Conserved, Distinct;
  }

  lemma QueryKeepsGood(s: State, id: u32)
    requires AllGood(s) && Possible(s, Query(id))
    ensures AllGood(After(s, Query(id)))
  {
    hide AllGood, Possible, After;
    NoneToCheck(s, Query(id));
    RequestsAreConserved(s, Query(id));
  }

  /** A fresh identifier is not that of a queued request. */
  lemma OthersWait(s: State, s': State, q: Req, r: Req)
    requires FreshId(s, SubmitLock(r)) && q in s.queue && InMap(s'.completed, q) == 1
    ensures InMap(s'.completed - {r.id}, q) == 1
  {
    assert InFlight(s, q) > 0;
  }

  // ---- The retry buffer ----

  function Moving(n: nat): seq<Event>
    decreases n
  {
    if n == 0 then [] else [MoveOne] + Moving(n - 1)
  }

  lemma {:induction false} MovingRuns(s: State)
    requires s.guest.Flushing?
    ensures Possible(s, Moving(|s.retry|)) && After(s, Moving(|s.retry|)) == s.(queue := s.queue + s.retry, retry := [])
    decreases |s.retry|
  {
    if s.retry == [] {
      assert s.queue + s.retry == s.queue;
    } else {
      var s1 := Do(s, MoveOne);
      MovingRuns(s1);
      assert s1.queue + s1.retry == s.queue + s.retry;
      assert Moving(|s.retry|)[1..] == Moving(|s1.retry|);
    }
  }

  function Flush(n: nat): seq<Event> {
    [FlushLock] + Moving(n) + [MovedAll] + [SetFlag] + [Notify] + [UnlockQueue]
  }

  /** Requests that found the queue busy are put on it, in order, by the next flush that gets the lock, and the worker
      is told. */
  lemma FlushRuns(s: State)
    requires s.guest.Idle? && s.queueLock.Free? && s.retry != []
    ensures Possible(s, Flush(|s.retry|))
    ensures After(s, Flush(|s.retry|)) == s.(queue := s.queue + s.retry, retry := [], hasPending := false, flag := true,
                                              worker := if s.worker.Waiting? then Waiting(false) else s.worker)
  {
    hide Possible, After, SomeOverwrite, Moving;
    var n := |s.retry|;
    OneStep(s, FlushLock);
    MovingRuns(Do(s, FlushLock));
    RunsJoin(s, [FlushLock], Moving(n));
    ThenStep(s, [FlushLock] + Moving(n), MovedAll);
    ThenStep(s, [FlushLock] + Moving(n) + [MovedAll], SetFlag);
    ThenStep(s, [FlushLock] + Moving(n) + [MovedAll] + [SetFlag], Notify);
    ThenStep(s, [FlushLock] + Moving(n) + [MovedAll] + [SetFlag] + [Notify], UnlockQueue);
  }

  // ---- Order ----

  /** What one step puts on the queue, finishes, puts into the retry buffer, and moves on from there. */
  function Queues(s: State, ev: Event): seq<Req>
    requires Enabled(s, ev)
  {
    match ev
    case Push => [s.guest.req]
    case MoveOne => [s.retry[0]]
    case _ => []
  }

  function Finishes(s: State, ev: Event): seq<Req>
    requires Enabled(s, ev)
  {
    if ev.Emplace? then [s.worker.req] else []
  }

  function Defers(ev: Event): seq<Req> { if ev.SubmitBusy? then [ev.req] else [] }

  function Moves(s: State, ev: Event): seq<Req>
    requires Enabled(s, ev)
  {
    if ev.MoveOne? then [s.retry[0]] else []
  }

  /** The same along a whole run. */
  datatype Log = Log(queued: seq<Req>, finished: seq<Req>, deferred: seq<Req>, moved: seq<Req>)

  function LogOf(s: State, evs: seq<Event>): Log
    requires Possible(s, evs)
    decreases |evs|
  {
    if evs == [] then Log([], [], [], [])
    else
      var rest := LogOf(Do(s, evs[0]), evs[1..]);
      Log(Queues(s, evs[0]) + rest.queued, Finishes(s, evs[0]) + rest.finished, Defers(evs[0]) + rest.deferred,
          Moves(s, evs[0]) + rest.moved)
  }

  /** The request in the worker's hand and those behind it. */
  function InLine(s: State): seq<Req> {
    (if s.worker.Popped? || s.worker.Working? || s.worker.Storing? then [s.worker.req] else []) + s.queue
  }

  lemma StepQueues(s: State, ev: Event)
    requires Enabled(s, ev)
    ensures InLine(s) + Queues(s, ev) == Finishes(s, ev) + InLine(Do(s, ev))
  {
    if WorkerEvent(ev) { WorkerQueues(s, ev); } else { GuestQueues(s, ev); }
  }

  lemma WorkerQueues(s: State, ev: Event)
    requires Enabled(s, ev) && WorkerEvent(ev)
    ensures InLine(s) == Finishes(s, ev) + InLine(Do(s, ev))
  {
    if ev.Take? && s.queue != [] {
      assert s.queue == [s.queue[0]] + s.queue[1..];
    }
  }

  lemma GuestQueues(s: State, ev: Event)
    requires Enabled(s, ev) && !WorkerEvent(ev)
    ensures InLine(s) + Queues(s, ev) == InLine(Do(s, ev))
  {
    assert Do(s, ev).queue == s.queue + Queues(s, ev);
  }

  lemma StepDefers(s: State, ev: Event)
    requires Enabled(s, ev)
    ensures s.retry + Defers(ev) == Moves(s, ev) + Do(s, ev).retry
  {
  }

  lemma Joins(x: seq<Req>, a: seq<Req>, more: seq<Req>, c: seq<Req>, y: seq<Req>, rest: seq<Req>, z: seq<Req>)
    requires x + a == c + y && y + more == rest + z
    ensures x + (a + more) == (c + rest) + z
  {
    assert x + (a + more) == (x + a) + more;
    assert (c + y) + more == c + (y + more);
    assert c + (rest + z) == (c + rest) + z;
  }

  /** First in, first out: along every run the requests carried out, then the one in the worker's hand, then the queue,
      are those that were there and those put on the queue, in that order. The retry buffer keeps its order too. */
  lemma {:induction false} InOrder(s: State, evs: seq<Event>)
    requires Possible(s, evs)
    ensures var s', log := After(s, evs), LogOf(s, evs);
      && InLine(s) + log.queued == log.finished + InLine(s')
      && s.retry + log.deferred == log.moved + s'.retry
    decreases |evs|
  {
    hide Do, Enabled, InLine, Queues, Finishes, Defers, Moves;
    if evs != [] {
      var ev, s1 := evs[0], Do(s, evs[0]);
      var s', rest := After(s1, evs[1..]), LogOf(s1, evs[1..]);
      StepQueues(s, ev);
      StepDefers(s, ev);
      InOrder(s1, evs[1..]);
      Joins(InLine(s), Queues(s, ev), rest.queued, Finishes(s, ev), InLine(s1), rest.finished, InLine(s'));
      Joins(s.retry, Defers(ev), rest.deferred, Moves(s, ev), s1.retry, rest.moved, s'.retry);
    }
  }
}
