/** The I/O request protocol: the guest's port handlers and the worker thread, as interleaved atomic steps. */
module IoQueue {
  import opened Words

  /** A host request; only its identifier matters to the protocol. */
  datatype Req = Req(id: u32, body: nat)

  datatype Owner = Free | Guest | Worker

  /** Where the guest thread is inside submit, flush or query. */
  datatype GuestPc =
    | Idle
    | Enqueuing(req: Req) // queue lock held, request not yet pushed
    | Flushing            // queue lock held, moving the retry buffer
    | Pushed              // pushed, flag not yet set
    | Flagged             // flag set, not yet notified
    | Notified            // about to unlock the queue
    | Querying(id: u32)   // completion lock held
    | Queried             // about to unlock the completion map

  datatype WorkerPc =
    | Waiting(asleep: bool)
    | Awake                // saw the flag, about to lock the queue
    | Locked
    | Cleared              // found nothing, cleared the flag, still holds the lock
    | Popped(req: Req)     // still holds the lock
    | Working(req: Req)
    | Storing(req: Req)    // completion lock held
    | Stored               // about to unlock the completion map

  datatype State = State(
    queue: seq<Req>,
    retry: seq<Req>,
    hasPending: bool,
    completed: map<u32, Req>,
    flag: bool,
    queueLock: Owner,
    completedLock: Owner,
    guest: GuestPc,
    worker: WorkerPc,
    submitted: seq<Req>,
    reported: seq<Req>)

  datatype Event =
    | SubmitLock(req: Req) | SubmitBusy(req: Req) | Push | SetFlag | Notify | UnlockQueue
    | FlushLock | MoveOne | MovedAll
    | QueryLock(id: u32) | Lookup | UnlockCompleted
    | Check | LockQueue | Take | Release | Finish | Emplace | Done

  function Initial(): State {
    State([], [], false, map[], false, Free, Free, Idle, Waiting(false), [], [])
  }

  /** try_lock may also fail for no reason, so the busy path is always open. */
  predicate Enabled(s: State, ev: Event) {
    match ev
    case SubmitLock(_) => s.guest.Idle? && s.queueLock.Free?
    case SubmitBusy(_) => s.guest.Idle?
    case Push => s.guest.Enqueuing?
    case SetFlag => s.guest.Pushed?
    case Notify => s.guest.Flagged?
    case UnlockQueue => s.guest.Notified?
    case FlushLock => s.guest.Idle? && s.retry != [] && s.queueLock.Free?
    case MoveOne => s.guest.Flushing? && s.retry != []
    case MovedAll => s.guest.Flushing? && s.retry == []
    case QueryLock(_) => s.guest.Idle? && s.completedLock.Free?
    case Lookup => s.guest.Querying?
    case UnlockCompleted => s.guest.Queried?
    case Check => s.worker == Waiting(false)
    case LockQueue => s.worker.Awake? && s.queueLock.Free?
    case Take => s.worker.Locked?
    case Release => s.worker.Cleared? || s.worker.Popped?
    case Finish => s.worker.Working? && s.completedLock.Free?
    case Emplace => s.worker.Storing?
    case Done => s.worker.Stored?
  }

  function Do(s: State, ev: Event): State
    requires Enabled(s, ev)
  {
    match ev
    case SubmitLock(r) => s.(submitted := s.submitted + [r], queueLock := Guest, guest := Enqueuing(r))
    case SubmitBusy(r) => s.(submitted := s.submitted + [r], retry := s.retry + [r], hasPending := true)
    case Push => s.(queue := s.queue + [s.guest.req], guest := Pushed)
    case SetFlag => s.(flag := true, guest := Flagged)
    case Notify => s.(worker := if s.worker.Waiting? then Waiting(false) else s.worker, guest := Notified)
    case UnlockQueue => s.(queueLock := Free, guest := Idle)
    case FlushLock => s.(queueLock := Guest, guest := Flushing)
    case MoveOne => s.(queue := s.queue + [s.retry[0]], retry := s.retry[1..])
    case MovedAll => s.(hasPending := false, guest := Pushed)
    case QueryLock(id) => s.(completedLock := Guest, guest := Querying(id))
    case Lookup =>
      if s.guest.id in s.completed then
        s.(reported := s.reported + [s.completed[s.guest.id]], completed := s.completed - {s.guest.id}, guest := Queried)
      else s.(guest := Queried)
    case UnlockCompleted => s.(completedLock := Free, guest := Idle)
    case Check => s.(worker := if s.flag then Awake else Waiting(true))
    case LockQueue => s.(queueLock := Worker, worker := Locked)
    case Take =>
      if s.queue == [] then s.(flag := false, worker := Cleared)
      else s.(queue := s.queue[1..], worker := Popped(s.queue[0]))
    case Release => s.(queueLock := Free, worker := if s.worker.Cleared? then Waiting(false) else Working(s.worker.req))
    case Finish => s.(completedLock := Worker, worker := Storing(s.worker.req))
    case Emplace =>
      var r := s.worker.req;
      // emplace keeps an entry that is already there
      s.(completed := if r.id in s.completed then s.completed else s.completed[r.id := r], worker := Stored)
    case Done => s.(completedLock := Free, worker := Waiting(false))
  }

  // ---- Locks, flag and sleep ----

  predicate GuestHoldsQueue(g: GuestPc) { g.Enqueuing? || g.Flushing? || g.Pushed? || g.Flagged? || g.Notified? }
  predicate GuestHoldsCompleted(g: GuestPc) { g.Querying? || g.Queried? }
  predicate WorkerHoldsQueue(w: WorkerPc) { w.Locked? || w.Cleared? || w.Popped? }
  predicate WorkerHoldsCompleted(w: WorkerPc) { w.Storing? || w.Stored? }

  predicate LocksAgree(s: State) {
    && (s.queueLock == Guest <==> GuestHoldsQueue(s.guest))
    && (s.queueLock == Worker <==> WorkerHoldsQueue(s.worker))
    && (s.completedLock == Guest <==> GuestHoldsCompleted(s.guest))
    && (s.completedLock == Worker <==> WorkerHoldsCompleted(s.worker))
  }

  predicate WakeUp(s: State) {
    // A request no flag announces is one the guest is about to announce.
    && (!s.flag ==> s.queue == [] || s.guest.Pushed? || s.guest.Flushing?)
    && (s.guest.Flagged? || s.guest.Notified? ==> s.flag)
    && (s.worker.Cleared? ==> s.queue == [] && !s.flag)
    && (s.worker.Awake? || s.worker.Locked? || s.worker.Popped? ==> s.flag)
    // The worker sleeps under a set flag only while the guest is about to notify it.
    && (s.worker == Waiting(true) && s.flag ==> s.guest.Flagged?)
    && (!s.guest.Flushing? ==> (s.hasPending <==> s.retry != []))
  }

  predicate Inv(s: State) { LocksAgree(s) && WakeUp(s) }

  lemma StepKeepsInv(s: State, ev: Event)
    requires Inv(s) && Enabled(s, ev)
    ensures Inv(Do(s, ev))
  {
    hide Do, WakeUp, LocksAgree;
    if ev.Check? || ev.LockQueue? || ev.Take? || ev.Release? || ev.Finish? || ev.Emplace? || ev.Done? {
      WorkerKeepsLocks(s, ev);
    } else {
      GuestKeepsLocks(s, ev);
    }
    WakeUpKept(s, ev);
  }

  lemma WorkerKeepsLocks(s: State, ev: Event)
    requires LocksAgree(s) && Enabled(s, ev)
    requires ev.Check? || ev.LockQueue? || ev.Take? || ev.Release? || ev.Finish? || ev.Emplace? || ev.Done?
    ensures LocksAgree(Do(s, ev))
  {
  }

  lemma GuestKeepsLocks(s: State, ev: Event)
    requires LocksAgree(s) && Enabled(s, ev)
    requires !(ev.Check? || ev.LockQueue? || ev.Take? || ev.Release? || ev.Finish? || ev.Emplace? || ev.Done?)
    ensures LocksAgree(Do(s, ev))
  {
  }

  lemma WakeUpKept(s: State, ev: Event)
    requires Inv(s) && Enabled(s, ev)
    ensures WakeUp(Do(s, ev))
  {
  }

  // ---- Where requests are ----

  function GuestHand(g: GuestPc): multiset<Req> {
    if g.Enqueuing? then multiset{g.req} else multiset{}
  }

  function WorkerHand(w: WorkerPc): multiset<Req> {
    if w.Popped? || w.Working? || w.Storing? then multiset{w.req} else multiset{}
  }

  function InMap(m: map<u32, Req>, r: Req): nat {
    if r.id in m && m[r.id] == r then 1 else 0
  }

  /** How many times request r is in the retry buffer, the queue, either thread's hand or the completion map. */
  function InFlight(s: State, r: Req): nat {
    multiset(s.retry)[r] + multiset(s.queue)[r] + GuestHand(s.guest)[r] + WorkerHand(s.worker)[r] + InMap(s.completed, r)
  }

  /** Everything submitted is in flight or was reported, once each. */
  ghost predicate Conserved(s: State) {
    forall r: Req :: multiset(s.submitted)[r] == multiset(s.reported)[r] + InFlight(s, r)
  }

  predicate KeysMatch(s: State) {
    forall id :: id in s.completed ==> s.completed[id].id == id
  }

  /** Identifiers of requests in flight are distinct. */
  ghost predicate Distinct(s: State) {
    && (forall r: Req :: InFlight(s, r) <= 1)
    && (forall r: Req, r': Req :: InFlight(s, r) > 0 && InFlight(s, r') > 0 && r.id == r'.id ==> r == r')
  }

  /** The guest gives a new request an identifier no request in flight has. */
  ghost predicate FreshId(s: State, ev: Event) {
    ev.SubmitLock? || ev.SubmitBusy? ==> forall r: Req :: InFlight(s, r) > 0 ==> r.id != ev.req.id
  }

  /** The one step that can lose a request: storing it under an identifier that is taken. */
  predicate Overwrites(s: State, ev: Event) {
    ev.Emplace? && s.worker.Storing? && s.worker.req.id in s.completed
  }

  lemma HeadTail(q: seq<Req>, r: Req)
    requires q != []
    ensures multiset(q)[r] == multiset(q[1..])[r] + (if q[0] == r then 1 else 0)
  {
    assert q == [q[0]] + q[1..];
  }

  function Lost(s: State, ev: Event, r: Req): nat {
    if Overwrites(s, ev) && s.worker.req == r then 1 else 0
  }

  /** What one step does to the count of one request. */
  lemma StepCount(s: State, ev: Event, r: Req)
    requires Enabled(s, ev) && KeysMatch(s)
    ensures var s' := Do(s, ev);
      multiset(s'.submitted)[r] - multiset(s'.reported)[r] - InFlight(s', r)
        == multiset(s.submitted)[r] - multiset(s.reported)[r] - InFlight(s, r) + Lost(s, ev, r)
  {
    hide InFlight;
    if ev.MoveOne? {
      MoveCount(s, r);
    } else if ev.Emplace? {
      EmplaceCount(s, r);
    } else if ev.Take? {
      TakeCount(s, r);
    } else if ev.Release? || ev.Finish? || ev.Done? || ev.Check? || ev.LockQueue? {
      WorkerCount(s, ev, r);
    } else if ev.Lookup? {
      LookupCount(s, r);
    } else {
      GuestCount(s, ev, r);
    }
  }

  lemma TakeCount(s: State, r: Req)
    requires Enabled(s, Take)
    ensures InFlight(Do(s, Take), r) == InFlight(s, r)
  {
    if s.queue != [] { HeadTail(s.queue, r); }
  }

  lemma WorkerCount(s: State, ev: Event, r: Req)
    requires Enabled(s, ev) && (ev.Release? || ev.Finish? || ev.Done? || ev.Check? || ev.LockQueue?)
    ensures InFlight(Do(s, ev), r) == InFlight(s, r)
  {
    hide InFlight, GuestHand, WorkerHand;
    assert WorkerHand(Do(s, ev).worker) == WorkerHand(s.worker) by { SameWorkerHand(s, ev); }
    SameHands(s, Do(s, ev), r);
  }

  lemma SameWorkerHand(s: State, ev: Event)
    requires Enabled(s, ev) && (ev.Release? || ev.Finish? || ev.Done? || ev.Check? || ev.LockQueue?)
    ensures WorkerHand(Do(s, ev).worker) == WorkerHand(s.worker)
  {
  }

  lemma EmplaceCount(s: State, r: Req)
    requires Enabled(s, Emplace)
    ensures InFlight(Do(s, Emplace), r) + Lost(s, Emplace, r) == InFlight(s, r)
  {
  }

  lemma MoveCount(s: State, r: Req)
    requires Enabled(s, MoveOne)
    ensures InFlight(Do(s, MoveOne), r) == InFlight(s, r)
  {
    HeadTail(s.retry, r);
  }

  lemma LookupCount(s: State, r: Req)
    requires Enabled(s, Lookup) && KeysMatch(s)
    ensures multiset(Do(s, Lookup).reported)[r] + InFlight(Do(s, Lookup), r) == multiset(s.reported)[r] + InFlight(s, r)
  {
    hide WorkerHand, GuestHand;
    if s.guest.id in s.completed {
      var got := s.completed[s.guest.id];
      assert multiset(s.reported + [got])[r] == multiset(s.reported)[r] + (if got == r then 1 else 0);
      assert InMap(s.completed - {s.guest.id}, r) + (if got == r then 1 else 0) == InMap(s.completed, r);
    }
    NoHand(s, Do(s, Lookup), r);
  }

  /** Neither thread holds a request before or after a query. */
  lemma NoHand(s: State, s': State, r: Req)
    requires s.guest.Querying? && s'.guest.Queried? && s'.worker == s.worker
    ensures GuestHand(s.guest)[r] == GuestHand(s'.guest)[r] == 0 && WorkerHand(s'.worker) == WorkerHand(s.worker)
  {
  }

  lemma GuestCount(s: State, ev: Event, r: Req)
    requires Enabled(s, ev)
    requires ev.SubmitLock? || ev.SubmitBusy? || ev.Push? || ev.SetFlag? || ev.Notify? || ev.UnlockQueue? || ev.FlushLock?
      || ev.MovedAll? || ev.QueryLock? || ev.UnlockCompleted?
    ensures multiset(Do(s, ev).submitted)[r] - InFlight(Do(s, ev), r) == multiset(s.submitted)[r] - InFlight(s, r)
  {
    hide InFlight;
    if ev.SubmitLock? || ev.SubmitBusy? || ev.Push? {
      SubmitCount(s, ev, r);
    } else {
      SameHands(s, Do(s, ev), r);
    }
  }

  lemma SubmitCount(s: State, ev: Event, r: Req)
    requires Enabled(s, ev) && (ev.SubmitLock? || ev.SubmitBusy? || ev.Push?)
    ensures multiset(Do(s, ev).submitted)[r] - InFlight(Do(s, ev), r) == multiset(s.submitted)[r] - InFlight(s, r)
  {
  }

  lemma SameHands(s: State, s': State, r: Req)
    requires s'.queue == s.queue && s'.retry == s.retry && s'.completed == s.completed
    requires GuestHand(s'.guest) == GuestHand(s.guest) && WorkerHand(s'.worker) == WorkerHand(s.worker)
    ensures InFlight(s', r) == InFlight(s, r)
  {
  }

  /** A step conserves requests exactly when it does not store over a taken identifier. */
  lemma ConservationIsExact(s: State, ev: Event)
    requires Enabled(s, ev) && KeysMatch(s) && Conserved(s)
    ensures Conserved(Do(s, ev)) <==> !Overwrites(s, ev)
    ensures KeysMatch(Do(s, ev))
  {
    hide InFlight;
    var s' := Do(s, ev);
    forall r: Req
      ensures multiset(s'.submitted)[r] - multiset(s'.reported)[r] - InFlight(s', r) == Lost(s, ev, r)
    {
      StepCount(s, ev, r);
    }
    if Overwrites(s, ev) {
      assert Lost(s, ev, s.worker.req) == 1;
    }
    KeysStayMatched(s, ev);
  }

  lemma KeysStayMatched(s: State, ev: Event)
    requires Enabled(s, ev) && KeysMatch(s)
    ensures KeysMatch(Do(s, ev))
  {
  }

  /** That step needs two requests in flight under one identifier. */
  lemma OverwriteNeedsClash(s: State, ev: Event)
    requires KeysMatch(s) && Overwrites(s, ev)
    ensures !Distinct(s)
  {
    var r, r' := s.worker.req, s.completed[s.worker.req.id];
    assert InFlight(s, r') > 0;
    assert InFlight(s, r) > 0;
    assert r == r' ==> InFlight(s, r) >= 2;
  }

  /** What one step does to one request's presence. */
  lemma StepPresence(s: State, ev: Event, r: Req)
    requires Enabled(s, ev) && KeysMatch(s) && !Overwrites(s, ev)
    ensures InFlight(Do(s, ev), r) <=
      InFlight(s, r) + if (ev.SubmitLock? || ev.SubmitBusy?) && ev.req == r then 1 else 0
  {
    hide InFlight;
    StepCount(s, ev, r);
  }

  lemma DistinctKept(s: State, ev: Event)
    requires Enabled(s, ev) && KeysMatch(s) && Distinct(s) && FreshId(s, ev)
    ensures Distinct(Do(s, ev))
  {
    hide InFlight, Overwrites;
    if Overwrites(s, ev) { OverwriteNeedsClash(s, ev); }
    forall r: Req ensures InFlight(Do(s, ev), r) <=
      InFlight(s, r) + if (ev.SubmitLock? || ev.SubmitBusy?) && ev.req == r then 1 else 0
    {
      StepPresence(s, ev, r);
    }
  }

  // ---- Runs ----

  predicate Possible(s: State, evs: seq<Event>)
    decreases |evs|
  {
    evs == [] || (Enabled(s, evs[0]) && Possible(Do(s, evs[0]), evs[1..]))
  }

  function After(s: State, evs: seq<Event>): State
    requires Possible(s, evs)
    decreases |evs|
  {
    if evs == [] then s else After(Do(s, evs[0]), evs[1..])
  }

  /** New identifiers are fresh all along the run. */
  ghost predicate FreshIds(s: State, evs: seq<Event>)
    requires Possible(s, evs)
    decreases |evs|
  {
    evs == [] || (FreshId(s, evs[0]) && FreshIds(Do(s, evs[0]), evs[1..]))
  }

  ghost predicate GoodRun(s: State, evs: seq<Event>) { Possible(s, evs) && FreshIds(s, evs) }

  ghost predicate AllGood(s: State) { Inv(s) && KeysMatch(s) && Conserved(s) && Distinct(s) }

  /** Under every interleaving: locks and wake-ups are in order, no request is lost or duplicated. */
  lemma {:induction false} RequestsAreConserved(s: State, evs: seq<Event>)
    requires AllGood(s) && GoodRun(s, evs)
    ensures AllGood(After(s, evs))
    decreases |evs|
  {
    hide Inv, KeysMatch, Conserved, Distinct, Enabled, FreshId, Do;
    if evs != [] {
      var ev := evs[0];
      StepKeepsInv(s, ev);
      if Overwrites(s, ev) { OverwriteNeedsClash(s, ev); }
      ConservationIsExact(s, ev);
      DistinctKept(s, ev);
      RequestsAreConserved(Do(s, ev), evs[1..]);
    }
  }

  lemma InitialGood()
    ensures AllGood(Initial())
  {
  }

  /** A request is reported as often as it was submitted, less what is still in flight; never more. */
  lemma ReportedAtMostOnce(evs: seq<Event>, r: Req)
    requires GoodRun(Initial(), evs)
    ensures var s := After(Initial(), evs);
      && multiset(s.reported)[r] <= multiset(s.submitted)[r]
      && multiset(s.submitted)[r] - multiset(s.reported)[r] <= 1
      && (multiset(s.reported)[r] < multiset(s.submitted)[r] <==> InFlight(s, r) == 1)
  {
    hide InFlight, Inv, KeysMatch;
    InitialGood();
    RequestsAreConserved(Initial(), evs);
  }

  lemma {:induction false} RunKeepsInv(s: State, evs: seq<Event>)
    requires Inv(s) && Possible(s, evs)
    ensures Inv(After(s, evs))
    decreases |evs|
  {
    hide Inv, Enabled, Do;
    if evs != [] {
      StepKeepsInv(s, evs[0]);
      RunKeepsInv(Do(s, evs[0]), evs[1..]);
    }
  }

  /** Under every interleaving, whatever identifiers the guest uses: whenever the queue lock is free and the queue is
      not empty, the flag is set and the worker is not asleep for good. */
  lemma NoLostWakeUp(evs: seq<Event>)
    requires Possible(Initial(), evs)
    ensures var s := After(Initial(), evs);
      s.queueLock == Free && s.queue != [] ==> s.flag && s.worker != Waiting(true)
  {
    RunKeepsInv(Initial(), evs);
  }

  // ---- Losing a request ----

  predicate SomeOverwrite(s: State, evs: seq<Event>)
    requires Possible(s, evs)
    decreases |evs|
  {
    evs != [] && (Overwrites(s, evs[0]) || SomeOverwrite(Do(s, evs[0]), evs[1..]))
  }

  /** How often request r is lost along a run. */
  function TotalLost(s: State, evs: seq<Event>, r: Req): nat
    requires Possible(s, evs)
    decreases |evs|
  {
    if evs == [] then 0 else Lost(s, evs[0], r) + TotalLost(Do(s, evs[0]), evs[1..], r)
  }

  lemma {:induction false} RunCount(s: State, evs: seq<Event>, r: Req)
    requires Possible(s, evs) && KeysMatch(s)
    ensures var s' := After(s, evs);
      multiset(s'.submitted)[r] - multiset(s'.reported)[r] - InFlight(s', r)
        == multiset(s.submitted)[r] - multiset(s.reported)[r] - InFlight(s, r) + TotalLost(s, evs, r)
    decreases |evs|
  {
    hide InFlight, Lost, Enabled, Do, KeysMatch;
    if evs != [] {
      StepCount(s, evs[0], r);
      KeysStayMatched(s, evs[0]);
      RunCount(Do(s, evs[0]), evs[1..], r);
    }
  }

  lemma {:induction false} LossNeedsOverwrite(s: State, evs: seq<Event>, r: Req)
    requires Possible(s, evs) && !SomeOverwrite(s, evs)
    ensures TotalLost(s, evs, r) == 0
    decreases |evs|
  {
    if evs != [] { LossNeedsOverwrite(Do(s, evs[0]), evs[1..], r); }
  }

  lemma {:induction false} OverwriteLoses(s: State, evs: seq<Event>) returns (r: Req)
    requires Possible(s, evs) && SomeOverwrite(s, evs)
    ensures TotalLost(s, evs, r) > 0
    decreases |evs|
  {
    if Overwrites(s, evs[0]) {
      r := s.worker.req;
    } else {
      r := OverwriteLoses(Do(s, evs[0]), evs[1..]);
    }
  }

  /** A whole run loses no request exactly when none of its steps stores over a taken identifier; a lost request
      never comes back. */
  lemma RunConserves(s: State, evs: seq<Event>)
    requires KeysMatch(s) && Conserved(s) && Possible(s, evs)
    ensures Conserved(After(s, evs)) <==> !SomeOverwrite(s, evs)
  {
    hide InFlight, TotalLost, KeysMatch;
    var s' := After(s, evs);
    forall r: Req
      ensures multiset(s'.submitted)[r] - multiset(s'.reported)[r] - InFlight(s', r) == TotalLost(s, evs, r)
    {
      RunCount(s, evs, r);
    }
    if SomeOverwrite(s, evs) {
      var r := OverwriteLoses(s, evs);
    } else {
      forall r: Req ensures TotalLost(s, evs, r) == 0 {
        LossNeedsOverwrite(s, evs, r);
      }
    }
  }

  lemma {:induction false} RunsJoin(s: State, evs: seq<Event>, more: seq<Event>)
    requires Possible(s, evs) && Possible(After(s, evs), more)
    ensures Possible(s, evs + more) && After(s, evs + more) == After(After(s, evs), more)
    ensures SomeOverwrite(s, evs + more) == (SomeOverwrite(s, evs) || SomeOverwrite(After(s, evs), more))
    decreases |evs|
  {
    hide Enabled, Do, Overwrites;
    if evs == [] {
      assert evs + more == more;
    } else {
      assert (evs + more)[1..] == evs[1..] + more;
      RunsJoin(Do(s, evs[0]), evs[1..], more);
    }
  }

  lemma OneStep(s: State, ev: Event)
    requires Enabled(s, ev)
    ensures Possible(s, [ev]) && After(s, [ev]) == Do(s, ev) && SomeOverwrite(s, [ev]) == Overwrites(s, ev)
  {
    hide Enabled, Do, Overwrites;
    assert [ev][1..] == [];
  }

  /** A run and one more step. */
  lemma ThenStep(s: State, evs: seq<Event>, ev: Event)
    requires Possible(s, evs) && Enabled(After(s, evs), ev)
    ensures Possible(s, evs + [ev]) && After(s, evs + [ev]) == Do(After(s, evs), ev)
    ensures SomeOverwrite(s, evs + [ev]) == (SomeOverwrite(s, evs) || Overwrites(After(s, evs), ev))
  {
    hide Enabled, Do, Overwrites;
    OneStep(After(s, evs), ev);
    RunsJoin(s, evs, [ev]);
  }

  function Send(req: Req): seq<Event> {
    [SubmitLock(req)] + [Push] + [SetFlag] + [Notify] + [UnlockQueue]
  }

  function Work(): seq<Event> {
    [Check] + [LockQueue] + [Take] + [Release] + [Finish]
  }

  lemma SendRuns(s: State, req: Req)
    requires s.guest.Idle? && s.worker == Waiting(false) && s.queueLock.Free?
    ensures Possible(s, Send(req)) && !SomeOverwrite(s, Send(req))
    ensures After(s, Send(req)) == s.(submitted := s.submitted + [req], queue := s.queue + [req], flag := true)
  {
    hide Possible, After, SomeOverwrite;
    OneStep(s, SubmitLock(req));
    ThenStep(s, [SubmitLock(req)], Push);
    ThenStep(s, [SubmitLock(req)] + [Push], SetFlag);
    ThenStep(s, [SubmitLock(req)] + [Push] + [SetFlag], Notify);
    ThenStep(s, [SubmitLock(req)] + [Push] + [SetFlag] + [Notify], UnlockQueue);
  }

  lemma WorkRuns(s: State, req: Req)
    requires s.guest.Idle? && s.worker == Waiting(false) && s.queueLock.Free? && s.completedLock.Free?
    requires s.flag && s.queue == [req]
    ensures Possible(s, Work()) && !SomeOverwrite(s, Work())
    ensures After(s, Work()) == s.(queue := [], completedLock := Worker, worker := Storing(req))
  {
    hide Possible, After, SomeOverwrite;
    TakeRuns(s, req);
    ThenStep(s, [Check] + [LockQueue] + [Take], Release);
    ThenStep(s, [Check] + [LockQueue] + [Take] + [Release], Finish);
  }

  lemma TakeRuns(s: State, req: Req)
    requires s.worker == Waiting(false) && s.queueLock.Free? && s.flag && s.queue == [req]
    ensures var evs := [Check] + [LockQueue] + [Take];
      && Possible(s, evs) && !SomeOverwrite(s, evs)
      && After(s, evs) == s.(queue := [], queueLock := Worker, worker := Popped(req))
  {
    hide Possible, After, SomeOverwrite;
    OneStep(s, Check);
    ThenStep(s, [Check], LockQueue);
    ThenStep(s, [Check] + [LockQueue], Take);
  }

  /** The guest submits, the worker takes the request and is about to store its result. */
  function UpToStore(req: Req): seq<Event> { Send(req) + Work() }

  lemma RunsUpToStore(s: State, req: Req)
    requires s.guest.Idle? && s.worker == Waiting(false) && s.queueLock.Free? && s.completedLock.Free? && s.queue == []
    ensures Possible(s, UpToStore(req)) && !SomeOverwrite(s, UpToStore(req))
    ensures After(s, UpToStore(req))
         == s.(submitted := s.submitted + [req], flag := true, completedLock := Worker, worker := Storing(req))
  {
    hide Possible, After, SomeOverwrite, Send, Work;
    SendRuns(s, req);
    WorkRuns(After(s, Send(req)), req);
    RunsJoin(s, Send(req), Work());
  }

  /** Two requests under identifier 7, the first done but not yet asked for when the second is done. */
  function ClashingRun(): seq<Event> {
    UpToStore(Req(7, 0)) + [Emplace] + [Done] + (UpToStore(Req(7, 1)) + [Emplace])
  }

  /** A run from start-up that loses a request for good. */
  lemma ClashingRunLoses()
    ensures Possible(Initial(), ClashingRun()) && SomeOverwrite(Initial(), ClashingRun())
    ensures var s := After(Initial(), ClashingRun());
      !Conserved(s) && Req(7, 1) in s.submitted && Req(7, 1) !in s.reported && InFlight(s, Req(7, 1)) == 0
  {
    hide Possible, After, SomeOverwrite, UpToStore;
    var first, again := Req(7, 0), Req(7, 1);
    var s0 := Initial();
    RunsUpToStore(s0, first);
    ThenStep(s0, UpToStore(first), Emplace);
    ThenStep(s0, UpToStore(first) + [Emplace], Done);
    var s1 := After(s0, UpToStore(first) + [Emplace] + [Done]);
    RunsUpToStore(s1, again);
    ThenStep(s1, UpToStore(again), Emplace);
    RunsJoin(s0, UpToStore(first) + [Emplace] + [Done], UpToStore(again) + [Emplace]);
    var s := After(s0, ClashingRun());
    assert s.submitted == [first, again] && s.reported == [] && s.completed == map[7 := first];
    assert InFlight(s, again) == 0;
    assert multiset(s.submitted)[again] == 1;
  }

  // ---- The worker drains the queue ----

  /** The worker's next step while the guest is idle; asleep it has none. */
  function WorkerNext(s: State): Option<Event> {
    match s.worker
    case Waiting(asleep) => if asleep then None else Some(Check)
    case Awake => Some(LockQueue)
    case Locked => Some(Take)
    case Cleared => Some(Release)
    case Popped(_) => Some(Release)
    case Working(_) => Some(Finish)
    case Storing(_) => Some(Emplace)
    case Stored => Some(Done)
  }

  function Rank(s: State): nat {
    match s.worker
    case Waiting(asleep) => if asleep then 0 else if s.flag then 6 else 1
    case Awake => 5
    case Locked => 4
    case Cleared => 2
    case Popped(_) => 12
    case Working(_) => 11
    case Storing(_) => 10
    case Stored => 9
  }

  function Remaining(s: State): nat { 9 * |s.queue| + Rank(s) }

  lemma WorkerProgress(s: State)
    requires Inv(s) && s.guest.Idle? && WorkerNext(s).Some?
    ensures Enabled(s, WorkerNext(s).value)
    ensures var s' := Do(s, WorkerNext(s).value); Inv(s') && s'.guest.Idle? && Remaining(s') < Remaining(s)
  {
    StepKeepsInv(s, WorkerNext(s).value);
  }

  function Drain(s: State): State
    requires Inv(s) && s.guest.Idle?
    decreases Remaining(s)
  {
    match WorkerNext(s)
    case None => s
    case Some(ev) =>
      WorkerProgress(s);
      Drain(Do(s, ev))
  }

  /** Left to itself the worker empties the queue and goes to sleep with nothing in hand, and every request
      that was queued or in its hand can then be queried. */
  lemma {:induction false} WorkerDrains(s: State)
    requires AllGood(s) && s.guest.Idle?
    ensures var s' := Drain(s);
      && AllGood(s') && s'.queue == [] && s'.worker == Waiting(true) && !s'.flag
      && s'.retry == s.retry && s'.submitted == s.submitted && s'.reported == s.reported
      && (forall r: Req :: r in s.queue || r in WorkerHand(s.worker) ==> InMap(s'.completed, r) == 1)
    decreases Remaining(s)
  {
    DrainKeeps(s);
    var s' := Drain(s);
    forall r: Req | r in s.queue || r in WorkerHand(s.worker) ensures InMap(s'.completed, r) == 1 {
      assert InFlight(s, r) > 0;
      assert InFlight(s', r) == multiset(s.submitted)[r] - multiset(s.reported)[r] == InFlight(s, r);
      assert InFlight(s, r) == 1 && multiset(s.retry)[r] == 0;
    }
  }

  lemma {:induction false} DrainKeeps(s: State)
    requires AllGood(s) && s.guest.Idle?
    ensures var s' := Drain(s);
      && AllGood(s') && s'.queue == [] && s'.worker == Waiting(true) && !s'.flag && s'.guest.Idle?
      && s'.retry == s.retry && s'.submitted == s.submitted && s'.reported == s.reported
    decreases Remaining(s)
  {
    hide Conserved, Distinct, KeysMatch, Overwrites;
    match WorkerNext(s)
    case None =>
    case Some(ev) =>
      WorkerProgress(s);
      if Overwrites(s, ev) { OverwriteNeedsClash(s, ev); }
      ConservationIsExact(s, ev);
      DistinctKept(s, ev);
      DrainKeeps(Do(s, ev));
  }
}
