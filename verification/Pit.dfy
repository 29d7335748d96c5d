/** PIT channel 0: how many timer interrupts a number of clock ticks raises, however the ticks are grouped. */
module Pit {
  import opened Words

  type u16 = x: int | 0 <= x < 0x1_0000

  /** The counting state of a channel; `raised` counts the requests made to the interrupt controller. */
  datatype Channel = Channel(reload: u16, count: u16, mode: nat, enabled: bool, output: bool, raised: nat)

  /** load_count: 65536 does not fit the 16-bit register and is stored as zero. */
  function Loaded(c: Channel, val: u16): Channel {
    var reload: u16 := (if val != 0 then val else 65536) % 0x1_0000;
    c.(reload := reload, count := reload, enabled := true, output := false)
  }

  /** One turn of the tick loop. */
  function Clock(c: Channel): Channel {
    var start := if c.count == 0 then c.reload else c.count;
    var count: u16 := (start as int - 1) % 0x1_0000;
    if count != 0 then c.(count := count)
    else if c.mode == 0 then c.(count := 0, output := true, enabled := false, raised := c.raised + 1)
    else if c.mode == 2 then c.(count := c.reload, raised := c.raised + 1)
    else if c.mode == 3 then c.(count := c.reload, output := !c.output, raised := c.raised + 1)
    else c.(count := 0)
  }

  function Clocks(c: Channel, n: nat): Channel {
    if n == 0 then c else Clock(Clocks(c, n - 1))
  }

  lemma NoClocks(c: Channel)
    ensures Clocks(c, 0) == c
  {
  }

  lemma OneMoreClock(c: Channel, n: nat)
    ensures Clocks(c, n + 1) == Clock(Clocks(c, n))
  {
  }

  /** tick(n): whether the channel counts is looked at once, before the loop. */
  function Tick(c: Channel, n: nat): Channel {
    if c.enabled then Clocks(c, n) else c
  }

  function Ticks(c: Channel, groups: seq<nat>): Channel
    decreases |groups|
  {
    if groups == [] then c else Ticks(Tick(c, groups[0]), groups[1..])
  }

  function Sum(groups: seq<nat>): nat
    decreases |groups|
  {
    if groups == [] then 0 else groups[0] + Sum(groups[1..])
  }

  function Divisor(val: u16): (d: nat)
    ensures 0 < d <= 65536
  {
    if val == 0 then 65536 else val
  }

  // ---- Position in the period ----

  /** `k` clocks after a load with divisor d, of which `q` full periods, `r` clocks into the current one. */
  predicate Position(c: Channel, c0: Channel, d: nat, q: nat, r: nat) {
    && 0 < d <= 65536 && c.reload == d % 0x1_0000 && r < d && c.mode == c0.mode && c.raised == c0.raised + q
    && (c.count == (d - r) % 0x1_0000 || (r == 0 && q > 0 && c.mode == 0 && c.count == 0))
  }

  lemma NextPosition(c: Channel, c0: Channel, d: nat, q: nat, r: nat)
    requires Position(c, c0, d, q, r) && c.mode in {0, 2, 3}
    ensures if r + 1 == d then Position(Clock(c), c0, d, q + 1, 0) else Position(Clock(c), c0, d, q, r + 1)
    ensures Clock(c).enabled == (c.enabled && !(c.mode == 0 && r + 1 == d))
    ensures Clock(c).output == if r + 1 != d then c.output else if c.mode == 0 then true else if c.mode == 3 then !c.output else c.output
  {
  }

  /** n clocks from a load: the quotient counts interrupts, the remainder the clocks since the last. */
  lemma {:induction false} ClocksDivide(c: Channel, val: u16, n: nat)
    requires c.mode in {0, 2, 3}
    ensures
      var d, r := Divisor(val), Clocks(Loaded(c, val), n);
      && Position(r, c, d, n / d, n % d)
      && (r.enabled <==> c.mode != 0 || n < d)
      && (c.mode == 3 ==> (r.output <==> n / d % 2 == 1))
      && (c.mode == 0 ==> (r.output <==> n >= d))
  {
    hide Clock, Position, Loaded;
    var d := Divisor(val);
    if n == 0 {
      SmallQuotient(0, d);
      FreshPosition(c, val);
    } else {
      ClocksDivide(c, val, n - 1);
      NextQuotient(n - 1, d);
      QuotientZero(n, d);
      QuotientZero(n - 1, d);
      Advance(Clocks(Loaded(c, val), n - 1), c, d, n, (n - 1) / d, (n - 1) % d);
    }
  }

  /** In the modes without interrupts the counter runs down, rests at zero for one clock and starts over; nothing else
      changes. */
  lemma {:induction false} OtherModesSilent(c: Channel, val: u16, n: nat)
    requires c.mode !in {0, 2, 3}
    ensures var d, start := Divisor(val), Loaded(c, val);
      Clocks(start, n) == start.(count := if n > 0 && n % d == 0 then 0 else (d - n % d) % 0x1_0000)
  {
    hide Clock;
    var d, start := Divisor(val), Loaded(c, val);
    LoadedCount(c, val);
    if n == 0 {
      SmallQuotient(0, d);
    } else {
      OtherModesSilent(c, val, n - 1);
      NextQuotient(n - 1, d);
      QuotientZero(n - 1, d);
      var p, r := Clocks(start, n - 1), (n - 1) % d;
      hide Loaded, Clocks, Divisor;
      SilentClock(p, d, r, n > 1);
    }
  }

  lemma LoadedCount(c: Channel, val: u16)
    ensures var d := Divisor(val); Loaded(c, val).count == Loaded(c, val).reload == d % 0x1_0000
    ensures Loaded(c, val).mode == c.mode
  {
  }

  lemma SilentClock(c: Channel, d: nat, r: nat, later: bool)
    requires c.mode !in {0, 2, 3} && 0 < d <= 65536 && r < d && c.reload == d % 0x1_0000
    requires c.count == if later && r == 0 then 0 else (d - r) % 0x1_0000
    ensures Clock(c) == c.(count := if r + 1 == d then 0 else (d - (r + 1)) % 0x1_0000)
  {
  }

  /** One more clock, given where the period stands before and after. */
  lemma Advance(p: Channel, c: Channel, d: nat, n: nat, q: nat, r: nat)
    requires c.mode in {0, 2, 3} && 0 < n && 0 < d && r < d && Position(p, c, d, q, r)
    requires (p.enabled <==> c.mode != 0 || n - 1 < d)
    requires (c.mode == 3 ==> (p.output <==> q % 2 == 1)) && (c.mode == 0 ==> (p.output <==> n - 1 >= d))
    requires (q == 0 <==> n - 1 < d) && ((if r + 1 == d then q + 1 else q) == 0 <==> n < d)
    ensures
      var q1, r1, p1 := if r + 1 == d then q + 1 else q, if r + 1 == d then 0 else r + 1, Clock(p);
      && Position(p1, c, d, q1, r1) && (p1.enabled <==> c.mode != 0 || n < d)
      && (c.mode == 3 ==> (p1.output <==> q1 % 2 == 1)) && (c.mode == 0 ==> (p1.output <==> n >= d))
  {
    hide Clock, Position;
    SameMode(p, c, d, q, r);
    NextPosition(p, c, d, q, r);
  }

  lemma FreshPosition(c: Channel, val: u16)
    ensures Position(Loaded(c, val), c, Divisor(val), 0, 0) && Loaded(c, val).enabled && !Loaded(c, val).output
  {
  }

  lemma SameMode(p: Channel, c: Channel, d: nat, q: nat, r: nat)
    requires Position(p, c, d, q, r)
    ensures p.mode == c.mode
  {
  }

  lemma SmallQuotient(n: nat, d: nat)
    requires n < d
    ensures n / d == 0 && n % d == n
  {
  }

  lemma QuotientZero(n: nat, d: nat)
    requires d > 0
    ensures n / d == 0 <==> n < d
  {
    if n < d { SmallQuotient(n, d); } else { assert n == d * (n / d) + n % d; }
  }

  lemma NextQuotient(n: nat, d: nat)
    requires d > 0
    ensures (n + 1) / d == (if n % d + 1 == d then n / d + 1 else n / d)
    ensures (n + 1) % d == (if n % d + 1 == d then 0 else n % d + 1)
  {
    var q, r := n / d, n % d;
    assert n == d * q + r;
    if r + 1 == d {
      assert n + 1 == d * (q + 1);
      Unique(n + 1, d, q + 1, 0);
    } else {
      Unique(n + 1, d, q, r + 1);
    }
  }

  // ---- Grouping ----

  lemma {:induction false} ClocksAdd(c: Channel, m: nat, n: nat)
    ensures Clocks(Clocks(c, m), n) == Clocks(c, m + n)
  {
    if n > 0 { ClocksAdd(c, m, n - 1); }
  }

  lemma {:induction false} KeepsCounting(c: Channel, n: nat)
    requires c.mode != 0
    ensures Clocks(c, n).enabled == c.enabled && Clocks(c, n).mode == c.mode
  {
    if n > 0 { KeepsCounting(c, n - 1); }
  }

  lemma {:induction false} GroupsAdd(c: Channel, groups: seq<nat>)
    requires c.enabled && c.mode != 0
    ensures Ticks(c, groups) == Clocks(c, Sum(groups))
    decreases |groups|
  {
    hide Clock;
    if groups != [] {
      KeepsCounting(c, groups[0]);
      GroupsAdd(Clocks(c, groups[0]), groups[1..]);
      ClocksAdd(c, groups[0], Sum(groups[1..]));
    }
  }

  /** Rate generator and square wave: exactly floor(k / N) interrupts for k clocks in any grouping, and in mode 3 the
      output has the parity of that number. */
  lemma PeriodicDivides(c: Channel, val: u16, groups: seq<nat>)
    requires c.mode in {2, 3}
    ensures
      var r, q := Ticks(Loaded(c, val), groups), Sum(groups) / Divisor(val);
      && r.raised == c.raised + q && r.enabled && (c.mode == 3 ==> (r.output <==> q % 2 == 1))
  {
    hide Clock;
    GroupsAdd(Loaded(c, val), groups);
    ClocksDivide(c, val, Sum(groups));
  }

  // ---- Mode 0 ----

  /** The clocks that count: up to the end of the first call that brings the total to d, or all of them. */
  function Counted(groups: seq<nat>, before: nat, d: nat): nat
    decreases |groups|
  {
    if groups == [] || before >= d then before else Counted(groups[1..], before + groups[0], d)
  }

  lemma {:induction false} StopsAfterFiring(c: Channel, groups: seq<nat>)
    requires !c.enabled
    ensures Ticks(c, groups) == c
    decreases |groups|
  {
    if groups != [] { StopsAfterFiring(c, groups[1..]); }
  }

  lemma {:induction false} OneShotFrom(c: Channel, val: u16, groups: seq<nat>, before: nat)
    requires c.mode == 0
    ensures Ticks(Clocks(Loaded(c, val), before), groups) == Clocks(Loaded(c, val), Counted(groups, before, Divisor(val)))
    decreases |groups|
  {
    hide Clock, Position, Loaded;
    var l := Loaded(c, val);
    ClocksDivide(c, val, before);
    if groups != [] {
      if before >= Divisor(val) {
        StopsAfterFiring(Clocks(l, before), groups);
      } else {
        ClocksAdd(l, before, groups[0]);
        OneShotFrom(c, val, groups[1..], before + groups[0]);
      }
    }
  }

  /** The one-shot raises floor(t / N) interrupts, t being the clocks counted until the end of the call that
      reaches N: within that call it goes on firing. */
  lemma OneShotCounts(c: Channel, val: u16, groups: seq<nat>)
    requires c.mode == 0
    ensures
      var r, d := Ticks(Loaded(c, val), groups), Divisor(val);
      && r.raised == c.raised + Counted(groups, 0, d) / d
      && (r.output <==> Sum(groups) >= d) && (r.enabled <==> Sum(groups) < d)
  {
    hide Clock;
    var d := Divisor(val);
    assert Clocks(Loaded(c, val), 0) == Loaded(c, val);
    OneShotFrom(c, val, groups, 0);
    ClocksDivide(c, val, Counted(groups, 0, d));
    CountedReaches(groups, 0, d);
  }

  lemma {:induction false} CountedReaches(groups: seq<nat>, before: nat, d: nat)
    ensures Counted(groups, before, d) >= d <==> before + Sum(groups) >= d
    decreases |groups|
  {
    if groups != [] && before < d { CountedReaches(groups[1..], before + groups[0], d); }
  }

  /** So the interrupt is single exactly when the call that reaches N ends before 2 N. */
  lemma OneShotIsSingle(c: Channel, val: u16, groups: seq<nat>)
    requires c.mode == 0
    ensures
      var r, d := Ticks(Loaded(c, val), groups), Divisor(val);
      r.raised == c.raised + (if Sum(groups) >= d then 1 else 0) <==> Counted(groups, 0, d) < 2 * d
  {
    var d := Divisor(val);
    var t := Counted(groups, 0, d);
    OneShotCounts(c, val, groups);
    CountedReaches(groups, 0, d);
    QuotientZero(t, d);
    QuotientOne(t, d);
  }

  lemma QuotientOne(t: nat, d: nat)
    requires d > 0
    ensures t / d <= 1 <==> t < 2 * d
  {
    assert t == d * (t / d) + t % d;
    if t / d >= 2 { assert d * (t / d) >= d * 2; }
  }

  /** One clock at a time it is always single. */
  lemma {:induction false} SingleSteps(groups: seq<nat>, before: nat, d: nat)
    requires 0 < d && before <= d && forall i :: 0 <= i < |groups| ==> groups[i] <= 1
    ensures Counted(groups, before, d) <= d
    decreases |groups|
  {
    if groups != [] && before < d { SingleSteps(groups[1..], before + groups[0], d); }
  }

  /** A call that runs past N twice or more fires again: divisor 1, three clocks in one call. */
  lemma OneShotFiresAgain(c: Channel)
    requires c.mode == 0 && c.raised == 0
    ensures Ticks(Loaded(c, 1), [3]).raised == 3 && Ticks(Loaded(c, 1), [1, 1, 1]).raised == 1
  {
    OneShotCounts(c, 1, [3]);
    OneShotCounts(c, 1, [1, 1, 1]);
    assert Counted([3], 0, 1) == 3;
    assert Counted([1, 1, 1], 0, 1) == 1;
  }

  // ---- In place ----

  class PitChannel {
    var reload: u16
    var count: u16
    var mode: nat
    var enabled: bool
    var output: bool
    var raised: nat

    constructor (mode: nat)
      ensures Abstract() == Channel(0, 0, mode, false, false, 0)
    {
      reload, count, this.mode, enabled, output, raised := 0, 0, mode, false, false, 0;
    }

    ghost function Abstract(): Channel
      reads this
    {
      Channel(reload, count, mode, enabled, output, raised)
    }

    method LoadCount(val: u16)
      modifies this
      ensures Abstract() == Loaded(old(Abstract()), val)
    {
      reload := (if val != 0 then val else 65536) % 0x1_0000;
      count := reload;
      enabled, output := true, false;
    }

    /** PitState::tick on this channel. */
    method TickTimes(n: nat)
      modifies this
      ensures Abstract() == Tick(old(Abstract()), n)
    {
      ghost var start := Abstract();
      if !enabled { return; }
      hide Clocks;
      NoClocks(start);
      for i := 0 to n
        invariant Abstract() == Clocks(start, i)
      {
        OneMoreClock(start, i);
        ghost var before := Abstract();
        if count == 0 { count := reload; }
        count := (count as int - 1) % 0x1_0000;
        if count == 0 {
          if mode == 0 {
            output, enabled := true, false;
            raised := raised + 1;
          } else if mode == 2 {
            count := reload;
            raised := raised + 1;
          } else if mode == 3 {
            output, count := !output, reload;
            raised := raised + 1;
          }
        }
        assert Abstract() == Clock(before);
      }
    }
  }
}
