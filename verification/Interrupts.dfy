// The simulated clock and its pending interrupts (machine/interrupt.cc).
module Interrupts {
  import opened Collections
  import opened Lists

  const SYSTEM_TICK := 10
  const USER_TICK := 1

  // serial numbers the interrupts in the order in which they are scheduled.
  datatype Event = Event(when: int, serial: nat)

  // SortedList::Insert with PendingCompare: behind everything that is not later.
  function Insert(q: seq<Event>, e: Event): seq<Event> {
    if q == [] || e.when < q[0].when then [e] + q else [q[0]] + Insert(q[1..], e)
  }

  lemma {:induction false} InsertAdds(q: seq<Event>, e: Event)
    ensures multiset(Insert(q, e)) == multiset(q) + multiset{e}
  {
    if !(q == [] || e.when < q[0].when) {
      InsertAdds(q[1..], e);
      assert q == [q[0]] + q[1..];
    }
  }

  function PendingCompare(x: Event, y: Event): int {
    if x.when < y.when then -1 else if x.when > y.when then 1 else 0
  }

  // The linked list that the kernel keeps does exactly this.
  lemma {:induction false} InsertIsSortedInsert(q: seq<Event>, e: Event)
    ensures Insert(q, e) == InsertSorted(PendingCompare, q, e)
  {
    if q != [] && e.when >= q[0].when {
      InsertIsSortedInsert(q[1..], e);
    }
  }

  // A request for an interrupt: when it was made, for how much later, and by which call of a handler, if by one.
  datatype Ask = Ask(time: int, delay: int, caller: Option<nat>)

  // The tick counters and the pending list; the rest records history: the interrupts scheduled, as asked for;
  // those fired, with the time at which each handler was called and the number of requests made before.
  datatype Clock = Clock(
    total: int, idle: int, system: int, user: int, pending: seq<Event>,
    scheduled: seq<Event>, asked: seq<Ask>, fired: seq<Event>, times: seq<int>, began: seq<nat>)

  function Boot(): Clock {
    Clock(0, 0, 0, 0, [], [], [], [], [], [])
  }

  function Schedule(c: Clock, fromNow: int, caller: Option<nat>): Clock {
    var e := Event(c.total + fromNow, |c.scheduled|);
    c.(pending := Insert(c.pending, e), scheduled := c.scheduled + [e], asked := c.asked + [Ask(c.total, fromNow, caller)])
  }

  // What the k-th handler ever called schedules: delays[i] + 1 ticks ahead each, in this order.
  type Handlers = nat -> seq<nat>

  function ScheduleAll(c: Clock, delays: seq<nat>, k: nat): Clock {
    if delays == [] then c
    else Schedule(ScheduleAll(c, delays[..|delays| - 1], k), delays[|delays| - 1] + 1, Some(k))
  }

  lemma OneMoreAsked(c: Clock, delays: seq<nat>, i: nat, k: nat)
    requires i < |delays|
    ensures ScheduleAll(c, delays[..i + 1], k) == Schedule(ScheduleAll(c, delays[..i], k), delays[i] + 1, Some(k))
  {
    assert delays[..i + 1][..i] == delays[..i];
  }

  predicate HasDue(c: Clock) {
    c.pending != [] && c.pending[0].when <= c.total
  }

  function TakeFirst(c: Clock): Clock
    requires c.pending != []
  {
    c.(pending := c.pending[1..], fired := c.fired + [c.pending[0]], times := c.times + [c.total], began := c.began + [|c.asked|])
  }

  // One pass of the loop in CheckIfDue: take the first interrupt off the list and call its handler.
  function FireFirst(c: Clock, h: Handlers): Clock
    requires c.pending != []
  {
    ScheduleAll(TakeFirst(c), h(|c.fired|), |c.fired|)
  }

  function Due(q: seq<Event>, now: int): nat {
    if q == [] then 0 else (if q[0].when <= now then 1 else 0) + Due(q[1..], now)
  }

  lemma {:induction false} InsertLater(q: seq<Event>, e: Event, now: int)
    requires e.when > now
    ensures Due(Insert(q, e), now) == Due(q, now)
  {
    var q' := Insert(q, e);
    if q == [] || e.when < q[0].when {
      assert q'[1..] == q;
    } else {
      assert q'[1..] == Insert(q[1..], e);
      InsertLater(q[1..], e, now);
    }
  }

  lemma {:induction false} HandlersScheduleLater(c: Clock, delays: seq<nat>, k: nat)
    ensures var c' := ScheduleAll(c, delays, k);
            && Due(c'.pending, c.total) == Due(c.pending, c.total)
            && c' == c.(pending := c'.pending, scheduled := c'.scheduled, asked := c'.asked)
  {
    if delays != [] {
      var c1 := ScheduleAll(c, delays[..|delays| - 1], k);
      HandlersScheduleLater(c, delays[..|delays| - 1], k);
      InsertLater(c1.pending, Event(c.total + delays[|delays| - 1] + 1, |c1.scheduled|), c.total);
    }
  }

  // The loop terminates although handlers schedule more: each pass leaves one fewer due.
  lemma OneFewerDue(c: Clock, h: Handlers)
    requires HasDue(c)
    ensures FireFirst(c, h).total == c.total
    ensures Due(FireFirst(c, h).pending, c.total) == Due(c.pending, c.total) - 1
  {
    HandlersScheduleLater(TakeFirst(c), h(|c.fired|), |c.fired|);
  }

  function FireAll(c: Clock, h: Handlers): Clock
    decreases Due(c.pending, c.total)
  {
    if !HasDue(c) then c else OneFewerDue(c, h); FireAll(FireFirst(c, h), h)
  }

  // Handlers do not move the clock.
  lemma {:induction false} FiringKeepsTicks(c: Clock, h: Handlers)
    ensures var c' := FireAll(c, h); c'.total == c.total && c'.idle == c.idle && c'.system == c.system && c'.user == c.user
    decreases Due(c.pending, c.total)
  {
    if HasDue(c) {
      OneFewerDue(c, h);
      HandlersScheduleLater(TakeFirst(c), h(|c.fired|), |c.fired|);
      FiringKeepsTicks(FireFirst(c, h), h);
    }
  }

  // CheckIfDue: with advanceClock, time jumps to the next interrupt.
  function CheckIfDue(c: Clock, advanceClock: bool, h: Handlers): Clock {
    if c.pending == [] then c
    else
      var next := c.pending[0];
      if next.when > c.total && !advanceClock then c
      else if next.when > c.total then FireAll(c.(idle := c.idle + (next.when - c.total), total := next.when), h)
      else FireAll(c, h)
  }

  function OneTick(c: Clock, systemMode: bool, h: Handlers): Clock {
    var c' := if systemMode then c.(total := c.total + SYSTEM_TICK, system := c.system + SYSTEM_TICK)
              else c.(total := c.total + USER_TICK, user := c.user + USER_TICK);
    CheckIfDue(c', false, h)
  }

  // ---------------------------------------------------------------------
  // The object

  class Interrupt {
    var totalTicks: int
    var idleTicks: int
    var systemTicks: int
    var userTicks: int
    var pending: seq<Event>
    var inHandler: bool
    var scheduled: seq<Event>
    var fired: seq<Event>
    var times: seq<int>
    ghost var asked: seq<Ask>
    ghost var began: seq<nat>

    ghost function View(): Clock
      reads this
    {
      Clock(totalTicks, idleTicks, systemTicks, userTicks, pending, scheduled, asked, fired, times, began)
    }

    // One more interrupt is pending, that many ticks from now; caller is history.
    method ScheduleIn(fromNow: int, ghost caller: Option<nat> := None)
      requires fromNow > 0
      modifies this
      ensures View() == Schedule(old(View()), fromNow, caller) && inHandler == old(inHandler)
      ensures var e := Event(old(totalTicks) + fromNow, |old(scheduled)|);
              && multiset(pending) == old(multiset(pending)) + multiset{e} && scheduled == old(scheduled) + [e]
              && asked == old(asked) + [Ask(old(totalTicks), fromNow, caller)]
      ensures totalTicks == old(totalTicks) && fired == old(fired)
    {
      var e := Event(totalTicks + fromNow, |scheduled|);
      InsertAdds(pending, e);
      pending := Insert(pending, e);
      scheduled := scheduled + [e];
      asked := asked + [Ask(totalTicks, fromNow, caller)];
    }

    method CallBack(h: Handlers)
      requires |fired| > 0
      modifies this
      ensures View() == ScheduleAll(old(View()), h(|old(fired)| - 1), |old(fired)| - 1) && inHandler == old(inHandler)
    {
      ghost var c, k := View(), |fired| - 1;
      var delays := h(|fired| - 1);
      var i := 0;
      while i < |delays|
        invariant 0 <= i <= |delays|
        invariant View() == ScheduleAll(c, delays[..i], k) && inHandler == old(inHandler)
      {
        CallOne(c, delays, i, k);
        i := i + 1;
      }
      assert delays[..i] == delays;
    }

    method CallOne(ghost c: Clock, delays: seq<nat>, i: nat, ghost k: nat)
      requires i < |delays| && View() == ScheduleAll(c, delays[..i], k)
      modifies this
      ensures View() == ScheduleAll(c, delays[..i + 1], k) && inHandler == old(inHandler)
    {
      OneMoreAsked(c, delays, i, k);
      ScheduleIn(delays[i] + 1, Some(k));
    }

    method FireOne(h: Handlers)
      requires pending != []
      modifies this
      ensures View() == FireFirst(old(View()), h) && inHandler == old(inHandler)
    {
      fired, times, began := fired + [pending[0]], times + [totalTicks], began + [|asked|];
      pending := pending[1..];
      CallBack(h);
    }

    method FireDue(advanceClock: bool, h: Handlers) returns (any: bool)
      modifies this
      ensures View() == CheckIfDue(old(View()), advanceClock, h)
      ensures any <==> old(pending) != [] && (advanceClock || old(pending)[0].when <= old(totalTicks))
      ensures any ==> !inHandler
      ensures var jump := if advanceClock && old(pending) != [] && old(pending)[0].when > old(totalTicks) then old(pending)[0].when - old(totalTicks) else 0;
              && totalTicks == old(totalTicks) + jump && idleTicks == old(idleTicks) + jump
              && systemTicks == old(systemTicks) && userTicks == old(userTicks)
    {
      if pending == [] {
        return false;
      }
      var next := pending[0];
      if next.when > totalTicks {
        if !advanceClock {
          return false;
        }
        idleTicks := idleTicks + (next.when - totalTicks);
        totalTicks := next.when;
      }
      ghost var start := View();
      FiringKeepsTicks(start, h);
      inHandler := true;
      OneFewerDue(View(), h);
      FireOne(h);
      while pending != [] && pending[0].when <= totalTicks
        invariant FireAll(View(), h) == FireAll(start, h)
        decreases Due(pending, totalTicks)
      {
        OneFewerDue(View(), h);
        FireOne(h);
      }
      inHandler := false;
      return true;
    }

    method Tick(systemMode: bool, h: Handlers)
      modifies this
      ensures View() == OneTick(old(View()), systemMode, h)
      ensures totalTicks == old(totalTicks) + (if systemMode then SYSTEM_TICK else USER_TICK) && idleTicks == old(idleTicks)
      ensures systemTicks == old(systemTicks) + (if systemMode then SYSTEM_TICK else 0)
      ensures userTicks == old(userTicks) + (if systemMode then 0 else USER_TICK)
    {
      if systemMode {
        totalTicks, systemTicks := totalTicks + SYSTEM_TICK, systemTicks + SYSTEM_TICK;
      } else {
        totalTicks, userTicks := totalTicks + USER_TICK, userTicks + USER_TICK;
      }
      var _ := FireDue(false, h);
    }
  }
}

// Whole runs of the clock, with handlers that schedule whatever they like.
module InterruptRuns {
  import opened Collections
  import opened Interrupts

  datatype Action =
    | Tick(systemMode: bool)    // an instruction, or interrupts enabled again
    | Idle                      // nothing to run
    | Request(fromNow: int)     // a device schedules its next interrupt

  function Next(c: Clock, a: Action, h: Handlers): Clock {
    match a
    case Tick(systemMode) => OneTick(c, systemMode, h)
    case Idle => CheckIfDue(c, true, h)
    case Request(fromNow) => if fromNow > 0 then Schedule(c, fromNow, None) else c
  }

  function Run(acts: seq<Action>, h: Handlers): Clock {
    if acts == [] then Boot() else Next(Run(acts[..|acts| - 1], h), acts[|acts| - 1], h)
  }

  // ---------------------------------------------------------------------

  predicate Before(e: Event, f: Event) {
    e.when < f.when || (e.when == f.when && e.serial < f.serial)
  }

  ghost predicate Ordered(q: seq<Event>) {
    forall i, j :: 0 <= i < j < |q| ==> Before(q[i], q[j])
  }

  ghost predicate TicksAddUp(c: Clock) {
    c.total == c.idle + c.system + c.user && c.idle >= 0 && c.system >= 0 && c.user >= 0
  }

  ghost predicate Numbered(s: seq<Event>) {
    forall i :: 0 <= i < |s| ==> s[i].serial == i
  }

  // Each interrupt is scheduled for the time that was asked for.
  ghost predicate AsAsked(c: Clock) {
    |c.asked| == |c.scheduled|
    && forall i :: 0 <= i < |c.asked| ==> c.asked[i].delay > 0 && c.scheduled[i].when == c.asked[i].time + c.asked[i].delay
  }

  // Every interrupt scheduled has fired once or is pending once.
  ghost predicate Conserved(c: Clock) {
    && Numbered(c.scheduled)
    && multiset(c.fired) + multiset(c.pending) == multiset(c.scheduled)
  }

  ghost predicate NeverEarly(c: Clock) {
    && |c.times| == |c.fired|
    && (forall i :: 0 <= i < |c.fired| ==> c.fired[i].when <= c.times[i] <= c.total)
    && (forall i, j :: 0 <= i < j < |c.times| ==> c.times[i] <= c.times[j])
  }

  ghost predicate Inv(c: Clock) {
    TicksAddUp(c) && AsAsked(c) && Conserved(c) && NeverEarly(c) && Ordered(c.fired + c.pending)
  }

  // The newest interrupt goes behind all those that are not later.
  lemma {:induction false} InsertKeepsOrder(f: seq<Event>, q: seq<Event>, e: Event)
    requires Ordered(f + q)
    requires forall i :: 0 <= i < |f| ==> Before(f[i], e)
    requires forall i :: 0 <= i < |q| ==> q[i].serial < e.serial
    ensures Ordered(f + Insert(q, e))
    decreases |q|
  {
    if q == [] || e.when < q[0].when {
      PlaceHere(f, q, e);
    } else {
      assert f + [q[0]] + q[1..] == f + q;
      InsertKeepsOrder(f + [q[0]], q[1..], e);
      assert f + [q[0]] + Insert(q[1..], e) == f + Insert(q, e);
    }
  }

  lemma PlaceHere(f: seq<Event>, q: seq<Event>, e: Event)
    requires Ordered(f + q) && (q == [] || e.when < q[0].when)
    requires forall i :: 0 <= i < |f| ==> Before(f[i], e)
    ensures Ordered(f + ([e] + q))
  {
    var s, s' := f + q, f + ([e] + q);
    var n := |f|;
    forall i, j | 0 <= i < j < |s'|
      ensures Before(s'[i], s'[j])
    {
      if i != n && j != n {
        assert Before(s[if i < n then i else i - 1], s[if j < n then j else j - 1]);
      } else if i == n && j > n + 1 {
        assert Before(s[n], s[j - 1]);
      }
    }
  }

  lemma PendingAreScheduled(c: Clock, i: nat)
    requires Conserved(c) && i < |c.pending|
    ensures c.pending[i].serial < |c.scheduled|
  {
    assert c.pending[i] in multiset(c.pending);
    assert c.pending[i] in multiset(c.scheduled);
  }

  lemma ScheduleKeepsInv(c: Clock, fromNow: int, caller: Option<nat>)
    requires Inv(c) && fromNow > 0
    ensures Inv(Schedule(c, fromNow, caller))
  {
    ScheduleKeepsOrder(c, Event(c.total + fromNow, |c.scheduled|));
    ScheduleConserves(c, fromNow, caller);
    assert AsAsked(Schedule(c, fromNow, caller));
  }

  lemma ScheduleConserves(c: Clock, fromNow: int, caller: Option<nat>)
    requires Conserved(c)
    ensures Conserved(Schedule(c, fromNow, caller))
  {
    var e := Event(c.total + fromNow, |c.scheduled|);
    InsertAdds(c.pending, e);
    Snoc(c.scheduled, e);
    OneMore(multiset(c.fired), multiset(c.pending), multiset(Insert(c.pending, e)), multiset(c.scheduled), e);
    var c' := Schedule(c, fromNow, caller);
    assert c'.fired == c.fired && c'.pending == Insert(c.pending, e) && c'.scheduled == c.scheduled + [e];
  }

  lemma Snoc(s: seq<Event>, e: Event)
    ensures multiset(s + [e]) == multiset(s) + multiset{e}
    ensures Numbered(s) && e.serial == |s| ==> Numbered(s + [e])
  {
  }

  lemma OneMore(fired: multiset<Event>, pending: multiset<Event>, pending': multiset<Event>, scheduled: multiset<Event>, e: Event)
    requires fired + pending == scheduled && pending' == pending + multiset{e}
    ensures fired + pending' == scheduled + multiset{e}
  {
  }

  lemma ScheduleKeepsOrder(c: Clock, e: Event)
    requires NeverEarly(c) && Conserved(c) && Ordered(c.fired + c.pending) && e.when > c.total && e.serial == |c.scheduled|
    ensures Ordered(c.fired + Insert(c.pending, e))
  {
    forall i | 0 <= i < |c.pending|
      ensures c.pending[i].serial < e.serial
    {
      PendingAreScheduled(c, i);
    }
    forall i | 0 <= i < |c.fired|
      ensures Before(c.fired[i], e)
    {
      assert c.fired[i].when <= c.times[i];
    }
    InsertKeepsOrder(c.fired, c.pending, e);
  }

  lemma {:induction false} HandlerKeepsInv(c: Clock, delays: seq<nat>, k: nat)
    requires Inv(c)
    ensures Inv(ScheduleAll(c, delays, k))
  {
    if delays != [] {
      var c1, d := ScheduleAll(c, delays[..|delays| - 1], k), delays[|delays| - 1] + 1;
      HandlerKeepsInv(c, delays[..|delays| - 1], k);
      ScheduleKeepsInv(c1, d, Some(k));
      assert ScheduleAll(c, delays, k) == Schedule(c1, d, Some(k));
    }
  }

  lemma FireKeepsInv(c: Clock, h: Handlers)
    requires Inv(c) && HasDue(c)
    ensures Inv(FireFirst(c, h))
  {
    var e := c.pending[0];
    var c' := TakeFirst(c);
    assert c.pending == [e] + c.pending[1..];
    assert c'.fired + c'.pending == c.fired + c.pending;
    HandlerKeepsInv(c', h(|c.fired|), |c.fired|);
  }

  lemma {:induction false} FireAllKeepsInv(c: Clock, h: Handlers)
    requires Inv(c)
    ensures Inv(FireAll(c, h)) && !HasDue(FireAll(c, h)) && FireAll(c, h).total == c.total
    decreases Due(c.pending, c.total)
  {
    if HasDue(c) {
      OneFewerDue(c, h);
      FireKeepsInv(c, h);
      FireAllKeepsInv(FireFirst(c, h), h);
    }
  }

  ghost predicate NothingDue(c: Clock) {
    forall i :: 0 <= i < |c.pending| ==> c.pending[i].when > c.total
  }

  // With the first one not due, none is.
  lemma NoneDue(c: Clock)
    requires Ordered(c.fired + c.pending) && !HasDue(c)
    ensures NothingDue(c)
  {
    forall i | 0 <= i < |c.pending|
      ensures c.pending[i].when > c.total
    {
      var s := c.fired + c.pending;
      assert s[|c.fired|] == c.pending[0] && s[|c.fired| + i] == c.pending[i];
    }
  }

  // CheckIfDue leaves nothing due, and a clock that idles arrives exactly at the next interrupt.
  lemma CheckIfDueWorks(c: Clock, advanceClock: bool, h: Handlers)
    requires Inv(c)
    ensures var c' := CheckIfDue(c, advanceClock, h);
            && Inv(c') && NothingDue(c')
            && c'.total == (if advanceClock && c.pending != [] && c.pending[0].when > c.total then c.pending[0].when else c.total)
  {
    if c.pending == [] || (c.pending[0].when > c.total && !advanceClock) {
      NoneDue(c);
    } else {
      var c1 := Advanced(c);
      FireAllKeepsInv(c1, h);
      var c2 := FireAll(c1, h);
      NoneDue(c2);
      assert CheckIfDue(c, advanceClock, h) == c2;
    }
  }

  lemma Advanced(c: Clock) returns (c': Clock)
    requires Inv(c) && c.pending != []
    ensures c' == if c.pending[0].when > c.total then c.(idle := c.idle + (c.pending[0].when - c.total), total := c.pending[0].when) else c
    ensures Inv(c')
  {
    c' := if c.pending[0].when > c.total then c.(idle := c.idle + (c.pending[0].when - c.total), total := c.pending[0].when) else c;
    assert NeverEarly(c');
  }

  function Ticked(c: Clock, systemMode: bool): Clock {
    if systemMode then c.(total := c.total + SYSTEM_TICK, system := c.system + SYSTEM_TICK)
    else c.(total := c.total + USER_TICK, user := c.user + USER_TICK)
  }

  lemma TickKeepsInv(c: Clock, systemMode: bool)
    requires Inv(c)
    ensures Inv(Ticked(c, systemMode))
  {
    assert NeverEarly(Ticked(c, systemMode));
  }

  lemma StepKeepsInv(c: Clock, a: Action, h: Handlers)
    requires Inv(c) && NothingDue(c)
    ensures Inv(Next(c, a, h)) && NothingDue(Next(c, a, h))
  {
    match a
    case Tick(systemMode) =>
      TickKeepsInv(c, systemMode);
      CheckIfDueWorks(Ticked(c, systemMode), false, h);
    case Idle => CheckIfDueWorks(c, true, h);
    case Request(fromNow) => if fromNow > 0 { RequestKeepsInv(c, fromNow); }
  }

  lemma RequestKeepsInv(c: Clock, fromNow: int)
    requires Inv(c) && NothingDue(c) && fromNow > 0
    ensures var c' := Schedule(c, fromNow, None); Inv(c') && NothingDue(c')
  {
    ScheduleKeepsInv(c, fromNow, None);
    StillPending(c.pending, Event(c.total + fromNow, |c.scheduled|));
    var c' := Schedule(c, fromNow, None);
    assert forall i :: 0 <= i < |c'.pending| ==> c'.pending[i] in c'.pending;
  }

  lemma StillPending(q: seq<Event>, e: Event)
    ensures forall x :: x in Insert(q, e) <==> x in q || x == e
  {
    InsertAdds(q, e);
    assert forall x :: x in Insert(q, e) <==> x in multiset(Insert(q, e));
  }

  // For every sequence of ticks, idling and device requests, and all handlers.
  lemma {:induction false} EveryRun(acts: seq<Action>, h: Handlers)
    ensures Inv(Run(acts, h)) && NothingDue(Run(acts, h))
  {
    if acts != [] {
      EveryRun(acts[..|acts| - 1], h);
      StepKeepsInv(Run(acts[..|acts| - 1], h), acts[|acts| - 1], h);
    }
  }

  // ---------------------------------------------------------------------
  // On time: nothing is late by a whole tick

  ghost predicate Punctual(c: Clock) {
    && |c.times| == |c.fired|
    && (forall i :: 0 <= i < |c.fired| ==> c.times[i] < c.fired[i].when + SYSTEM_TICK)
    && (forall e :: e in c.pending ==> c.total < e.when + SYSTEM_TICK)
  }

  lemma {:induction false} HandlerKeepsPunctual(c: Clock, delays: seq<nat>, k: nat)
    requires Punctual(c)
    ensures Punctual(ScheduleAll(c, delays, k)) && c.scheduled <= ScheduleAll(c, delays, k).scheduled
  {
    if delays != [] {
      var n := |delays| - 1;
      var c1 := ScheduleAll(c, delays[..n], k);
      HandlerKeepsPunctual(c, delays[..n], k);
      HandlersScheduleLater(c, delays[..n], k);
      StillPending(c1.pending, Event(c1.total + delays[n] + 1, |c1.scheduled|));
    }
  }

  lemma FireKeepsPunctual(c: Clock, h: Handlers)
    requires Punctual(c) && HasDue(c)
    ensures Punctual(FireFirst(c, h)) && c.scheduled <= FireFirst(c, h).scheduled
  {
    assert c.pending == [c.pending[0]] + c.pending[1..];
    assert Punctual(TakeFirst(c));
    HandlerKeepsPunctual(TakeFirst(c), h(|c.fired|), |c.fired|);
  }

  lemma {:induction false} FireAllKeepsPunctual(c: Clock, h: Handlers)
    requires Punctual(c)
    ensures Punctual(FireAll(c, h)) && c.scheduled <= FireAll(c, h).scheduled
    decreases Due(c.pending, c.total)
  {
    if HasDue(c) {
      OneFewerDue(c, h);
      FireKeepsPunctual(c, h);
      FireAllKeepsPunctual(FireFirst(c, h), h);
    }
  }

  lemma CheckKeepsPunctual(c: Clock, advanceClock: bool, h: Handlers)
    requires Punctual(c) && Ordered(c.pending)
    ensures Punctual(CheckIfDue(c, advanceClock, h)) && c.scheduled <= CheckIfDue(c, advanceClock, h).scheduled
  {
    if c.pending != [] && (advanceClock || c.pending[0].when <= c.total) {
      var next := c.pending[0].when;
      var c' := if next > c.total then c.(idle := c.idle + (next - c.total), total := next) else c;
      FirstIsEarliest(c.pending);
      assert Punctual(c');
      FireAllKeepsPunctual(c', h);
    }
  }

  lemma FirstIsEarliest(q: seq<Event>)
    requires Ordered(q) && q != []
    ensures forall e :: e in q ==> q[0].when <= e.when
  {
  }

  lemma StepKeepsPunctual(c: Clock, a: Action, h: Handlers)
    requires Punctual(c) && NothingDue(c) && Ordered(c.pending)
    ensures Punctual(Next(c, a, h)) && c.scheduled <= Next(c, a, h).scheduled
  {
    match a
    case Tick(systemMode) =>
      assert Punctual(Ticked(c, systemMode));
      CheckKeepsPunctual(Ticked(c, systemMode), false, h);
    case Idle => CheckKeepsPunctual(c, true, h);
    case Request(fromNow) => StillPending(c.pending, Event(c.total + fromNow, |c.scheduled|));
  }

  lemma PendingOrdered(c: Clock)
    requires Ordered(c.fired + c.pending)
    ensures Ordered(c.pending)
  {
    var s, n := c.fired + c.pending, |c.fired|;
    forall i, j | 0 <= i < j < |c.pending|
      ensures Before(c.pending[i], c.pending[j])
    {
      assert s[n + i] == c.pending[i] && s[n + j] == c.pending[j];
    }
  }

  lemma {:induction false} EveryRunPunctual(acts: seq<Action>, h: Handlers, n: nat)
    requires n <= |acts|
    ensures Punctual(Run(acts, h)) && Run(acts[..n], h).scheduled <= Run(acts, h).scheduled
    decreases |acts|
  {
    if acts == [] {
      assert acts[..n] == acts;
    } else {
      var before := acts[..|acts| - 1];
      EveryRun(before, h);
      EveryRunPunctual(before, h, if n < |acts| then n else 0);
      PendingOrdered(Run(before, h));
      StepKeepsPunctual(Run(before, h), acts[|acts| - 1], h);
      assert n < |acts| ==> before[..n] == acts[..n];
      assert n == |acts| ==> acts[..n] == acts;
    }
  }

  // e has been called within a tick of its time, and not before.
  ghost predicate FiredOnTime(c: Clock, e: Event) {
    exists i :: 0 <= i < |c.fired| && i < |c.times| && c.fired[i] == e && e.when <= c.times[i] < e.when + SYSTEM_TICK
  }

  // An interrupt asked for at one time, by a device or by a handler, for so much later: at that time, and less than
  // a tick after it, its handler is called.
  lemma FiresWhenAsked(acts: seq<Action>, h: Handlers, k: nat)
    ensures var c := Run(acts, h);
            k < |c.asked| ==>
              && k < |c.scheduled| && c.scheduled[k].serial == k
              && c.scheduled[k].when == c.asked[k].time + c.asked[k].delay
              && (c.asked[k].time + c.asked[k].delay <= c.total ==> FiredOnTime(c, c.scheduled[k]))
  {
    EveryRun(acts, h);
    EveryRunPunctual(acts, h, 0);
    var c := Run(acts, h);
    if k < |c.asked| && c.scheduled[k].when <= c.total {
      DueHasFired(c, c.scheduled[k]);
    }
  }

  lemma DueHasFired(c: Clock, e: Event)
    requires Conserved(c) && NeverEarly(c) && NothingDue(c) && Punctual(c) && e in c.scheduled && e.when <= c.total
    ensures FiredOnTime(c, e)
  {
    assert e in multiset(c.scheduled);
    assert e !in multiset(c.pending);
    assert e in multiset(c.fired);
    var i :| 0 <= i < |c.fired| && c.fired[i] == e;
  }

  // A device that asks for an interrupt d ticks later gets it then.
  lemma RequestFires(acts: seq<Action>, h: Handlers, n: nat, d: int)
    requires n < |acts| && acts[n] == Request(d) && d > 0
    ensures var c0, c := Run(acts[..n], h), Run(acts, h);
            && c0.scheduled < c.scheduled
            && var e := c.scheduled[|c0.scheduled|]; e.when == c0.total + d && (e.when <= c.total ==> FiredOnTime(c, e))
  {
    var c0, c1 := Run(acts[..n], h), Run(acts[..n + 1], h);
    assert acts[..n + 1][..n] == acts[..n];
    assert c1.scheduled == c0.scheduled + [Event(c0.total + d, |c0.scheduled|)];
    EveryRun(acts, h);
    EveryRunPunctual(acts, h, n + 1);
    var c := Run(acts, h);
    var e := c1.scheduled[|c0.scheduled|];
    assert c.scheduled[|c0.scheduled|] == e;
    if e.when <= c.total {
      DueHasFired(c, e);
    }
  }

  // ---------------------------------------------------------------------
  // Every handler is called, and what it asks for is scheduled

  // The k-th handler called has asked for just these interrupts, one after the other.
  ghost predicate Obeyed(c: Clock, k: nat, delays: seq<nat>)
    requires k < |c.began| == |c.times|
  {
    && c.began[k] + |delays| <= |c.asked|
    && forall j :: 0 <= j < |delays| ==> c.asked[c.began[k] + j] == Ask(c.times[k], delays[j] + 1, Some(k))
  }

  ghost predicate HandlersObeyed(c: Clock, h: Handlers) {
    && |c.began| == |c.times| == |c.fired|
    && (forall k :: 0 <= k < |c.fired| ==> Obeyed(c, k, h(k)))
    && (forall i :: 0 <= i < |c.asked| && c.asked[i].caller.Some? ==>
          var k := c.asked[i].caller.value; k < |c.fired| && c.began[k] <= i < c.began[k] + |h(k)|)
  }

  function Asks(now: int, delays: seq<nat>, k: nat): (r: seq<Ask>)
    ensures |r| == |delays|
  {
    seq(|delays|, j requires 0 <= j < |delays| => Ask(now, delays[j] + 1, Some(k)))
  }

  lemma {:induction false} HandlerAsks(c: Clock, delays: seq<nat>, k: nat)
    ensures ScheduleAll(c, delays, k).asked == c.asked + Asks(c.total, delays, k)
  {
    if delays != [] {
      var n := |delays| - 1;
      HandlerAsks(c, delays[..n], k);
      HandlersScheduleLater(c, delays[..n], k);
      assert Asks(c.total, delays, k) == Asks(c.total, delays[..n], k) + [Ask(c.total, delays[n] + 1, Some(k))];
    }
  }

  lemma FireObeys(c: Clock, h: Handlers)
    requires HandlersObeyed(c, h) && c.pending != []
    ensures HandlersObeyed(FireFirst(c, h), h)
  {
    var k := |c.fired|;
    HandlersScheduleLater(TakeFirst(c), h(k), k);
    HandlerAsks(TakeFirst(c), h(k), k);
    CallObeys(c, FireFirst(c, h), h, c.pending[0]);
  }

  lemma CallObeys(c: Clock, c': Clock, h: Handlers, e: Event)
    requires HandlersObeyed(c, h) && c'.fired == c.fired + [e] && c'.times == c.times + [c.total] && c'.began == c.began + [|c.asked|]
    requires c'.asked == c.asked + Asks(c.total, h(|c.fired|), |c.fired|)
    ensures HandlersObeyed(c', h)
  {
    forall l | 0 <= l < |c'.fired|
      ensures Obeyed(c', l, h(l))
    {
      assert l < |c.fired| ==> Obeyed(c, l, h(l));
    }
  }

  lemma {:induction false} FireAllObeys(c: Clock, h: Handlers)
    requires HandlersObeyed(c, h)
    ensures HandlersObeyed(FireAll(c, h), h)
    decreases Due(c.pending, c.total)
  {
    if HasDue(c) {
      OneFewerDue(c, h);
      FireObeys(c, h);
      FireAllObeys(FireFirst(c, h), h);
    }
  }

  // The same history at another time.
  lemma ObeyedAnyTime(c: Clock, c': Clock, h: Handlers)
    requires HandlersObeyed(c, h) && c'.asked == c.asked && c'.fired == c.fired && c'.times == c.times && c'.began == c.began
    ensures HandlersObeyed(c', h)
  {
    forall k | 0 <= k < |c.fired|
      ensures Obeyed(c', k, h(k))
    {
      assert Obeyed(c, k, h(k));
    }
  }

  lemma CheckObeys(c: Clock, advanceClock: bool, h: Handlers)
    requires HandlersObeyed(c, h)
    ensures HandlersObeyed(CheckIfDue(c, advanceClock, h), h)
  {
    if c.pending != [] && (advanceClock || c.pending[0].when <= c.total) {
      var next := c.pending[0].when;
      var c' := if next > c.total then c.(idle := c.idle + (next - c.total), total := next) else c;
      ObeyedAnyTime(c, c', h);
      FireAllObeys(c', h);
    }
  }

  lemma RequestObeys(c: Clock, fromNow: int, h: Handlers)
    requires HandlersObeyed(c, h)
    ensures HandlersObeyed(Schedule(c, fromNow, None), h)
  {
    var c' := Schedule(c, fromNow, None);
    forall k | 0 <= k < |c.fired|
      ensures Obeyed(c', k, h(k))
    {
      assert Obeyed(c, k, h(k));
    }
  }

  // In every run, the k-th handler called asks for exactly what h(k) says, at the time of its call, and no handler
  // asks for anything else.
  lemma {:induction false} HandlersCalled(acts: seq<Action>, h: Handlers)
    ensures HandlersObeyed(Run(acts, h), h)
  {
    if acts != [] {
      var c, a := Run(acts[..|acts| - 1], h), acts[|acts| - 1];
      HandlersCalled(acts[..|acts| - 1], h);
      match a
      case Tick(systemMode) =>
        ObeyedAnyTime(c, Ticked(c, systemMode), h);
        CheckObeys(Ticked(c, systemMode), false, h);
      case Idle => CheckObeys(c, true, h);
      case Request(fromNow) => RequestObeys(c, fromNow, h);
    }
  }

  // ---------------------------------------------------------------------

  // Handlers are called in the order of their times, those for the same time in the order in which they
  // were scheduled, none early and none twice.
  lemma FiringOrder(acts: seq<Action>, h: Handlers, i: nat, j: nat)
    ensures var c := Run(acts, h);
            && |c.times| == |c.fired|
            && (i < j < |c.fired| ==>
                  && c.times[i] <= c.times[j]
                  && c.fired[i].when <= c.fired[j].when
                  && (c.fired[i].when == c.fired[j].when ==> c.fired[i].serial < c.fired[j].serial))
            && (i < |c.fired| ==> c.fired[i].when <= c.times[i] && c.fired[i] in c.scheduled && c.fired[i] !in c.pending)
  {
    EveryRun(acts, h);
    var c := Run(acts, h);
    var s := c.fired + c.pending;
    if i < j < |c.fired| {
      assert Before(s[i], s[j]);
    }
    if i < |c.fired| {
      assert c.fired[i] in multiset(c.fired) && c.fired[i] in multiset(c.scheduled);
      forall k | 0 <= k < |c.pending|
        ensures c.pending[k] != c.fired[i]
      {
        assert Before(s[i], s[|c.fired| + k]);
      }
    }
  }
}
