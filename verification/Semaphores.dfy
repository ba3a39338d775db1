// Counting semaphores (threads/synch.cc).  Each function or method below is one
// region that the kernel runs with interrupts off, so it is one atomic step.
module Semaphores {
  import opened Collections

  type Tid = nat

  // The value and the FIFO queue of threads asleep in P.
  datatype Sem = Sem(value: int, queue: seq<Tid>)

  // One test of the loop condition in P: take a unit, or join the queue and sleep.
  function Test(s: Sem, t: Tid): (Sem, bool) {
    if s.value == 0 then (s.(queue := s.queue + [t]), false)
    else (s.(value := s.value - 1), true)
  }

  // V: take the first sleeper off the queue, if any, and add a unit.
  function Post(s: Sem): Sem {
    Sem(s.value + 1, if s.queue == [] then [] else s.queue[1..])
  }

  function FirstAsleep(s: Sem): Option<Tid> {
    if s.queue == [] then None else Some(s.queue[0])
  }

  // The object itself, updated in place.
  class Semaphore {
    var value: int
    var queue: seq<Tid>

    ghost function Model(): Sem
      reads this
    {
      Sem(value, queue)
    }

    constructor (initialValue: int)
      ensures Model() == Sem(initialValue, [])
    {
      value := initialValue;
      queue := [];
    }

    // One pass through the loop of P; when it fails, the caller sleeps behind everybody else and comes back.
    method TestOnce(t: Tid) returns (passed: bool)
      modifies this
      ensures (Model(), passed) == Test(old(Model()), t)
      ensures passed <==> old(value) != 0
      ensures if passed then value == old(value) - 1 && queue == old(queue) else value == 0 && queue == old(queue) + [t]
    {
      if value == 0 {
        queue := queue + [t];
        passed := false;
      } else {
        value := value - 1;
        passed := true;
      }
    }

    method V() returns (woken: Option<Tid>)
      modifies this
      ensures Model() == Post(old(Model()))
      ensures woken == FirstAsleep(old(Model()))
      ensures value == old(value) + 1
      ensures if old(queue) == [] then woken.None? && queue == [] else woken == Some(old(queue)[0]) && old(queue) == [old(queue)[0]] + queue
    {
      woken := None;
      if queue != [] {
        woken := Some(queue[0]);
        queue := queue[1..];
      }
      value := value + 1;
    }
  }
}

// Any threads, any interleaving, V also from interrupt handlers.
module SemaphoreRuns {
  import opened Collections
  import opened Semaphores

  // Where a thread is with respect to P.
  datatype PC = Outside | Testing(woken: bool) | Asleep

  // The counts and the lists are history: completed Ps and Vs, and who has gone to sleep and been woken, in order.
  datatype State = State(sem: Sem, pcs: map<Tid, PC>, initial: int, ps: nat, vs: nat, slept: seq<Tid>, woken: seq<Tid>)

  datatype Action =
    | CallP(t: Tid)  // enter P
    | TestP(t: Tid)  // test the loop condition, first time or after a wake-up
    | CallV          // V by a thread or by an interrupt handler, even an idle machine's

  function Init(initial: nat, threads: set<Tid>): State {
    State(Sem(initial, []), map t | t in threads :: Outside, initial, 0, 0, [], [])
  }

  // An action that is not enabled leaves the state as it is.
  function Next(s: State, a: Action): State {
    match a
    case CallP(t) =>
      if t in s.pcs && s.pcs[t] == Outside then s.(pcs := s.pcs[t := Testing(false)]) else s
    case TestP(t) =>
      if t in s.pcs && s.pcs[t].Testing? then
        var (sem', passed) := Test(s.sem, t);
        if passed then s.(sem := sem', pcs := s.pcs[t := Outside], ps := s.ps + 1)
        else s.(sem := sem', pcs := s.pcs[t := Asleep], slept := s.slept + [t])
      else s
    case CallV =>
      var pcs' := match FirstAsleep(s.sem) case None => s.pcs case Some(t) => s.pcs[t := Testing(true)];
      var woken := match FirstAsleep(s.sem) case None => [] case Some(t) => [t];
      s.(sem := Post(s.sem), pcs := pcs', vs := s.vs + 1, woken := s.woken + woken)
  }

  function Run(s: State, acts: seq<Action>): State
    decreases |acts|
  {
    if acts == [] then s else Next(Run(s, acts[..|acts| - 1]), acts[|acts| - 1])
  }

  // Threads that V has woken and that have not yet tested the value again.
  ghost function WokenSet(s: State): set<Tid> {
    set t | t in s.pcs && s.pcs[t] == Testing(true)
  }

  ghost predicate Inv(s: State) {
    && s.sem.value == s.initial + s.vs - s.ps
    && s.sem.value >= 0
    && NoDup(s.sem.queue)
    && (forall t :: t in s.sem.queue <==> t in s.pcs && s.pcs[t] == Asleep)
    && (s.sem.queue != [] ==> s.sem.value <= |WokenSet(s)|)
    && s.woken + s.sem.queue == s.slept
  }

  lemma CallKeepsInv(s: State, t: Tid)
    requires Inv(s)
    ensures Inv(Next(s, CallP(t)))
  {
    assert WokenSet(Next(s, CallP(t))) == WokenSet(s);
  }

  lemma TestKeepsInv(s: State, t: Tid)
    requires Inv(s)
    ensures Inv(Next(s, TestP(t)))
  {
    if t in s.pcs && s.pcs[t].Testing? {
      assert WokenSet(Next(s, TestP(t))) == WokenSet(s) - {t};
      JoinQueue(s.sem.queue, t);
    }
  }

  lemma VKeepsInv(s: State)
    requires Inv(s)
    ensures Inv(Next(s, CallV))
  {
    if s.sem.queue != [] {
      var t := s.sem.queue[0];
      HeadOff(s.sem.queue);
      assert t in s.sem.queue;
      assert WokenSet(Next(s, CallV)) == WokenSet(s) + {t};
    }
  }

  lemma StepKeepsInv(s: State, a: Action)
    requires Inv(s)
    ensures Inv(Next(s, a))
  {
    match a
    case CallP(t) => CallKeepsInv(s, t);
    case TestP(t) => TestKeepsInv(s, t);
    case CallV => VKeepsInv(s);
  }

  // Safety over whole runs: the value accounts for every V and every completed P, it is
  // never negative, and while anyone sleeps every unit has a woken thread coming for it.
  lemma {:induction false} EveryRun(initial: nat, threads: set<Tid>, acts: seq<Action>)
    ensures Inv(Run(Init(initial, threads), acts))
    decreases |acts|
  {
    if acts == [] {
    } else {
      EveryRun(initial, threads, acts[..|acts| - 1]);
      StepKeepsInv(Run(Init(initial, threads), acts[..|acts| - 1]), acts[|acts| - 1]);
    }
  }

  // Nobody sleeps for ever on an available semaphore: if no thread is about to test
  // the value, then either nobody is queued or there is no unit to take.
  lemma NoLostUnit(initial: nat, threads: set<Tid>, acts: seq<Action>)
    ensures var s := Run(Init(initial, threads), acts);
            (forall t :: t in s.pcs ==> !s.pcs[t].Testing?) ==> s.sem.queue == [] || s.sem.value == 0
  {
    EveryRun(initial, threads, acts);
    var s := Run(Init(initial, threads), acts);
    if forall t :: t in s.pcs ==> !s.pcs[t].Testing? {
      assert WokenSet(s) == {};
    }
  }

  lemma {:induction false} RunInTwoParts(s: State, before: seq<Action>, after: seq<Action>)
    ensures Run(s, before + after) == Run(Run(s, before), after)
    decreases |after|
  {
    if after == [] {
      assert before + after == before;
    } else {
      RunInTwoParts(s, before, after[..|after| - 1]);
      assert (before + after)[..|before + after| - 1] == before + after[..|after| - 1];
    }
  }

  lemma {:induction false} HistoryGrows(s: State, acts: seq<Action>)
    ensures s.slept <= Run(s, acts).slept && s.woken <= Run(s, acts).woken
    decreases |acts|
  {
    if acts != [] {
      HistoryGrows(s, acts[..|acts| - 1]);
    }
  }

  // First come, first served: a thread asleep behind k others is woken after exactly these k.
  lemma WokenInTurn(initial: nat, threads: set<Tid>, before: seq<Action>, after: seq<Action>, k: nat)
    ensures var s := Run(Init(initial, threads), before);
            var s' := Run(Init(initial, threads), before + after);
            k < |s.sem.queue| && |s'.woken| > |s.woken| + k ==>
              s'.woken[|s.woken|..|s.woken| + k + 1] == s.sem.queue[..k + 1]
  {
    var s := Run(Init(initial, threads), before);
    RunInTwoParts(Init(initial, threads), before, after);
    EveryRun(initial, threads, before);
    EveryRun(initial, threads, before + after);
    HistoryGrows(s, after);
    InTurn(s.woken, s.sem.queue, s.slept, Run(s, after).woken, Run(s, after).sem.queue, Run(s, after).slept, k);
  }

  // A step puts its own thread at the end of the sleepers, or takes off the first one.
  lemma SleepersStep(s: State, a: Action)
    ensures var q, q' := s.sem.queue, Next(s, a).sem.queue;
            || q' == q
            || (a.TestP? && q' == q + [a.t])
            || (a.CallV? && q == [q[0]] + q')
  {
  }
}

// Locks on top of semaphores, for any clients that acquire and release.
module LockRuns {
  import opened Collections
  import opened Semaphores
  import Sems = SemaphoreRuns

  // Where a thread is with respect to the lock; inside P it is where the semaphore says.
  // Again is a holder that has called Acquire once more.
  datatype Pc = Away | Acquiring | Passed | Holding | Again | Cleared

  // The lock's semaphore with everybody at it, and its holder; inside is history: who has passed P and not
  // yet done V.
  datatype State = State(sems: Sems.State, holder: Option<Tid>, at: map<Tid, Pc>, inside: Option<Tid>)

  datatype Action =
    | CallAcquire(t: Tid)
    | TestP(t: Tid)       // the loop test of the semaphore's P, first or after a wake-up
    | SetHolder(t: Tid)
    | CallRelease(t: Tid) // the ASSERT that the caller holds the lock, and lockHolder = NULL
    | PostV(t: Tid)

  predicate Is(s: State, t: Tid, pc: Pc) {
    t in s.at && s.at[t] == pc
  }

  // A caller that does not hold the lock is stopped by the ASSERT in Release.
  function Next(s: State, a: Action): State {
    match a
    case CallAcquire(t) =>
      if Is(s, t, Away) || Is(s, t, Holding) then
        s.(sems := Sems.Next(s.sems, Sems.CallP(t)), at := s.at[t := if s.at[t] == Away then Acquiring else Again])
      else s
    case TestP(t) =>
      if Is(s, t, Acquiring) || Is(s, t, Again) then
        var sems := Sems.Next(s.sems, Sems.TestP(t));
        if sems.ps > s.sems.ps then s.(sems := sems, at := s.at[t := Passed], inside := Some(t)) else s.(sems := sems)
      else s
    case SetHolder(t) => if Is(s, t, Passed) then s.(holder := Some(t), at := s.at[t := Holding]) else s
    case CallRelease(t) => if Is(s, t, Holding) && s.holder == Some(t) then s.(holder := None, at := s.at[t := Cleared]) else s
    case PostV(t) => if Is(s, t, Cleared) then s.(sems := Sems.Next(s.sems, Sems.CallV), at := s.at[t := Away], inside := None) else s
  }

  function Run(s: State, acts: seq<Action>): State {
    if acts == [] then s else Next(Run(s, acts[..|acts| - 1]), acts[|acts| - 1])
  }

  function Init(threads: set<Tid>): State {
    State(Sems.Init(1, threads), None, map t | t in threads :: Away, None)
  }

  // ---------------------------------------------------------------------

  // Between the semaphore's P and its V.
  predicate Inside(s: State, t: Tid) {
    t in s.at && s.at[t] in {Passed, Holding, Again, Cleared}
  }

  predicate HasLock(s: State, t: Tid) {
    Is(s, t, Holding) || Is(s, t, Again)
  }

  ghost predicate Inv(s: State) {
    && Sems.Inv(s.sems) && s.sems.initial == 1
    && s.sems.ps == s.sems.vs + (if s.inside.Some? then 1 else 0)
    && (forall t: Tid :: Inside(s, t) <==> s.inside == Some(t))
    && (forall t: Tid :: HasLock(s, t) <==> s.holder == Some(t))
  }

  // The semaphore's own account does it: a unit can be taken only when nobody is inside.
  lemma StepKeepsInv(s: State, a: Action)
    requires Inv(s)
    ensures Inv(Next(s, a))
  {
    match a
    case CallAcquire(t) => Sems.StepKeepsInv(s.sems, Sems.CallP(t));
    case TestP(t) => Sems.StepKeepsInv(s.sems, Sems.TestP(t));
    case PostV(t) =>
      Sems.StepKeepsInv(s.sems, Sems.CallV);
      assert Is(s, t, Cleared) ==> Inside(s, t);
    case SetHolder(t) => assert s.holder.Some? ==> HasLock(s, s.holder.value) && Inside(s, s.holder.value);
    case CallRelease(t) =>
  }

  lemma {:induction false} EveryRun(threads: set<Tid>, acts: seq<Action>)
    ensures Inv(Run(Init(threads), acts))
  {
    if acts == [] {
      Sems.EveryRun(1, threads, []);
    } else {
      EveryRun(threads, acts[..|acts| - 1]);
      StepKeepsInv(Run(Init(threads), acts[..|acts| - 1]), acts[|acts| - 1]);
    }
  }

  // Mutual exclusion for any clients: at most one thread is past Acquire and not yet through Release, the
  // semaphore's value is 0 exactly then, and lockHolder names the holder, so that the ASSERT in Release holds.
  lemma MutualExclusion(threads: set<Tid>, acts: seq<Action>)
    ensures var s := Run(Init(threads), acts);
            && (forall t: Tid, u: Tid :: Inside(s, t) && Inside(s, u) ==> t == u)
            && s.sems.sem.value == (if exists t: Tid :: Inside(s, t) then 0 else 1)
            && (forall t: Tid :: HasLock(s, t) <==> s.holder == Some(t))
  {
    EveryRun(threads, acts);
    var s := Run(Init(threads), acts);
    assert s.inside.Some? ==> Inside(s, s.inside.value);
  }

  // The lock is not reentrant: a holder that acquires it again stays in that Acquire for ever.
  lemma {:induction false} AgainForEver(threads: set<Tid>, acts: seq<Action>, n: nat, t: Tid)
    requires n <= |acts| && Is(Run(Init(threads), acts[..n]), t, Again)
    ensures Is(Run(Init(threads), acts), t, Again)
    decreases |acts|
  {
    if n < |acts| {
      var before := acts[..|acts| - 1];
      assert before[..n] == acts[..n];
      AgainForEver(threads, before, n, t);
      EveryRun(threads, before);
      assert Inside(Run(Init(threads), before), t);
    } else {
      assert acts[..n] == acts;
    }
  }
}
