// The scheduler and the life of a thread (threads/scheduler.cc, threads/thread.cc).
module Schedulers {
  import opened Collections
  import opened Semaphores

  datatype Status = JustCreated | Running | Ready | Blocked

  // The kernel's view of its threads; a thread has a status as long as it exists.
  datatype Cpu = Cpu(current: Tid, status: map<Tid, Status>, readyList: seq<Tid>, toBeDestroyed: Option<Tid>)

  function MakeReady(c: Cpu, t: Tid): Cpu {
    c.(status := c.status[t := Ready], readyList := c.readyList + [t])
  }

  function TakeNext(c: Cpu): Cpu
    requires c.readyList != []
  {
    c.(readyList := c.readyList[1..])
  }

  // Run, up to the switch.
  function Dispatch(c: Cpu, next: Tid, finishing: bool): Cpu {
    c.(current := next, status := c.status[next := Running], toBeDestroyed := if finishing then Some(c.current) else c.toBeDestroyed)
  }

  // What the thread that was switched to does first: in Run, or in Begin when it is new.
  function Cleanup(c: Cpu): Cpu {
    if c.toBeDestroyed.None? then c else c.(status := c.status - {c.toBeDestroyed.value}, toBeDestroyed := None)
  }

  class Scheduler {
    var current: Tid
    var status: map<Tid, Status>
    var readyList: seq<Tid>
    var toBeDestroyed: Option<Tid>

    ghost function View(): Cpu
      reads this
    {
      Cpu(current, status, readyList, toBeDestroyed)
    }

    // List::Append insists that the thread is not yet listed.
    method ReadyToRun(t: Tid)
      requires t !in readyList
      modifies this
      ensures View() == MakeReady(old(View()), t)
      ensures readyList == old(readyList) + [t] && status == old(status)[t := Ready]
    {
      status := status[t := Ready];
      readyList := readyList + [t];
    }

    method FindNextToRun() returns (next: Option<Tid>)
      modifies this
      ensures next.None? <==> old(readyList) == []
      ensures next.None? ==> View() == old(View())
      ensures next.Some? ==> next.value == old(readyList)[0] && View() == TakeNext(old(View()))
    {
      if readyList == [] {
        return None;
      }
      next := Some(readyList[0]);
      readyList := readyList[1..];
    }

    method RunNext(next: Tid, finishing: bool)
      requires finishing ==> toBeDestroyed.None?
      modifies this
      ensures View() == Dispatch(old(View()), next, finishing)
      ensures current == next && readyList == old(readyList) && status == old(status)[next := Running]
      ensures toBeDestroyed == if finishing then Some(old(current)) else old(toBeDestroyed)
    {
      var oldThread := current;
      if finishing {
        toBeDestroyed := Some(oldThread);
      }
      current := next;
      status := status[next := Running];
    }

    method CheckToBeDestroyed()
      modifies this
      ensures View() == Cleanup(old(View())) && toBeDestroyed.None?
      ensures status.Keys == old(status).Keys - (if old(toBeDestroyed).Some? then {old(toBeDestroyed).value} else {})
    {
      if toBeDestroyed.Some? {
        status := status - {toBeDestroyed.value};
        toBeDestroyed := None;
      }
    }

    // Yield, up to the switch.
    method Yield() returns (switched: bool)
      requires current !in readyList
      modifies this
      ensures switched <==> old(readyList) != []
      ensures switched ==> [current] + readyList == old(readyList) + [old(current)]
      ensures View() == if switched then Dispatch(MakeReady(TakeNext(old(View())), old(current)), old(readyList)[0], false) else old(View())
    {
      var next := FindNextToRun();
      if next.None? {
        return false;
      }
      ReadyToRun(current);
      RunNext(next.value, false);
      return true;
    }
  }
}

// Whole runs of the kernel: threads, semaphore queues and interrupts in any order.
module ThreadRuns {
  import opened Collections
  import opened Semaphores
  import opened Schedulers

  // What the current thread is doing: its own code, the code after a switch (interrupts still off), or
  // the loop in Sleep that looks for the next thread.
  datatype Mode = Executing | Resuming | Sleeping(finishing: bool)

  datatype Place = AsCreated | AsRunning | AsReady | AsWaiting(q: nat) | AsFinishing

  // From place on it is history, and no step looks at it: where each thread is, the threads dispatched and made
  // ready so far, in order, and for each semaphore who has gone to sleep there and who has been woken.
  datatype State = State(cpu: Cpu, mode: Mode, queues: seq<seq<Tid>>, place: map<Tid, Place>, dispatched: seq<Tid>, arrivals: seq<Tid>,
                         slept: seq<seq<Tid>>, woken: seq<seq<Tid>>)

  datatype Action =
    | Create(t: Tid)   // new Thread
    | Fork(t: Tid)
    | Yield
    | Block(q: nat)    // P finds value 0: join the queue and sleep
    | Wake(q: nat)     // V, by a thread or by an interrupt handler, also while idle
    | Finish
    | FindNext         // one pass of the loop in Sleep
    | Resume           // after the switch

  predicate Recorded(s: State) {
    |s.slept| == |s.woken| == |s.queues|
  }

  predicate Enabled(s: State, a: Action) {
    match a
    case Create(t) => s.mode == Executing && t !in s.cpu.status
    case Fork(t) => s.mode == Executing && t in s.cpu.status && s.cpu.status[t] == JustCreated
    case Yield => s.mode == Executing && s.cpu.readyList != []
    case Block(q) => s.mode == Executing && q < |s.queues|
    case Wake(q) => s.mode != Resuming && q < |s.queues| && s.queues[q] != []
    case Finish => s.mode == Executing
    case FindNext => s.mode.Sleeping? && s.cpu.readyList != []
    case Resume => s.mode == Resuming
  }

  function Effect(s: State, a: Action): State
    requires Enabled(s, a) && Recorded(s)
  {
    var c := s.cpu;
    match a
    case Create(t) => s.(cpu := c.(status := c.status[t := JustCreated]), place := s.place[t := AsCreated])
    case Fork(t) => s.(cpu := MakeReady(c, t), place := s.place[t := AsReady], arrivals := s.arrivals + [t])
    case Yield =>
      var next := c.readyList[0];
      s.(cpu := Dispatch(MakeReady(TakeNext(c), c.current), next, false), mode := Resuming,
         place := s.place[c.current := AsReady][next := AsRunning],
         dispatched := s.dispatched + [next], arrivals := s.arrivals + [c.current])
    case Block(q) =>
      s.(cpu := c.(status := c.status[c.current := Blocked]), mode := Sleeping(false),
         queues := s.queues[q := s.queues[q] + [c.current]], slept := s.slept[q := s.slept[q] + [c.current]], place := s.place[c.current := AsWaiting(q)])
    case Wake(q) =>
      var t := s.queues[q][0];
      s.(cpu := MakeReady(c, t), queues := s.queues[q := s.queues[q][1..]], woken := s.woken[q := s.woken[q] + [t]],
         place := s.place[t := AsReady], arrivals := s.arrivals + [t])
    case Finish =>
      s.(cpu := c.(status := c.status[c.current := Blocked]), mode := Sleeping(true), place := s.place[c.current := AsFinishing])
    case FindNext =>
      var next := c.readyList[0];
      s.(cpu := Dispatch(TakeNext(c), next, s.mode.finishing), mode := Resuming,
         place := s.place[next := AsRunning], dispatched := s.dispatched + [next])
    case Resume =>
      s.(cpu := Cleanup(c), mode := Executing, place := if c.toBeDestroyed.Some? then s.place - {c.toBeDestroyed.value} else s.place)
  }

  function Next(s: State, a: Action): State {
    if Enabled(s, a) && Recorded(s) then Effect(s, a) else s
  }

  function Run(s: State, acts: seq<Action>): State {
    if acts == [] then s else Next(Run(s, acts[..|acts| - 1]), acts[|acts| - 1])
  }

  // The kernel with its main thread and m semaphores.
  function Booted(main: Tid, m: nat): State {
    State(Cpu(main, map[main := Running], [], None), Executing, seq(m, i => []), map[main := AsRunning], [], [], seq(m, i => []), seq(m, i => []))
  }

  // ---------------------------------------------------------------------
  // What every step keeps

  predicate Is(s: State, t: Tid, p: Place) {
    t in s.place && s.place[t] == p
  }

  function StatusAt(p: Place): Status {
    match p
    case AsCreated => JustCreated
    case AsRunning => Running
    case AsReady => Ready
    case AsWaiting(_) => Blocked
    case AsFinishing => Blocked
  }

  ghost predicate StatusAgrees(s: State) {
    s.cpu.status.Keys == s.place.Keys && forall t :: t in s.place ==> s.cpu.status[t] == StatusAt(s.place[t])
  }

  ghost predicate ReadyAgrees(s: State) {
    NoDup(s.cpu.readyList) && forall t: Tid :: t in s.cpu.readyList <==> Is(s, t, AsReady)
  }

  ghost predicate QueuesAgree(s: State) {
    && (forall q :: 0 <= q < |s.queues| ==> NoDup(s.queues[q]))
    && (forall q: nat, t: Tid :: q < |s.queues| ==> (t in s.queues[q] <==> Is(s, t, AsWaiting(q))))
    && (forall t :: t in s.place && s.place[t].AsWaiting? ==> s.place[t].q < |s.queues|)
  }

  ghost predicate CurrentAgrees(s: State) {
    && (forall t: Tid :: Is(s, t, AsRunning) <==> t == s.cpu.current && !s.mode.Sleeping?)
    && (forall t: Tid :: Is(s, t, AsFinishing) <==> s.cpu.toBeDestroyed == Some(t) || (t == s.cpu.current && s.mode == Sleeping(true)))
    && (s.cpu.toBeDestroyed.Some? ==> s.mode == Resuming)
  }

  ghost predicate Fifo(s: State) {
    s.dispatched + s.cpu.readyList == s.arrivals
  }

  ghost predicate QueuesFifo(s: State) {
    Recorded(s) && forall q :: 0 <= q < |s.queues| ==> s.woken[q] + s.queues[q] == s.slept[q]
  }

  ghost predicate Inv(s: State) {
    StatusAgrees(s) && ReadyAgrees(s) && QueuesAgree(s) && CurrentAgrees(s) && Fifo(s) && QueuesFifo(s)
  }

  // The threads that a step moves, and where it finds them.
  lemma Movers(s: State, a: Action)
    requires Inv(s) && Enabled(s, a)
    ensures !s.mode.Sleeping? ==> Is(s, s.cpu.current, AsRunning)
    ensures s.cpu.toBeDestroyed.Some? ==> Is(s, s.cpu.toBeDestroyed.value, AsFinishing)
    ensures a.Yield? || a.FindNext? ==> Is(s, s.cpu.readyList[0], AsReady)
    ensures a.Fork? ==> Is(s, a.t, AsCreated)
    ensures a.Wake? ==> Is(s, s.queues[a.q][0], AsWaiting(a.q))
  {
    if a.Yield? || a.FindNext? { assert s.cpu.readyList[0] in s.cpu.readyList; }
    if a.Wake? { assert s.queues[a.q][0] in s.queues[a.q]; }
  }

  lemma StepKeepsStatus(s: State, a: Action)
    requires Inv(s)
    ensures StatusAgrees(Next(s, a))
  {
  }

  lemma StepKeepsCurrent(s: State, a: Action)
    requires Inv(s)
    ensures CurrentAgrees(Next(s, a))
  {
    if Enabled(s, a) {
      Movers(s, a);
      var s' := Next(s, a);
      forall t: Tid
        ensures Is(s', t, AsRunning) <==> t == s'.cpu.current && !s'.mode.Sleeping?
        ensures Is(s', t, AsFinishing) <==> s'.cpu.toBeDestroyed == Some(t) || (t == s'.cpu.current && s'.mode == Sleeping(true))
      {
        assert Is(s, t, AsRunning) <==> t == s.cpu.current && !s.mode.Sleeping?;
      }
    }
  }

  lemma StepKeepsFifo(s: State, a: Action)
    requires Inv(s)
    ensures Fifo(Next(s, a))
  {
    if Enabled(s, a) && (a.Yield? || a.FindNext?) {
      assert s.cpu.readyList == [s.cpu.readyList[0]] + s.cpu.readyList[1..];
    }
  }

  lemma StepKeepsQueuesFifo(s: State, a: Action)
    requires QueuesFifo(s)
    ensures QueuesFifo(Next(s, a))
  {
    if Enabled(s, a) && a.Wake? {
      assert s.queues[a.q] == [s.queues[a.q][0]] + s.queues[a.q][1..];
    }
  }

  lemma YieldKeepsReady(s: State)
    requires Inv(s) && Enabled(s, Yield)
    ensures ReadyAgrees(Effect(s, Yield))
  {
    Movers(s, Yield);
    HeadOff(s.cpu.readyList);
    JoinQueue(s.cpu.readyList[1..], s.cpu.current);
  }

  lemma StepKeepsReady(s: State, a: Action)
    requires Inv(s)
    ensures ReadyAgrees(Next(s, a))
  {
    if Enabled(s, a) {
      Movers(s, a);
      var ready := s.cpu.readyList;
      match a
      case Fork(t) => JoinQueue(ready, t);
      case Wake(q) => JoinQueue(ready, s.queues[q][0]);
      case Yield => YieldKeepsReady(s);
      case FindNext => HeadOff(ready);
      case _ =>
    }
  }

  lemma StepKeepsQueues(s: State, a: Action)
    requires Inv(s)
    ensures QueuesAgree(Next(s, a))
  {
    if Enabled(s, a) {
      Movers(s, a);
      match a
      case Block(q) => JoinQueue(s.queues[q], s.cpu.current);
      case Wake(q) => HeadOff(s.queues[q]);
      case _ =>
    }
  }

  lemma {:induction false} EveryRun(main: Tid, m: nat, acts: seq<Action>)
    ensures Inv(Run(Booted(main, m), acts))
  {
    if acts != [] {
      var s, a := Run(Booted(main, m), acts[..|acts| - 1]), acts[|acts| - 1];
      EveryRun(main, m, acts[..|acts| - 1]);
      StepKeepsStatus(s, a);
      StepKeepsReady(s, a);
      StepKeepsQueues(s, a);
      StepKeepsCurrent(s, a);
      StepKeepsFifo(s, a);
      StepKeepsQueuesFifo(s, a);
    }
  }

  // ---------------------------------------------------------------------
  // The results, in terms of the kernel's own variables

  predicate At(s: State, t: Tid, p: Place) {
    match p
    case AsCreated => t in s.cpu.status && s.cpu.status[t] == JustCreated
    case AsRunning => t == s.cpu.current && !s.mode.Sleeping?
    case AsReady => t in s.cpu.readyList
    case AsWaiting(q) => q < |s.queues| && t in s.queues[q]
    case AsFinishing => s.cpu.toBeDestroyed == Some(t) || (t == s.cpu.current && s.mode == Sleeping(true))
  }

  // At every moment every thread is at exactly one place, once, and its status says so.
  lemma ExactlyOnePlace(main: Tid, m: nat, acts: seq<Action>, t: Tid)
    ensures var s := Run(Booted(main, m), acts);
            && (t in s.cpu.status <==> exists p :: At(s, t, p))
            && (forall p, p' :: At(s, t, p) && At(s, t, p') ==> p == p')
            && (forall p :: At(s, t, p) ==> t in s.cpu.status && s.cpu.status[t] == StatusAt(p))
            && NoDup(s.cpu.readyList) && (forall q :: 0 <= q < |s.queues| ==> NoDup(s.queues[q]))
  {
    EveryRun(main, m, acts);
    var s := Run(Booted(main, m), acts);
    forall p
      ensures At(s, t, p) <==> Is(s, t, p)
    {
    }
    if t in s.cpu.status {
      assert At(s, t, s.place[t]);
    }
  }

  // No thread is still waiting to be destroyed when another one finishes.
  lemma {:induction false} NoCarcassAtFinish(main: Tid, m: nat, acts: seq<Action>)
    ensures var s := Run(Booted(main, m), acts); s.mode != Resuming ==> s.cpu.toBeDestroyed.None?
  {
    EveryRun(main, m, acts);
  }

  lemma {:induction false} HistoryGrows(s: State, acts: seq<Action>)
    ensures s.arrivals <= Run(s, acts).arrivals && s.dispatched <= Run(s, acts).dispatched
  {
    if acts != [] {
      HistoryGrows(s, acts[..|acts| - 1]);
    }
  }

  lemma {:induction false} SleepersGrow(s: State, acts: seq<Action>, q: nat)
    requires QueuesFifo(s) && q < |s.queues|
    ensures var s' := Run(s, acts);
            QueuesFifo(s') && |s'.queues| == |s.queues| && s.slept[q] <= s'.slept[q] && s.woken[q] <= s'.woken[q]
  {
    if acts != [] {
      SleepersGrow(s, acts[..|acts| - 1], q);
      StepKeepsQueuesFifo(Run(s, acts[..|acts| - 1]), acts[|acts| - 1]);
    }
  }

  // A thread asleep on a semaphore behind k others is woken after exactly these k.
  lemma WokenInTurn(main: Tid, m: nat, before: seq<Action>, after: seq<Action>, q: nat, k: nat)
    requires q < m
    ensures var s := Run(Booted(main, m), before);
            var s' := Run(Booted(main, m), before + after);
            && |s.queues| == |s'.queues| == |s.woken| == |s'.woken| == m
            && (k < |s.queues[q]| && |s'.woken[q]| > |s.woken[q]| + k ==>
                  s'.woken[q][|s.woken[q]|..|s.woken[q]| + k + 1] == s.queues[q][..k + 1])
  {
    var s0 := Booted(main, m);
    assert QueuesFifo(s0);
    var s := Run(s0, before);
    RunInTwoParts(s0, before, after);
    SleepersGrow(s0, before, q);
    SleepersGrow(s, after, q);
    var s' := Run(s, after);
    InTurn(s.woken[q], s.queues[q], s.slept[q], s'.woken[q], s'.queues[q], s'.slept[q], k);
  }

  lemma {:induction false} RunInTwoParts(s: State, before: seq<Action>, after: seq<Action>)
    ensures Run(s, before + after) == Run(Run(s, before), after)
  {
    if after == [] {
      assert before + after == before;
    } else {
      RunInTwoParts(s, before, after[..|after| - 1]);
      assert (before + after)[..|before + after| - 1] == before + after[..|after| - 1];
    }
  }

  // A ready thread with k threads ahead of it is dispatched after exactly these k.
  lemma DispatchedInTurn(main: Tid, m: nat, before: seq<Action>, after: seq<Action>, k: nat)
    ensures var s := Run(Booted(main, m), before);
            var s' := Run(Booted(main, m), before + after);
            k < |s.cpu.readyList| && |s'.dispatched| > |s.dispatched| + k ==>
              s'.dispatched[|s.dispatched|..|s.dispatched| + k + 1] == s.cpu.readyList[..k + 1]
  {
    var s := Run(Booted(main, m), before);
    RunInTwoParts(Booted(main, m), before, after);
    EveryRun(main, m, before);
    EveryRun(main, m, before + after);
    HistoryGrows(s, after);
    var s' := Run(s, after);
    InTurn(s.dispatched, s.cpu.readyList, s.arrivals, s'.dispatched, s'.cpu.readyList, s'.arrivals, k);
  }
}
